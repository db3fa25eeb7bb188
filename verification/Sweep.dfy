/**
 One pass of the subscription watchdog (telkap/main.py): the running jobs of
 users whose plan has ended are stopped, each with a note saying why.
 */
module Sweep {

  type User = int

  const EXPIRED := "اشتراک منقضی شده است"

  class Task {
    const user: User
    var enabled: bool
    var lastError: string

    constructor (user: User, enabled: bool, lastError: string)
      ensures this.user == user && this.enabled == enabled && this.lastError == lastError
    {
      this.user, this.enabled, this.lastError := user, enabled, lastError;
    }
  }

  /** What there is to know of one task. */
  datatype Job = Job(user: User, enabled: bool, lastError: string)

  function JobOf(task: Task): Job
    reads task
  {
    Job(task.user, task.enabled, task.lastError)
  }

  ghost function Jobs(tasks: seq<Task>): (jobs: seq<Job>)
    reads set t | t in tasks
    ensures |jobs| == |tasks| && forall i :: 0 <= i < |tasks| ==> jobs[i] == JobOf(tasks[i])
  {
    if tasks == [] then [] else Jobs(tasks[..|tasks| - 1]) + [JobOf(tasks[|tasks| - 1])]
  }

  /**
   Whether the user has a plan when the pass looks at the `k`-th user. Plans may
   be granted or end between any two looks, and between a look and the write.
   */
  type PlanAt = (nat, User) -> bool

  predicate Runs(jobs: seq<Job>, user: User) {
    exists i :: 0 <= i < |jobs| && jobs[i].user == user && jobs[i].enabled
  }

  ghost function RunningJobs(jobs: seq<Job>, user: User): set<int> {
    set i | 0 <= i < |jobs| && jobs[i].user == user && jobs[i].enabled
  }

  /** How many jobs this user has running. */
  ghost function Running(jobs: seq<Job>, user: User): nat {
    |RunningJobs(jobs, user)|
  }

  lemma RunsWhenRunning(jobs: seq<Job>, user: User)
    ensures Runs(jobs, user) <==> Running(jobs, user) > 0
  {
    if Runs(jobs, user) {
      var i :| 0 <= i < |jobs| && jobs[i].user == user && jobs[i].enabled;
      assert i in RunningJobs(jobs, user);
    }
  }

  lemma RunningNext(jobs: seq<Job>, user: User, j: nat)
    requires j < |jobs|
    ensures Running(jobs[..j + 1], user) == Running(jobs[..j], user) + if jobs[j].user == user && jobs[j].enabled then 1 else 0
  {
    var before, after := RunningJobs(jobs[..j], user), RunningJobs(jobs[..j + 1], user);
    if jobs[j].user == user && jobs[j].enabled {
      assert after == before + {j};
    } else {
      assert after == before;
    }
  }

  function StopJob(job: Job, user: User): Job {
    if job.enabled && job.user == user then Job(user, false, EXPIRED) else job
  }

  function StopJobs(jobs: seq<Job>, user: User): seq<Job> {
    seq(|jobs|, i requires 0 <= i < |jobs| => StopJob(jobs[i], user))
  }

  /** The jobs after the first users of the list have been looked at. */
  function PassOver(jobs: seq<Job>, users: seq<User>, active: PlanAt): seq<Job> {
    if users == [] then jobs
    else
      var k := |users| - 1;
      var before := PassOver(jobs, users[..k], active);
      if active(k, users[k]) then before else StopJobs(before, users[k])
  }

  /** The users who are told, in the order they are looked at, and how many of their jobs were stopped. */
  ghost function Told(jobs: seq<Job>, users: seq<User>, active: PlanAt): seq<(User, nat)> {
    if users == [] then []
    else
      var k := |users| - 1;
      var before, now := Told(jobs, users[..k], active), PassOver(jobs, users[..k], active);
      if active(k, users[k]) || !Runs(now, users[k]) then before else before + [(users[k], Running(now, users[k]))]
  }

  ghost predicate Separate(tasks: seq<Task>) {
    forall i, j :: 0 <= i < j < |tasks| ==> tasks[i] != tasks[j]
  }

  /** Stops what this user has running; answers how many that were. */
  method Stop(tasks: seq<Task>, user: User) returns (stopped: nat)
    requires Separate(tasks)
    modifies set t | t in tasks
    ensures Jobs(tasks) == StopJobs(old(Jobs(tasks)), user)
    ensures stopped == Running(old(Jobs(tasks)), user)
  {
    ghost var jobs := Jobs(tasks);
    stopped := 0;
    for j := 0 to |tasks|
      invariant forall i :: 0 <= i < j ==> JobOf(tasks[i]) == StopJob(jobs[i], user)
      invariant forall i :: j <= i < |tasks| ==> JobOf(tasks[i]) == jobs[i]
      invariant stopped == Running(jobs[..j], user)
    {
      RunningNext(jobs, user, j);
      assert JobOf(tasks[j]) == jobs[j];
      if tasks[j].enabled && tasks[j].user == user {
        tasks[j].enabled := false;
        tasks[j].lastError := EXPIRED;
        stopped := stopped + 1;
      }
    }
    assert jobs[..|tasks|] == jobs;
  }

  /** One pass over the users the query returned, in whatever order it returned them. */
  method Pass(tasks: seq<Task>, users: seq<User>, active: PlanAt) returns (told: seq<(User, nat)>)
    requires Separate(tasks)
    modifies set t | t in tasks
    ensures Jobs(tasks) == PassOver(old(Jobs(tasks)), users, active)
    ensures told == Told(old(Jobs(tasks)), users, active)
  {
    ghost var jobs := Jobs(tasks);
    told := [];
    for k := 0 to |users|
      invariant Jobs(tasks) == PassOver(jobs, users[..k], active)
      invariant told == Told(jobs, users[..k], active)
    {
      assert users[..k + 1][..k] == users[..k];
      if !active(k, users[k]) {
        RunsWhenRunning(Jobs(tasks), users[k]);
        var stopped := Stop(tasks, users[k]);
        if stopped > 0 {
          told := told + [(users[k], stopped)];
        }
      }
    }
    assert users[..|users|] == users;
  }

  // ------------------------------------------------------------- what a pass achieves

  /** This user is looked at, and found without a plan at that look. */
  predicate FoundWithout(users: seq<User>, active: PlanAt, user: User) {
    exists k :: 0 <= k < |users| && users[k] == user && !active(k, users[k])
  }

  lemma FoundNext(users: seq<User>, active: PlanAt, user: User)
    requires users != []
    ensures var k := |users| - 1;
            FoundWithout(users, active, user) <==>
              FoundWithout(users[..k], active, user) || (users[k] == user && !active(k, users[k]))
  {
  }

  /**
   For plans that change in any way meanwhile: exactly the running jobs of users
   found without a plan at the look at them are stopped, with the note saying
   why; every other job is as it was.
   */
  lemma {:induction false} StoppedExactly(jobs: seq<Job>, users: seq<User>, active: PlanAt)
    ensures |PassOver(jobs, users, active)| == |jobs|
    ensures forall i :: 0 <= i < |jobs| ==>
              PassOver(jobs, users, active)[i] ==
                if jobs[i].enabled && FoundWithout(users, active, jobs[i].user) then Job(jobs[i].user, false, "اشتراک منقضی شده است") else jobs[i]
    decreases |users|
  {
    if users == [] {
    } else {
      StoppedExactly(jobs, users[..|users| - 1], active);
      forall i | 0 <= i < |jobs|
        ensures PassOver(jobs, users, active)[i] ==
                  if jobs[i].enabled && FoundWithout(users, active, jobs[i].user) then Job(jobs[i].user, false, "اشتراک منقضی شده است") else jobs[i]
      {
        FoundNext(users, active, jobs[i].user);
      }
    }
  }

  /** The list the query makes: the distinct owners of running jobs. */
  ghost predicate OwnersOfRunning(users: seq<User>, jobs: seq<Job>) {
    && (forall i, j :: 0 <= i < j < |users| ==> users[i] != users[j])
    && (forall u :: u in users <==> Runs(jobs, u))
  }

  /** With plans that do not change during the pass, what runs afterwards is what ran before and is paid for. */
  lemma QuietPass(jobs: seq<Job>, users: seq<User>, plan: User -> bool)
    requires OwnersOfRunning(users, jobs)
    ensures var after := PassOver(jobs, users, (k, u) => plan(u));
            |after| == |jobs| && forall i :: 0 <= i < |jobs| ==> after[i].enabled == (jobs[i].enabled && plan(jobs[i].user))
  {
    var active: PlanAt := (k, u) => plan(u);
    StoppedExactly(jobs, users, active);
    forall i | 0 <= i < |jobs| && jobs[i].enabled
      ensures FoundWithout(users, active, jobs[i].user) <==> !plan(jobs[i].user)
    {
      assert Runs(jobs, jobs[i].user);
      var k :| 0 <= k < |users| && users[k] == jobs[i].user;
    }
  }

  ghost predicate NoRepeats(told: seq<(User, nat)>) {
    forall i, j :: 0 <= i < j < |told| ==> told[i].0 != told[j].0
  }

  /** Told are exactly the users something was stopped for, each once, with the number of jobs they had running. */
  lemma {:induction false} ToldExactly(jobs: seq<Job>, users: seq<User>, active: PlanAt, n: nat)
    requires n <= |users| && OwnersOfRunning(users, jobs)
    ensures forall u, c :: (u, c) in Told(jobs, users[..n], active) <==> FoundWithout(users[..n], active, u) && c == Running(jobs, u)
    ensures NoRepeats(Told(jobs, users[..n], active))
    decreases n
  {
    if n == 0 {
    } else {
      var k := n - 1;
      assert users[..n][..k] == users[..k];
      ToldExactly(jobs, users, active, k);
      StillRuns(jobs, users, active, k);
      assert users[k] !in users[..k] && !FoundWithout(users[..k], active, users[k]);
      forall u, c ensures (u, c) in Told(jobs, users[..n], active) <==> FoundWithout(users[..n], active, u) && c == Running(jobs, u) {
        FoundNext(users[..n], active, u);
      }
      forall i | 0 <= i < |Told(jobs, users[..k], active)| ensures Told(jobs, users[..k], active)[i].0 != users[k] {
        var (u, c) := Told(jobs, users[..k], active)[i];
        assert (u, c) in Told(jobs, users[..k], active);
      }
    }
  }

  /** Until a user is looked at their jobs run on. */
  lemma StillRuns(jobs: seq<Job>, users: seq<User>, active: PlanAt, k: nat)
    requires k < |users| && OwnersOfRunning(users, jobs)
    ensures var now := PassOver(jobs, users[..k], active);
            Runs(now, users[k]) && Running(now, users[k]) == Running(jobs, users[k])
  {
    StoppedExactly(jobs, users[..k], active);
    assert !FoundWithout(users[..k], active, users[k]);
    var now := PassOver(jobs, users[..k], active);
    assert RunningJobs(now, users[k]) == RunningJobs(jobs, users[k]);
    assert Runs(jobs, users[k]);
    RunsWhenRunning(jobs, users[k]);
    RunsWhenRunning(now, users[k]);
  }
}
