/**
 The stored language of a user and the process-wide cache in front of it
 (telkap/i18n.py), with the one writer of user rows that knows nothing of the
 cache (telkap/handlers/common.py).
 */
module LanguageCache {
  import opened Options
  import opened Text
  import opened Langs

  type User = int

  /** The language a read of the row leads to: the row's, or the fallback's. */
  function Resolve(stored: Option<string>, fallback: Option<string>): Lang {
    if stored.Some? && stored.value != "" then Normalize(stored) else Normalize(fallback)
  }

  function Row(db: map<User, string>, user: User): Option<string> {
    if user in db then Some(db[user]) else None
  }

  // ------------------------------------------------------------------ whole calls

  /** `db` holds the language column of the users that have a row. */
  datatype State = State(db: map<User, string>, cache: map<User, Lang>, current: Lang)

  datatype Call =
    | LanguageOf(user: User, fallback: Option<string>, dbFails: bool)
    | SetLanguage(user: User, lang: Option<string>, dbFails: bool)
    | Forget(user: User)
    | ResetCache
    | GetOrCreateUser(user: User)

  function Apply(s: State, call: Call): State {
    match call
    case LanguageOf(user, fallback, dbFails) =>
      if user in s.cache || dbFails then s
      else s.(cache := s.cache[user := Resolve(Row(s.db, user), fallback)])
    case SetLanguage(user, lang, dbFails) =>
      if dbFails then s
      else
        var clean := Normalize(lang);
        State(if user in s.db then s.db[user := Spelling(clean)] else s.db, s.cache[user := clean], clean)
    case Forget(user) => s.(cache := s.cache - {user})
    case ResetCache => s.(cache := map[])
    case GetOrCreateUser(user) =>
      if user in s.db then s else s.(db := s.db[user := Spelling(DEFAULT)])
  }

  /** What a read returns: what is cached by then, or the fallback. */
  function Answer(s: State, user: User, fallback: Option<string>, dbFails: bool): Lang {
    var cache := Apply(s, LanguageOf(user, fallback, dbFails)).cache;
    if user in cache then cache[user] else Normalize(fallback)
  }

  class Languages {
    var db: map<User, string>
    var cache: map<User, Lang>
    var current: Lang

    function Now(): State
      reads this
    {
      State(db, cache, current)
    }

    constructor (stored: map<User, string>)
      ensures Now() == State(stored, map[], DEFAULT)
    {
      db, cache, current := stored, map[], DEFAULT;
    }

    /** With the database down the fallback is returned but not remembered. */
    method LanguageOf(user: User, fallback: Option<string>, dbFails: bool) returns (lang: Lang)
      modifies this`cache
      ensures Now() == Apply(old(Now()), Call.LanguageOf(user, fallback, dbFails))
      ensures lang == Answer(old(Now()), user, fallback, dbFails)
    {
      if user in cache {
        return cache[user];
      }
      if dbFails {
        return Normalize(fallback);
      }
      var stored := if user in db then Some(db[user]) else None;
      lang := if stored.Some? && stored.value != "" then Normalize(stored) else Normalize(fallback);
      cache := cache[user := lang];
    }

    /** A failing database raises before anything is changed. */
    method SetLanguage(user: User, lang: Option<string>, dbFails: bool) returns (clean: Option<Lang>)
      modifies this
      ensures Now() == Apply(old(Now()), Call.SetLanguage(user, lang, dbFails))
      ensures clean == if dbFails then None else Some(Normalize(lang))
    {
      if dbFails {
        return None;
      }
      var c := Normalize(lang);
      if user in db {
        db := db[user := Spelling(c)];
      }
      cache := cache[user := c];
      SpellingNormal(c);
      current := Normalize(Some(Spelling(c)));
      clean := Some(c);
    }

    method Forget(user: User)
      modifies this`cache
      ensures Now() == Apply(old(Now()), Call.Forget(user))
    {
      cache := cache - {user};
    }

    method ResetCache()
      modifies this`cache
      ensures Now() == Apply(old(Now()), Call.ResetCache)
    {
      cache := map[];
    }

    /** Inserts a row with the model's default language and leaves the cache alone. */
    method GetOrCreateUser(user: User)
      modifies this`db
      ensures Now() == Apply(old(Now()), Call.GetOrCreateUser(user))
    {
      if user !in db {
        db := db[user := Spelling(DEFAULT)];
      }
    }
  }

  function Calls(s: State, calls: seq<Call>): State
    decreases |calls|
  {
    if calls == [] then s else Calls(Apply(s, calls[0]), calls[1..])
  }

  /** A read that nothing is cached for: the row's language, and the fallback's without a row, with an empty one or without a database. */
  lemma FirstAnswer(s: State, user: User, fallback: Option<string>, dbFails: bool)
    requires user !in s.cache
    ensures Answer(s, user, fallback, dbFails) ==
              if !dbFails && user in s.db && s.db[user] != "" then Normalize(Some(s.db[user])) else Normalize(fallback)
    ensures var s' := Apply(s, LanguageOf(user, fallback, dbFails));
            s' == if dbFails then s else s.(cache := s.cache[user := Answer(s, user, fallback, dbFails)])
  {
  }

  /** A later one: what was answered first, whatever has become of the database, until it is forgotten. */
  lemma LaterAnswer(s: State, user: User, fallback: Option<string>, later: Option<string>, dbFails: bool)
    ensures var s' := Apply(s, LanguageOf(user, fallback, false));
            Answer(s', user, later, dbFails) == Answer(s, user, fallback, false) && Apply(s', LanguageOf(user, later, dbFails)) == s'
    ensures user !in Apply(s, Forget(user)).cache && Apply(s, ResetCache).cache == map[]
  {
  }

  /**
   A change that goes through is what the caller's texts are in from then on, what
   every later read answers, and, for a user with a row, what is read again from
   the database when the cache is lost; nobody else's row or entry is touched.
   */
  lemma ChangeTakesEffect(s: State, user: User, lang: Option<string>, fallback: Option<string>, dbFails: bool)
    ensures var s' := Apply(s, SetLanguage(user, lang, false));
            && s'.current == Normalize(lang)
            && Answer(s', user, fallback, dbFails) == Normalize(lang)
            && (user in s.db ==> Answer(Apply(s', ResetCache), user, fallback, false) == Normalize(lang))
            && (user !in s.db ==> s'.db == s.db)
            && s'.db.Keys == s.db.Keys && (forall u :: u in s.db && u != user ==> s'.db[u] == s.db[u])
            && (forall u :: u != user ==> (u in s'.cache <==> u in s.cache))
            && (forall u :: u in s.cache && u != user ==> s'.cache[u] == s.cache[u])
    ensures Apply(s, SetLanguage(user, lang, true)) == s
  {
    SpellingNormal(Normalize(lang));
  }

  /** A new row answers in Persian unless something is cached. */
  lemma NewRowAnswer(s: State, user: User, fallback: Option<string>)
    requires user !in s.db && user !in s.cache
    ensures Answer(Apply(s, GetOrCreateUser(user)), user, fallback, false) == Fa
  {
    SpellingNormal(DEFAULT);
  }

  /** The cache says what the row says. */
  ghost predicate Coherent(s: State, user: User) {
    user in s.cache && user in s.db ==> s.cache[user] == Normalize(Some(s.db[user]))
  }

  /**
   Exactly when a whole call keeps a user coherent. Only two can fail to: caching
   the fallback for a row that holds an empty string, and inserting a default row
   under a language that was cached from the fallback.
   */
  lemma KeepsCoherentExactlyWhen(s: State, call: Call, user: User)
    requires Coherent(s, user)
    ensures Coherent(Apply(s, call), user) <==>
              match call
              case LanguageOf(u, fallback, dbFails) =>
                u != user || dbFails || user in s.cache || user !in s.db || s.db[user] != "" || Normalize(fallback) == DEFAULT
              case GetOrCreateUser(u) =>
                u != user || user in s.db || user !in s.cache || s.cache[user] == DEFAULT
              case _ => true
  {
    assert Normalize(Some("")) == DEFAULT;
    SpellingNormal(DEFAULT);
    if call.SetLanguage? {
      SpellingNormal(Normalize(call.lang));
    }
  }

  /** A user whose row is there stays coherent through any calls of anyone. */
  lemma {:induction false} CoherentInEveryRun(s: State, calls: seq<Call>, user: User)
    requires user in s.db && s.db[user] != "" && Coherent(s, user)
    ensures var s' := Calls(s, calls); user in s'.db && s'.db[user] != "" && Coherent(s', user)
    decreases |calls|
  {
    if calls == [] {
    } else {
      KeepsCoherentExactlyWhen(s, calls[0], user);
      CoherentInEveryRun(Apply(s, calls[0]), calls[1..], user);
    }
  }

  // ------------------------------------------------------------- interleaved calls

  /** How far a call has come between its awaits. */
  datatype Stage =
    | Asking                       // the query is under way
    | Heard(row: Option<string>)   // the database has answered
    | Closed(row: Option<string>)  // a change is committed, the cache not yet written
    | Wrote(row: Option<string>)   // the cache is written, the call is over
    | Served(lang: Lang)           // a read the cache could answer at once
    | Failed

  /** `since` is the table version the call began at. */
  datatype Task =
    | Read(user: User, fallback: Option<string>, since: nat, at: Stage)  // language_of
    | Change(user: User, asked: Option<string>, since: nat, at: Stage)   // set_language

  function Advance(task: Task, at: Stage): Task {
    match task
    case Read(user, fallback, since, _) => Read(user, fallback, since, at)
    case Change(user, asked, since, _) => Change(user, asked, since, at)
  }

  function Known(at: Stage): Option<string> {
    match at
    case Heard(row) => row
    case Closed(row) => row
    case Wrote(row) => row
    case _ => None
  }

  /** What the call puts into the cache. */
  function Language(task: Task): Lang {
    match task
    case Read(_, fallback, _, at) => Resolve(Known(at), fallback)
    case Change(_, asked, _, _) => Normalize(asked)
  }

  /** The session writes the row only if it is there and was loaded with another value. */
  predicate Writes(task: Task) {
    task.Change? && Known(task.at).Some? && Known(task.at).value != Spelling(Language(task))
  }

  /** Nothing but the write of the cache is left to do. */
  predicate Ready(task: Task) {
    if task.Read? then task.at.Heard? else task.at.Closed?
  }

  datatype World = World(
    versions: seq<map<User, string>>,  // every state the table has been in, the last one current
    cache: map<User, Lang>,
    writer: map<User, nat>,            // the call that wrote the entry
    tasks: map<nat, Task>)

  datatype Action =
    | BeginRead(id: nat, user: User, fallback: Option<string>)
    | BeginSet(id: nat, user: User, lang: Option<string>)
    | Database(id: nat)     // the awaited query answers
    | Fail(id: nat)         // the database raises, before anything is committed
    | Commit(id: nat)
    | Write(id: nat)        // the call resumes and writes the cache
    | Drop(user: User)      // forget
    | DropAll               // reset_cache
    | Insert(user: User)    // get_or_create_user

  ghost predicate Valid(w: World) {
    w.versions != []
  }

  function Table(w: World): map<User, string>
    requires Valid(w)
  {
    w.versions[|w.versions| - 1]
  }

  function Step(w: World, action: Action): World
    requires Valid(w)
  {
    match action
    case BeginRead(id, user, fallback) =>
      if id in w.tasks then w
      else
        var at := if user in w.cache then Served(w.cache[user]) else Asking;
        w.(tasks := w.tasks[id := Read(user, fallback, |w.versions| - 1, at)])
    case BeginSet(id, user, lang) =>
      if id in w.tasks then w else w.(tasks := w.tasks[id := Change(user, lang, |w.versions| - 1, Asking)])
    case Database(id) =>
      if id !in w.tasks || !w.tasks[id].at.Asking? then w
      else w.(tasks := w.tasks[id := Advance(w.tasks[id], Heard(Row(Table(w), w.tasks[id].user)))])
    case Fail(id) =>
      if id !in w.tasks || !(w.tasks[id].at.Asking? || w.tasks[id].at.Heard?) then w
      else w.(tasks := w.tasks[id := Advance(w.tasks[id], Failed)])
    case Commit(id) =>
      if id !in w.tasks || !w.tasks[id].Change? || !w.tasks[id].at.Heard? then w
      else
        var task := w.tasks[id];
        w.(versions := if Writes(task) then w.versions + [Table(w)[task.user := Spelling(Language(task))]] else w.versions,
           tasks := w.tasks[id := Advance(task, Closed(task.at.row))])
    case Write(id) =>
      if id !in w.tasks || !Ready(w.tasks[id]) then w
      else
        var task := w.tasks[id];
        w.(cache := w.cache[task.user := Language(task)],
           writer := w.writer[task.user := id],
           tasks := w.tasks[id := Advance(task, Wrote(Known(task.at)))])
    case Drop(user) => w.(cache := w.cache - {user}, writer := w.writer - {user})
    case DropAll => w.(cache := map[], writer := map[])
    case Insert(user) =>
      if user in Table(w) then w else w.(versions := w.versions + [Table(w)[user := Spelling(DEFAULT)]])
  }

  lemma StepGrows(w: World, action: Action)
    requires Valid(w)
    ensures Valid(Step(w, action)) && w.versions <= Step(w, action).versions
  {
  }

  function Run(w: World, actions: seq<Action>): (r: World)
    requires Valid(w)
    ensures Valid(r)
    decreases |actions|
  {
    if actions == [] then w else Run(Step(w, actions[0]), actions[1..])
  }

  // ------------------------------------------------- what every interleaving keeps

  /** The table held exactly this for the user in some version from `since` on. */
  ghost predicate RowSince(w: World, user: User, since: nat, row: Option<string>) {
    exists k :: since <= k < |w.versions| && Row(w.versions[k], user) == row
  }

  /**
   What a call heard was so at some time since it began; and once a change that
   found its row is committed, the table has held what was asked for.
   */
  ghost predicate TaskOk(w: World, task: Task) {
    && task.since < |w.versions|
    && (task.at.Heard? || task.at.Closed? || task.at.Wrote? ==> RowSince(w, task.user, task.since, task.at.row))
    && (task.Change? && (task.at.Closed? || task.at.Wrote?) && task.at.row.Some? ==>
          RowSince(w, task.user, task.since, Some(Spelling(Normalize(task.asked)))))
  }

  /** The entry is what its writer's row and fallback lead to, or what its writer was asked for. */
  ghost predicate EntryOk(w: World, user: User) {
    && user in w.cache && user in w.writer && w.writer[user] in w.tasks
    && var task := w.tasks[w.writer[user]];
       && task.user == user && task.at.Wrote?
       && w.cache[user] == match task
                           case Read(_, fallback, _, _) => Resolve(task.at.row, fallback)
                           case Change(_, asked, _, _) => Normalize(asked)
  }

  /** Nothing is cached but what the store held while its writer ran, a fallback, or what a call asked for. */
  ghost predicate Weak(w: World) {
    && Valid(w)
    && (forall user :: user in w.cache ==> EntryOk(w, user))
    && (forall id :: id in w.tasks ==> TaskOk(w, w.tasks[id]))
  }

  lemma TaskLater(w: World, w': World, task: Task)
    requires w.versions <= w'.versions && TaskOk(w, task)
    ensures TaskOk(w', task)
  {
  }

  lemma NowHeld(w: World, user: User, since: nat)
    requires Valid(w) && since < |w.versions|
    ensures RowSince(w, user, since, Row(Table(w), user))
  {
    assert Row(w.versions[|w.versions| - 1], user) == Row(Table(w), user);
  }

  /** A call that has just heard from the database holds what the table holds now. */
  lemma ChangedTaskOk(w: World, action: Action, id: nat)
    requires Weak(w) && id in w.tasks && id in Step(w, action).tasks && Step(w, action).tasks[id] != w.tasks[id]
    ensures TaskOk(Step(w, action), Step(w, action).tasks[id])
  {
    var w' := Step(w, action);
    StepGrows(w, action);
    TaskLater(w, w', w.tasks[id]);
    NowHeld(w', w.tasks[id].user, w.tasks[id].since);
  }

  lemma TasksStayOk(w: World, action: Action)
    requires Weak(w)
    ensures var w' := Step(w, action); forall id :: id in w'.tasks ==> TaskOk(w', w'.tasks[id])
  {
    var w' := Step(w, action);
    StepGrows(w, action);
    forall id | id in w'.tasks ensures TaskOk(w', w'.tasks[id]) {
      if id in w.tasks {
        if w'.tasks[id] == w.tasks[id] {
          TaskLater(w, w', w.tasks[id]);
        } else {
          ChangedTaskOk(w, action, id);
        }
      }
    }
  }

  lemma EntriesStayOk(w: World, action: Action)
    requires Weak(w)
    ensures var w' := Step(w, action); forall user :: user in w'.cache ==> EntryOk(w', user)
  {
    var w' := Step(w, action);
    forall user | user in w'.cache ensures EntryOk(w', user) {
      if user in w.cache {
        assert EntryOk(w, user);
      }
    }
  }

  /** For every interleaving: the weak form is all that can be lost to. */
  lemma {:induction false} WeakInEveryRun(w: World, actions: seq<Action>)
    requires Weak(w)
    ensures Weak(Run(w, actions))
    decreases |actions|
  {
    if actions == [] {
      assert Run(w, actions) == w;
    } else {
      StepGrows(w, actions[0]);
      TasksStayOk(w, actions[0]);
      EntriesStayOk(w, actions[0]);
      WeakInEveryRun(Step(w, actions[0]), actions[1..]);
    }
  }

  // ------------------------------------------------------- runs that stay coherent

  /** The language the row says, if there is a row. */
  function Due(w: World, user: User): Option<Lang>
    requires Valid(w)
  {
    if user in Table(w) then Some(Normalize(Some(Table(w)[user]))) else None
  }

  ghost predicate CoherentNow(w: World, user: User)
    requires Valid(w)
  {
    user in w.cache && user in Table(w) ==> Some(w.cache[user]) == Due(w, user)
  }

  /** This call will cache its language whatever the row says by then. */
  predicate Holding(task: Task, user: User) {
    task.user == user && (Ready(task) || (task.Change? && task.at.Heard? && !Writes(task)))
  }

  /** The row is changed and the cache not yet told. */
  predicate Unwritten(task: Task, user: User) {
    task.user == user && task.at.Closed? && Writes(task)
  }

  ghost predicate Settled(w: World, user: User) {
    forall id :: id in w.tasks ==> !Unwritten(w.tasks[id], user)
  }

  predicate OwnWrite(w: World, action: Action, user: User) {
    action.Write? && action.id in w.tasks && Ready(w.tasks[action.id]) && w.tasks[action.id].user == user
  }

  /** A commit that changes this user's row. */
  predicate OwnCommit(w: World, action: Action, user: User) {
    && action.Commit? && action.id in w.tasks
    && w.tasks[action.id].Change? && w.tasks[action.id].at.Heard? && w.tasks[action.id].user == user
    && Writes(w.tasks[action.id])
  }

  predicate OwnInsert(w: World, action: Action, user: User)
    requires Valid(w)
  {
    action == Insert(user) && user !in Table(w)
  }

  /** The language a step brings into this user's row. */
  function Brought(w: World, action: Action, user: User): Option<Lang>
    requires Valid(w)
  {
    if OwnCommit(w, action, user) then Some(Language(w.tasks[action.id]))
    else if OwnInsert(w, action, user) then Some(DEFAULT)
    else None
  }

  predicate Disagrees(task: Task, user: User, lang: Lang) {
    Holding(task, user) && Language(task) != lang
  }

  /** A read hears an empty language and will cache a fallback that is not the default. */
  predicate HearsEmpty(w: World, action: Action, user: User)
    requires Valid(w)
  {
    && action.Database? && action.id in w.tasks && w.tasks[action.id].Read? && w.tasks[action.id].at.Asking?
    && w.tasks[action.id].user == user && Row(Table(w), user) == Some("") && Normalize(w.tasks[action.id].fallback) != DEFAULT
  }

  /**
   The row gets one language while another call is bound to cache a different
   one, or, when it is inserted, while a different one is cached; or it holds an
   empty string that a read takes for its fallback.
   */
  ghost predicate Clash(w: World, action: Action, user: User)
    requires Valid(w)
  {
    || (Brought(w, action, user).Some? && exists id :: id in w.tasks && Disagrees(w.tasks[id], user, Brought(w, action, user).value))
    || (OwnInsert(w, action, user) && user in w.cache && w.cache[user] != DEFAULT)
    || HearsEmpty(w, action, user)
  }

  ghost predicate NoClash(w: World, actions: seq<Action>, user: User)
    requires Valid(w)
    decreases |actions|
  {
    actions != [] ==>
      !Clash(w, actions[0], user) && (StepGrows(w, actions[0]); NoClash(Step(w, actions[0]), actions[1..], user))
  }

  /** Every call bound to cache something agrees with the row, if any, and so does the cache once changes are written. */
  ghost predicate InStep(w: World, user: User) {
    && Valid(w)
    && (forall id :: id in w.tasks ==> TaskInStep(w.tasks[id], user, Due(w, user)))
    && (Settled(w, user) ==> CoherentNow(w, user))
    && (user !in Table(w) ==> Settled(w, user))
  }

  predicate TaskInStep(task: Task, user: User, due: Option<Lang>) {
    Holding(task, user) && due.Some? ==> Language(task) == due.value
  }

  ghost predicate InStepThroughout(w: World, actions: seq<Action>, user: User)
    requires Valid(w)
    decreases |actions|
  {
    && InStep(w, user)
    && (actions != [] ==> (StepGrows(w, actions[0]); InStepThroughout(Step(w, actions[0]), actions[1..], user)))
  }

  /** What a step that touches the row leaves behind. */
  lemma BroughtIn(w: World, action: Action, user: User)
    requires Valid(w) && Brought(w, action, user).Some?
    ensures var w' := Step(w, action);
            && Valid(w') && w'.cache == w.cache && user in Table(w') && Due(w', user) == Brought(w, action, user)
            && Table(w')[user] == Spelling(Brought(w, action, user).value)
            && w'.tasks.Keys == w.tasks.Keys
            && forall id :: id in w.tasks && (action.Commit? ==> id != action.id) ==> w'.tasks[id] == w.tasks[id]
  {
    SpellingNormal(Brought(w, action, user).value);
  }

  lemma CommitUnwritten(w: World, action: Action, user: User)
    requires Valid(w) && OwnCommit(w, action, user)
    ensures var task' := Step(w, action).tasks[action.id];
            task' == Advance(w.tasks[action.id], Closed(w.tasks[action.id].at.row)) && Unwritten(task', user)
  {
  }

  /** Nothing else changes the row. */
  lemma DueStays(w: World, action: Action, user: User)
    requires Valid(w) && Brought(w, action, user).None?
    ensures Valid(Step(w, action)) && Row(Table(Step(w, action)), user) == Row(Table(w), user)
    ensures Due(Step(w, action), user) == Due(w, user)
  {
    StepGrows(w, action);
  }

  lemma CacheShrinks(w: World, action: Action, user: User)
    requires Valid(w) && !OwnWrite(w, action, user)
    ensures var w' := Step(w, action); user in w'.cache ==> user in w.cache && w'.cache[user] == w.cache[user]
  {
  }

  lemma OnlyWritesSettle(w: World, action: Action, user: User, id: nat)
    requires Valid(w) && id in w.tasks && Unwritten(w.tasks[id], user) && !OwnWrite(w, action, user)
    ensures id in Step(w, action).tasks && Step(w, action).tasks[id] == w.tasks[id]
  {
  }

  lemma UnwrittenStays(w: World, action: Action, user: User)
    requires Valid(w) && !OwnWrite(w, action, user) && Settled(Step(w, action), user)
    ensures Settled(w, user)
  {
    forall id | id in w.tasks ensures !Unwritten(w.tasks[id], user) {
      if Unwritten(w.tasks[id], user) {
        OnlyWritesSettle(w, action, user, id);
      }
    }
  }

  /** No change waits to be written that did not wait before. */
  ghost predicate NoneNew(w: World, w': World, user: User) {
    forall id :: id in w'.tasks && Unwritten(w'.tasks[id], user) ==> id in w.tasks && Unwritten(w.tasks[id], user)
  }

  lemma OnlyCommitsLeaveUnwritten(w: World, action: Action, user: User)
    requires Valid(w) && !OwnCommit(w, action, user)
    ensures NoneNew(w, Step(w, action), user)
  {
    var w' := Step(w, action);
    forall id | id in w'.tasks && Unwritten(w'.tasks[id], user) ensures id in w.tasks && Unwritten(w.tasks[id], user) {
      if !(id in w.tasks && w'.tasks[id] == w.tasks[id]) {
        OneMoves(w, action, id);
      }
    }
  }

  /** A step moves one call, its own. */
  lemma OneMoves(w: World, action: Action, id: nat)
    requires Valid(w) && id in Step(w, action).tasks && !(id in w.tasks && Step(w, action).tasks[id] == w.tasks[id])
    ensures if id !in w.tasks then Step(w, action).tasks[id].at.Asking? || Step(w, action).tasks[id].at.Served?
            else Moved(w, action, id, Step(w, action).tasks[id])
  {
  }

  /** The four ways a call can get on. */
  predicate Moved(w: World, action: Action, id: nat, task': Task)
    requires Valid(w) && id in w.tasks
  {
    var task := w.tasks[id];
    || (action == Database(id) && task.at.Asking? && task' == Advance(task, Heard(Row(Table(w), task.user))))
    || (action == Fail(id) && task' == Advance(task, Failed))
    || (action == Commit(id) && task.Change? && task.at.Heard? && task' == Advance(task, Closed(task.at.row)))
    || (action == Write(id) && Ready(task) && task' == Advance(task, Wrote(Known(task.at))))
  }

  /** A call that hears from the database is in step with it, unless it takes an empty string for its fallback. */
  lemma HeardInStep(w: World, id: nat, user: User)
    requires Valid(w) && id in w.tasks && w.tasks[id].at.Asking? && !HearsEmpty(w, Database(id), user)
    ensures TaskInStep(Advance(w.tasks[id], Heard(Row(Table(w), w.tasks[id].user))), user, Due(w, user))
  {
    SpellingNormal(Language(w.tasks[id]));
    EmptyIsDefault();
  }

  lemma EmptyIsDefault()
    ensures Normalize(Some("")) == DEFAULT
  {
  }

  lemma MovedInStep(w: World, action: Action, user: User, id: nat, task': Task)
    requires Valid(w) && id in w.tasks && Moved(w, action, id, task') && Brought(w, action, user).None?
    requires TaskInStep(w.tasks[id], user, Due(w, user)) && !HearsEmpty(w, action, user)
    ensures TaskInStep(task', user, Due(w, user))
  {
    if action.Database? {
      HeardInStep(w, id, user);
    }
  }

  /** A step that leaves the row alone keeps every call in step with it. */
  lemma TaskStaysInStep(w: World, action: Action, user: User, id: nat)
    requires InStep(w, user) && Brought(w, action, user).None? && !HearsEmpty(w, action, user)
    requires id in Step(w, action).tasks
    ensures TaskInStep(Step(w, action).tasks[id], user, Due(w, user))
  {
    if id in w.tasks {
      assert TaskInStep(w.tasks[id], user, Due(w, user));
    }
    if !(id in w.tasks && Step(w, action).tasks[id] == w.tasks[id]) {
      OneMoves(w, action, id);
      if id in w.tasks {
        MovedInStep(w, action, user, id, Step(w, action).tasks[id]);
      }
    }
  }

  lemma QuietStepCoherent(w: World, action: Action, user: User)
    requires InStep(w, user) && Brought(w, action, user).None? && Settled(Step(w, action), user)
    ensures Valid(Step(w, action)) && CoherentNow(Step(w, action), user)
  {
    DueStays(w, action, user);
    if OwnWrite(w, action, user) {
      assert TaskInStep(w.tasks[action.id], user, Due(w, user));
    } else {
      CacheShrinks(w, action, user);
      UnwrittenStays(w, action, user);
    }
  }

  lemma QuietStepStays(w: World, action: Action, user: User)
    requires InStep(w, user) && Brought(w, action, user).None? && !HearsEmpty(w, action, user)
    ensures InStep(Step(w, action), user)
  {
    var w' := Step(w, action);
    DueStays(w, action, user);
    forall id | id in w'.tasks ensures TaskInStep(w'.tasks[id], user, Due(w', user)) {
      TaskStaysInStep(w, action, user, id);
    }
    if Settled(w', user) {
      QuietStepCoherent(w, action, user);
    }
    if user !in Table(w') {
      OnlyCommitsLeaveUnwritten(w, action, user);
    }
  }

  /** A step that changes the row keeps in step exactly the calls that agree with what it brings. */
  lemma BringingStepStays(w: World, action: Action, user: User)
    requires InStep(w, user) && Brought(w, action, user).Some? && !Clash(w, action, user)
    ensures InStep(Step(w, action), user)
  {
    var w' := Step(w, action);
    BroughtIn(w, action, user);
    forall id | id in w'.tasks ensures TaskInStep(w'.tasks[id], user, Due(w', user)) {
      assert !Disagrees(w.tasks[id], user, Brought(w, action, user).value);
      if action.Commit? && id == action.id {
        CommitUnwritten(w, action, user);
      }
    }
    if OwnCommit(w, action, user) {
      CommitUnwritten(w, action, user);
      assert !Settled(w', user);
    }
  }

  lemma StaysInStep(w: World, action: Action, user: User)
    requires InStep(w, user) && !Clash(w, action, user)
    ensures InStep(Step(w, action), user)
  {
    if Brought(w, action, user).Some? {
      BringingStepStays(w, action, user);
    } else {
      QuietStepStays(w, action, user);
    }
  }

  lemma HolderFallsOut(w: World, action: Action, user: User, holder: nat)
    requires Valid(w) && Brought(w, action, user).Some?
    requires holder in w.tasks && Disagrees(w.tasks[holder], user, Brought(w, action, user).value)
    ensures !InStep(Step(w, action), user)
  {
    BroughtIn(w, action, user);
    assert action.Commit? ==> holder != action.id;
    assert !TaskInStep(Step(w, action).tasks[holder], user, Due(Step(w, action), user));
  }

  lemma InsertFallsOut(w: World, action: Action, user: User)
    requires InStep(w, user) && OwnInsert(w, action, user) && user in w.cache && w.cache[user] != DEFAULT
    ensures !InStep(Step(w, action), user)
  {
    BroughtIn(w, action, user);
    assert Settled(Step(w, action), user);
  }

  lemma EmptyFallsOut(w: World, action: Action, user: User)
    requires Valid(w) && HearsEmpty(w, action, user)
    ensures !InStep(Step(w, action), user)
    ensures var w' := Step(w, action);
            && Valid(w') && action.id in w'.tasks && Disagrees(w'.tasks[action.id], user, DEFAULT)
            && user in Table(w') && Due(w', user) == Some(DEFAULT)
  {
    EmptyIsDefault();
    var w' := Step(w, action);
    assert Holding(w'.tasks[action.id], user) && Due(w', user) == Some(DEFAULT);
    assert !TaskInStep(w'.tasks[action.id], user, Due(w', user));
  }

  lemma ClashFallsOut(w: World, action: Action, user: User)
    requires InStep(w, user) && Clash(w, action, user)
    ensures !InStep(Step(w, action), user)
  {
    if HearsEmpty(w, action, user) {
      EmptyFallsOut(w, action, user);
    } else if OwnInsert(w, action, user) && user in w.cache && w.cache[user] != DEFAULT {
      InsertFallsOut(w, action, user);
    } else {
      var holder :| holder in w.tasks && Disagrees(w.tasks[holder], user, Brought(w, action, user).value);
      HolderFallsOut(w, action, user, holder);
    }
  }

  /**
   For every interleaving, exactly: cache, row and all calls in flight stay in
   step from first to last if and only if no step of the run is a clash.
   */
  lemma {:induction false} InStepExactlyWhenNoClash(w: World, actions: seq<Action>, user: User)
    requires InStep(w, user)
    ensures InStepThroughout(w, actions, user) <==> NoClash(w, actions, user)
    decreases |actions|
  {
    if actions == [] {
      assert InStepThroughout(w, actions, user) && NoClash(w, actions, user);
    } else if Clash(w, actions[0], user) {
      ClashFallsOut(w, actions[0], user);
    } else {
      StaysInStep(w, actions[0], user);
      InStepExactlyWhenNoClash(Step(w, actions[0]), actions[1..], user);
    }
  }

  /** So without a clash the cache agrees with the row whenever no change waits to be written. */
  lemma {:induction false} CoherentWithoutClash(w: World, actions: seq<Action>, user: User)
    requires InStep(w, user) && NoClash(w, actions, user)
    ensures InStep(Run(w, actions), user)
    ensures Settled(Run(w, actions), user) ==> CoherentNow(Run(w, actions), user)
    decreases |actions|
  {
    if actions == [] {
      assert Run(w, actions) == w;
    } else {
      StaysInStep(w, actions[0], user);
      CoherentWithoutClash(Step(w, actions[0]), actions[1..], user);
    }
  }

  lemma {:induction false} RunOn(w: World, first: seq<Action>, rest: seq<Action>)
    requires Valid(w)
    ensures Run(w, first + rest) == Run(Run(w, first), rest)
    decreases |first|
  {
    if first == [] {
      assert first + rest == rest;
    } else {
      assert (first + rest)[1..] == first[1..] + rest;
      RunOn(Step(w, first[0]), first[1..], rest);
    }
  }

  lemma RunOne(w: World, a: Action)
    requires Valid(w)
    ensures Valid(Step(w, a)) && Run(w, [a]) == Step(w, a)
  {
    StepGrows(w, a);
    assert Run(w, [a]) == Run(Step(w, a), [a][1..]);
  }

  lemma RunTwo(w: World, a: Action, b: Action)
    requires Valid(w)
    ensures Valid(Step(w, a)) && Valid(Step(Step(w, a), b)) && Run(w, [a, b]) == Step(Step(w, a), b)
  {
    RunOne(w, a);
    RunOne(Step(w, a), b);
    RunOn(w, [a], [b]);
    assert [a, b] == [a] + [b];
  }

  // ------------------------------------------------------------- what a clash can do

  /** Nothing new begins: calls in flight go on to their ends. */
  predicate OnlyFinishes(actions: seq<Action>) {
    forall i :: 0 <= i < |actions| ==> actions[i].Commit? || actions[i].Write?
  }

  /** Row and cache differ, and not because a change made since is still to be written. */
  ghost predicate Broken(w: World, w': World, user: User) {
    Valid(w') && !CoherentNow(w', user) && NoneNew(w, w', user)
  }

  lemma HolderCommits(w: World, holder: nat, user: User)
    requires Valid(w) && holder in w.tasks && Holding(w.tasks[holder], user)
    ensures var w1 := Step(w, Commit(holder));
            && w1.versions == w.versions && holder in w1.tasks && w1.tasks == w.tasks[holder := w1.tasks[holder]]
            && w1.tasks[holder].user == user && Ready(w1.tasks[holder])
            && Language(w1.tasks[holder]) == Language(w.tasks[holder])
  {
  }

  lemma ReadyWrites(w: World, id: nat)
    requires Valid(w) && id in w.tasks && Ready(w.tasks[id])
    ensures var w1 := Step(w, Write(id));
            && w1.versions == w.versions && w1.cache == w.cache[w.tasks[id].user := Language(w.tasks[id])]
            && w1.tasks == w.tasks[id := w1.tasks[id]] && w1.tasks[id].at.Wrote?
  {
  }

  /** A call that holds another language than the row goes on to cache it. */
  lemma HolderFinishes(w: World, holder: nat, user: User)
    requires Valid(w) && user in Table(w) && holder in w.tasks
    requires Holding(w.tasks[holder], user) && Some(Language(w.tasks[holder])) != Due(w, user)
    ensures var w' := Run(w, [Commit(holder), Write(holder)]);
            && w'.versions == w.versions && w'.tasks.Keys == w.tasks.Keys
            && (forall id :: id in w.tasks && id != holder ==> w'.tasks[id] == w.tasks[id])
            && w'.tasks[holder].at.Wrote?
            && user in w'.cache && w'.cache[user] == Language(w.tasks[holder]) && !CoherentNow(w', user)
  {
    RunTwo(w, Commit(holder), Write(holder));
    HolderCommits(w, holder, user);
    ReadyWrites(Step(w, Commit(holder)), holder);
  }

  /** A change that has committed goes on to tell the cache. */
  lemma WriterFinishes(w: World, writer: nat, user: User)
    requires Valid(w) && OwnCommit(w, Commit(writer), user)
    ensures var w' := Run(w, [Commit(writer), Write(writer)]);
            && user in Table(w') && Table(w')[user] == Spelling(Language(w.tasks[writer]))
            && Due(w', user) == Some(Language(w.tasks[writer]))
            && w'.tasks.Keys == w.tasks.Keys && w'.tasks[writer].at.Wrote?
            && forall id :: id in w.tasks && id != writer ==> w'.tasks[id] == w.tasks[id]
  {
    RunTwo(w, Commit(writer), Write(writer));
    BroughtIn(w, Commit(writer), user);
    CommitUnwritten(w, Commit(writer), user);
    assert Step(Step(w, Commit(writer)), Write(writer)).versions == Step(w, Commit(writer)).versions;
  }

  /** The change goes first, the call that holds another language last. */
  function BreakingOrder(writer: nat, holder: nat): seq<Action> {
    [Commit(writer), Write(writer)] + [Commit(holder), Write(holder)]
  }

  /** Whatever kind of call it is that holds another language: in this order both end and the cache stays wrong. */
  lemma HolderBreaks(w: World, writer: nat, holder: nat, user: User)
    requires Valid(w) && OwnCommit(w, Commit(writer), user)
    requires holder in w.tasks && Disagrees(w.tasks[holder], user, Language(w.tasks[writer]))
    ensures var w' := Run(w, BreakingOrder(writer, holder));
            && w'.tasks.Keys == w.tasks.Keys && w'.tasks[holder].at.Wrote? && w'.tasks[writer].at.Wrote?
            && (forall id :: id in w.tasks && id != writer && id != holder ==> w'.tasks[id] == w.tasks[id])
            && user in w'.cache && w'.cache[user] == Language(w.tasks[holder])
            && user in Table(w') && Table(w')[user] == Spelling(Language(w.tasks[writer]))
            && !CoherentNow(w', user)
  {
    assert holder != writer;
    WriterFinishes(w, writer, user);
    HolderFinishes(Run(w, [Commit(writer), Write(writer)]), holder, user);
    RunOn(w, [Commit(writer), Write(writer)], [Commit(holder), Write(holder)]);
  }

  lemma CommitCanBreak(w: World, writer: nat, holder: nat, user: User) returns (rest: seq<Action>)
    requires Valid(w) && OwnCommit(w, Commit(writer), user)
    requires holder in w.tasks && Disagrees(w.tasks[holder], user, Language(w.tasks[writer]))
    ensures OnlyFinishes(rest) && Broken(w, Run(w, [Commit(writer)] + rest), user)
  {
    rest := [Write(writer), Commit(holder), Write(holder)];
    HolderBreaks(w, writer, holder, user);
    assert BreakingOrder(writer, holder) == [Commit(writer)] + rest;
  }

  /** The same behind an insert, or behind an empty string that was heard. */
  lemma HolderCanBreak(w: World, action: Action, holder: nat, user: User) returns (rest: seq<Action>)
    requires Valid(w) && Valid(Step(w, action)) && !OwnCommit(w, action, user) && user in Table(Step(w, action))
    requires holder in Step(w, action).tasks && Holding(Step(w, action).tasks[holder], user)
    requires Some(Language(Step(w, action).tasks[holder])) != Due(Step(w, action), user)
    ensures OnlyFinishes(rest) && Broken(w, Run(w, [action] + rest), user)
  {
    rest := [Commit(holder), Write(holder)];
    OnlyCommitsLeaveUnwritten(w, action, user);
    RunOne(w, action);
    RunOn(w, [action], rest);
    HolderFinishes(Step(w, action), holder, user);
  }

  lemma DisagreementCanBreak(w: World, action: Action, holder: nat, user: User) returns (rest: seq<Action>)
    requires Valid(w) && Brought(w, action, user).Some?
    requires holder in w.tasks && Disagrees(w.tasks[holder], user, Brought(w, action, user).value)
    ensures OnlyFinishes(rest) && Broken(w, Run(w, [action] + rest), user)
  {
    if action.Commit? {
      rest := CommitCanBreak(w, action.id, holder, user);
    } else {
      BroughtIn(w, action, user);
      rest := HolderCanBreak(w, action, holder, user);
    }
  }

  /** A row inserted under another cached language is wrong at once. */
  lemma InsertBreaks(w: World, action: Action, user: User)
    requires Valid(w) && OwnInsert(w, action, user) && user in w.cache && w.cache[user] != DEFAULT
    ensures Broken(w, Run(w, [action] + []), user)
  {
    BroughtIn(w, action, user);
    OnlyCommitsLeaveUnwritten(w, action, user);
    RunOne(w, action);
    assert [action] + [] == [action];
  }

  /** Every clash can go wrong for good: some order of the remaining steps leaves the wrong language in the cache. */
  lemma ClashCanBreak(w: World, action: Action, user: User) returns (rest: seq<Action>)
    requires Valid(w) && Clash(w, action, user)
    ensures OnlyFinishes(rest) && Broken(w, Run(w, [action] + rest), user)
  {
    if HearsEmpty(w, action, user) {
      EmptyFallsOut(w, action, user);
      rest := HolderCanBreak(w, action, action.id, user);
    } else if exists id :: id in w.tasks && Brought(w, action, user).Some? && Disagrees(w.tasks[id], user, Brought(w, action, user).value) {
      var holder :| holder in w.tasks && Disagrees(w.tasks[holder], user, Brought(w, action, user).value);
      rest := DisagreementCanBreak(w, action, holder, user);
    } else {
      rest := [];
      InsertBreaks(w, action, user);
    }
  }

  /** A process that has just started, over the rows that are there. */
  function Started(db: map<User, string>): World {
    World([db], map[], map[], map[])
  }

  /** So from any start, for every user, with or without a row. */
  lemma InStepFromTheStart(db: map<User, string>, actions: seq<Action>, user: User)
    ensures InStepThroughout(Started(db), actions, user) <==> NoClash(Started(db), actions, user)
  {
    assert InStep(Started(db), user);
    InStepExactlyWhenNoClash(Started(db), actions, user);
  }

  /** The slow call begins and is answered, then the change; both now have only their writes to do. */
  function BothHear(slow: Action, user: User, lang: Option<string>): seq<Action> {
    [slow, Database(0)] + [BeginSet(1, user, lang), Database(1)]
  }

  /** The slow call: a read, or a change to the language the row already has. */
  predicate Slow(slow: Action, db: map<User, string>, user: User)
    requires user in db
  {
    match slow
    case BeginRead(id, u, _) => id == 0 && u == user
    case BeginSet(id, u, asked) => id == 0 && u == user && Spelling(Normalize(asked)) == db[user]
    case _ => false
  }

  /** The task a beginning call becomes. */
  function Begun(begin: Action, since: nat): Task
    requires begin.BeginRead? || begin.BeginSet?
  {
    if begin.BeginRead? then Read(begin.user, begin.fallback, since, Asking) else Change(begin.user, begin.lang, since, Asking)
  }

  /** A call that is not served from the cache begins and hears what the row says. */
  lemma BeginsAndHears(w: World, begin: Action)
    requires Valid(w) && (begin.BeginRead? || begin.BeginSet?) && begin.id !in w.tasks
    requires begin.BeginRead? ==> begin.user !in w.cache
    ensures Run(w, [begin, Database(begin.id)])
         == w.(tasks := w.tasks[begin.id := Advance(Begun(begin, |w.versions| - 1), Heard(Row(Table(w), begin.user)))])
  {
    RunTwo(w, begin, Database(begin.id));
    var w1 := Step(w, begin);
    assert w1.versions == w.versions && w1.tasks[begin.id] == Begun(begin, |w.versions| - 1);
    assert Step(w1, Database(begin.id)).tasks
        == w.tasks[begin.id := Advance(Begun(begin, |w.versions| - 1), Heard(Row(Table(w), begin.user)))];
  }

  lemma SlowHolds(db: map<User, string>, slow: Action, user: User, since: nat)
    requires user in db && db[user] != "" && Slow(slow, db, user)
    ensures var task := Advance(Begun(slow, since), Heard(Some(db[user])));
            Holding(task, user) && Language(task) == Normalize(Some(db[user]))
  {
    if slow.BeginSet? {
      SpellingNormal(Normalize(slow.lang));
    }
  }

  lemma BothHold(db: map<User, string>, slow: Action, user: User, lang: Option<string>)
    requires user in db && db[user] != "" && Slow(slow, db, user)
    requires Normalize(Some(db[user])) != Normalize(lang)
    ensures var w := Run(Started(db), BothHear(slow, user, lang));
            && 0 in w.tasks && 1 in w.tasks
            && OwnCommit(w, Commit(1), user) && Disagrees(w.tasks[0], user, Language(w.tasks[1]))
            && Language(w.tasks[0]) == Normalize(Some(db[user])) && Language(w.tasks[1]) == Normalize(lang)
  {
    var start := Started(db);
    BeginsAndHears(start, slow);
    var w := Run(start, [slow, Database(0)]);
    BeginsAndHears(w, BeginSet(1, user, lang));
    RunOn(start, [slow, Database(0)], [BeginSet(1, user, lang), Database(1)]);
    SlowHolds(db, slow, user, 0);
    SpellingNormal(Normalize(lang));
  }

  /**
   From any start, for any user with a row and any change to another language:
   a slow read, or a slow change to the language the row already has, leaves the
   old language in the cache with both calls over and the row changed.
   */
  lemma StaleRun(db: map<User, string>, slow: Action, user: User, lang: Option<string>)
    requires user in db && db[user] != "" && Slow(slow, db, user)
    requires Normalize(Some(db[user])) != Normalize(lang)
    ensures var w := Run(Started(db), BothHear(slow, user, lang) + BreakingOrder(1, 0));
            && Row(Table(w), user) == Some(Spelling(Normalize(lang)))
            && user in w.cache && w.cache[user] == Normalize(Some(db[user]))
            && 0 in w.tasks && w.tasks[0].at.Wrote? && 1 in w.tasks && w.tasks[1].at.Wrote?
            && Weak(w) && InStep(Started(db), user)
  {
    BothHold(db, slow, user, lang);
    HeldBreaks(Started(db), BothHear(slow, user, lang), user);
  }

  lemma HeldBreaks(start: World, first: seq<Action>, user: User)
    requires Weak(start)
    requires var w := Run(start, first);
             0 in w.tasks && 1 in w.tasks && OwnCommit(w, Commit(1), user) && Disagrees(w.tasks[0], user, Language(w.tasks[1]))
    ensures var w, w' := Run(start, first), Run(start, first + BreakingOrder(1, 0));
            && Weak(w') && user in Table(w') && Table(w')[user] == Spelling(Language(w.tasks[1]))
            && user in w'.cache && w'.cache[user] == Language(w.tasks[0])
            && 0 in w'.tasks && w'.tasks[0].at.Wrote? && 1 in w'.tasks && w'.tasks[1].at.Wrote?
  {
    RunOn(start, first, BreakingOrder(1, 0));
    HolderBreaks(Run(start, first), 1, 0, user);
    WeakInEveryRun(start, first + BreakingOrder(1, 0));
  }

  // ------------------------------------------------------------ whole calls again

  /** The steps as a state; the current language is per caller and no part of the world. */
  function Now(w: World, current: Lang): State
    requires Valid(w)
  {
    State(Table(w), w.cache, current)
  }

  /** All the steps of one call in a row. */
  function WholeCall(begin: Action): seq<Action>
    requires begin.BeginRead? || begin.BeginSet?
  {
    [begin, Database(begin.id)] + [Commit(begin.id), Write(begin.id)]
  }

  lemma HeardCommits(w: World, id: nat, user: User, lang: Option<string>)
    requires Valid(w) && id in w.tasks && w.tasks[id].Change? && w.tasks[id].at == Heard(Row(Table(w), user))
    requires w.tasks[id].user == user && w.tasks[id].asked == lang
    ensures var w1 := Step(w, Commit(id));
            && Valid(w1) && w1.cache == w.cache && id in w1.tasks && Ready(w1.tasks[id])
            && w1.tasks[id].user == user && Language(w1.tasks[id]) == Normalize(lang)
            && Table(w1) == if user in Table(w) then Table(w)[user := Spelling(Normalize(lang))] else Table(w)
  {
    assert Language(w.tasks[id]) == Normalize(lang);
  }

  /** A change that has heard writes the row, if need be, and the cache. */
  lemma ChangeFinishes(w: World, id: nat, user: User, lang: Option<string>)
    requires Valid(w) && id in w.tasks && w.tasks[id].Change? && w.tasks[id].at == Heard(Row(Table(w), user))
    requires w.tasks[id].user == user && w.tasks[id].asked == lang
    ensures var w' := Run(w, [Commit(id), Write(id)]);
            && Table(w') == (if user in Table(w) then Table(w)[user := Spelling(Normalize(lang))] else Table(w))
            && w'.cache == w.cache[user := Normalize(lang)]
  {
    RunTwo(w, Commit(id), Write(id));
    HeardCommits(w, id, user, lang);
    ReadyWrites(Step(w, Commit(id)), id);
  }

  /** A change that nothing interrupts does what the method does. */
  lemma WholeChangeIsCall(w: World, id: nat, user: User, lang: Option<string>, current: Lang)
    requires Valid(w) && id !in w.tasks
    ensures Now(Run(w, WholeCall(BeginSet(id, user, lang))), Normalize(lang)) == Apply(Now(w, current), SetLanguage(user, lang, false))
  {
    var begin := BeginSet(id, user, lang);
    RunOn(w, [begin, Database(id)], [Commit(id), Write(id)]);
    BeginsAndHears(w, begin);
    var w2 := Run(w, [begin, Database(id)]);
    assert Table(w2) == Table(w) && w2.cache == w.cache;
    ChangeFinishes(w2, id, user, lang);
  }

  /** And so does a read, whether the cache answers it or the row. */
  lemma WholeReadIsCall(w: World, id: nat, user: User, fallback: Option<string>, current: Lang)
    requires Valid(w) && id !in w.tasks
    ensures Now(Run(w, WholeCall(BeginRead(id, user, fallback))), current) == Apply(Now(w, current), LanguageOf(user, fallback, false))
  {
    var begin := BeginRead(id, user, fallback);
    RunOn(w, [begin, Database(id)], [Commit(id), Write(id)]);
    if user in w.cache {
      ServedDoesNothing(w, id, user, fallback);
    } else {
      BeginsAndHears(w, begin);
      ReadFinishes(Run(w, [begin, Database(id)]), id, user, fallback);
    }
  }

  lemma ServedDoesNothing(w: World, id: nat, user: User, fallback: Option<string>)
    requires Valid(w) && id !in w.tasks && user in w.cache
    ensures var w' := Run(Run(w, [BeginRead(id, user, fallback), Database(id)]), [Commit(id), Write(id)]);
            w'.versions == w.versions && w'.cache == w.cache
  {
    RunTwo(w, BeginRead(id, user, fallback), Database(id));
    var w1 := Step(w, BeginRead(id, user, fallback));
    assert Step(w1, Database(id)) == w1;
    RunTwo(w1, Commit(id), Write(id));
  }

  lemma ReadFinishes(w: World, id: nat, user: User, fallback: Option<string>)
    requires Valid(w) && id in w.tasks && w.tasks[id].Read? && w.tasks[id].at == Heard(Row(Table(w), user))
    requires w.tasks[id].user == user && w.tasks[id].fallback == fallback
    ensures var w' := Run(w, [Commit(id), Write(id)]);
            w'.versions == w.versions && w'.cache == w.cache[user := Resolve(Row(Table(w), user), fallback)]
  {
    RunTwo(w, Commit(id), Write(id));
    assert Step(w, Commit(id)) == w;
  }
}
