/**
 Rewriting the price section of the sales page between two marker comments
 (tools/site.py). The generated block is a parameter; what matters of it is
 where the markers stand in it.
 */
module SiteSplice {

  const START := "<!-- تعرفه: ساخته‌ی tools/site.py — دستی عوضش نکنید -->"
  const END := "<!-- پایان تعرفه -->"

  // --------------------------------------------------------------- first occurrence

  predicate IsAt(s: string, i: nat, pattern: string) {
    i + |pattern| <= |s| && s[i..i + |pattern|] == pattern
  }

  ghost predicate FirstAt(s: string, i: nat, pattern: string) {
    IsAt(s, i, pattern) && forall j :: 0 <= j < i ==> !IsAt(s, j, pattern)
  }

  ghost predicate Absent(s: string, pattern: string) {
    forall j :: 0 <= j <= |s| ==> !IsAt(s, j, pattern)
  }

  /** `str.find` from `i` on. */
  function FindFrom(s: string, pattern: string, i: nat): (r: int)
    requires i <= |s|
    ensures r == -1 || (i <= r && IsAt(s, r, pattern))
    decreases |s| - i
  {
    if IsAt(s, i, pattern) then i else if i == |s| then -1 else FindFrom(s, pattern, i + 1)
  }

  function Find(s: string, pattern: string): (r: int)
    ensures r == -1 || (0 <= r && IsAt(s, r, pattern))
  {
    FindFrom(s, pattern, 0)
  }

  lemma {:induction false} FindFromFirst(s: string, pattern: string, i: nat)
    requires i <= |s|
    ensures var r := FindFrom(s, pattern, i);
            forall j :: i <= j && (r == -1 ==> j <= |s|) && (r >= 0 ==> j < r) ==> !IsAt(s, j, pattern)
    decreases |s| - i
  {
    if IsAt(s, i, pattern) || i == |s| {
    } else {
      FindFromFirst(s, pattern, i + 1);
    }
  }

  /** The search finds the first occurrence, and misses none. */
  lemma FindIsFirst(s: string, pattern: string)
    ensures if Find(s, pattern) == -1 then Absent(s, pattern) else FirstAt(s, Find(s, pattern), pattern)
  {
    FindFromFirst(s, pattern, 0);
  }

  lemma FoundUnlessAbsent(s: string, pattern: string)
    ensures Find(s, pattern) == -1 <==> Absent(s, pattern)
  {
    FindIsFirst(s, pattern);
    assert Find(s, pattern) != -1 ==> IsAt(s, Find(s, pattern), pattern);
  }

  lemma FindFirst(s: string, pattern: string, i: nat)
    requires FirstAt(s, i, pattern)
    ensures Find(s, pattern) == i
  {
    FindIsFirst(s, pattern);
    assert i <= |s|;
  }

  // --------------------------------------------------------------------- the splice

  datatype Rewritten =
    | Fresh(text: string)
    | NoMarkers   // exit code 2
    | UnpackError // END stands only before START, and the split has one part

  function Rewrite(text: string, block: string, start: string, end: string): Rewritten {
    var s := Find(text, start);
    if s == -1 || Find(text, end) == -1 then NoMarkers
    else
      var rest := text[s + |start|..];
      var e := Find(rest, end);
      if e == -1 then UnpackError else Fresh(text[..s] + block + rest[e + |end|..])
  }

  datatype Exit = Done | Stale | Broken | Crashed

  /** The two splits and the joining of what is left. */
  method Splice(text: string, block: string, start: string, end: string) returns (rewritten: Rewritten)
    ensures rewritten == Rewrite(text, block, start, end)
  {
    var s := Find(text, start);
    if s == -1 || Find(text, end) == -1 {
      return NoMarkers;
    }
    var head, rest := text[..s], text[s + |start|..];
    var e := Find(rest, end);
    if e == -1 {
      return UnpackError;
    }
    return Fresh(head + block + rest[e + |end|..]);
  }

  class Page {
    var text: string

    constructor (text: string)
      ensures this.text == text
    {
      this.text := text;
    }

    /** `python tools/site.py`, or with `--check` only the comparison. */
    method Update(block: string, check: bool) returns (exit: Exit)
      modifies this
      ensures match Rewrite(old(text), block, START, END)
              case NoMarkers => exit == Broken && text == old(text)
              case UnpackError => exit == Crashed && text == old(text)
              case Fresh(spliced) =>
                if check then text == old(text) && exit == (if spliced == old(text) then Done else Stale)
                else text == spliced && exit == Done
    {
      var rewritten := Splice(text, block, START, END);
      match rewritten {
        case NoMarkers => return Broken;
        case UnpackError => return Crashed;
        case Fresh(spliced) =>
          if check {
            return if spliced == text then Done else Stale;
          }
          text := spliced;
          return Done;
      }
    }
  }

  /** A page in the form the splice needs: the first start marker, then the first end marker after it. */
  ghost predicate Marked(text: string, head: string, inner: string, tail: string, start: string, end: string) {
    && text == head + (start + (inner + (end + tail)))
    && FirstAt(text, |head|, start)
    && FirstAt(inner + (end + tail), |inner|, end)
  }

  /** A generated block holds the markers at its ends, and no earlier end marker. */
  ghost predicate MarkedBlock(block: string, inner: string, start: string, end: string) {
    block == start + (inner + end) && FirstAt(inner + end, |inner|, end)
  }

  lemma AtInPrefix(a: string, b: string, i: nat, pattern: string)
    requires i + |pattern| <= |a|
    ensures IsAt(a + b, i, pattern) <==> IsAt(a, i, pattern)
  {
  }

  lemma AtInSuffix(a: string, b: string, i: nat, pattern: string)
    ensures IsAt(a + b, |a| + i, pattern) <==> IsAt(b, i, pattern)
  {
  }

  /** Whether the first occurrence is where it is does not depend on what follows it. */
  lemma FirstInPrefix(a: string, b: string, i: nat, pattern: string)
    requires i + |pattern| <= |a|
    ensures FirstAt(a + b, i, pattern) <==> FirstAt(a, i, pattern)
  {
    AtInPrefix(a, b, i, pattern);
    forall j | 0 <= j < i ensures IsAt(a + b, j, pattern) <==> IsAt(a, j, pattern) {
      AtInPrefix(a, b, j, pattern);
    }
  }

  /** Which pages are rewritten, and into what: text before and after the markers is kept as it is. */
  lemma RewriteMarked(text: string, head: string, inner: string, tail: string, block: string, start: string, end: string)
    requires Marked(text, head, inner, tail, start, end)
    ensures Rewrite(text, block, start, end) == Fresh(head + block + tail)
  {
    var rest := inner + (end + tail);
    FindFirst(text, start, |head|);
    assert text == (head + start) + rest;
    assert text[|head| + |start|..] == rest && text[..|head|] == head;
    FindFirst(rest, end, |inner|);
    assert rest == (inner + end) + tail;
    assert rest[|inner| + |end|..] == tail;
    AtInSuffix(head + start, rest, |inner|, end);
    FindIsFirst(text, end);
  }

  /** Conversely only such pages are. */
  lemma RewrittenIsMarked(text: string, block: string, start: string, end: string) returns (head: string, inner: string, tail: string)
    requires Rewrite(text, block, start, end).Fresh?
    ensures Marked(text, head, inner, tail, start, end)
  {
    var s := Find(text, start);
    FindIsFirst(text, start);
    var rest := text[s + |start|..];
    var e := Find(rest, end);
    FindIsFirst(rest, end);
    head, inner, tail := text[..s], rest[..e], rest[e + |end|..];
    CutAround(rest, e, end);
    CutAround(text, s, start);
  }

  lemma RefusedBySearch(text: string, block: string, start: string, end: string)
    ensures var s := Find(text, start);
            && (Rewrite(text, block, start, end).NoMarkers? <==> s == -1 || Find(text, end) == -1)
            && (Rewrite(text, block, start, end).UnpackError? <==>
                  s != -1 && Find(text, end) != -1 && Find(text[s + |start|..], end) == -1)
  {
  }

  /** And why a page is refused: a marker is missing, or the end marker stands only before the first start marker. */
  lemma RefusedExactlyWhen(text: string, block: string, start: string, end: string)
    ensures Rewrite(text, block, start, end).NoMarkers? <==> Absent(text, start) || Absent(text, end)
    ensures Rewrite(text, block, start, end).UnpackError? <==>
              !Absent(text, end) && exists i :: 0 <= i && FirstAt(text, i, start) && Absent(text[i + |start|..], end)
  {
    RefusedBySearch(text, block, start, end);
    FoundUnlessAbsent(text, start);
    FoundUnlessAbsent(text, end);
    var s := Find(text, start);
    if s != -1 {
      FindIsFirst(text, start);
      FoundUnlessAbsent(text[s + |start|..], end);
      forall i | 0 <= i && FirstAt(text, i, start) ensures i == s {
        FindFirst(text, start, i);
      }
    }
  }

  lemma CutAround(s: string, i: nat, pattern: string)
    requires IsAt(s, i, pattern)
    ensures s == s[..i] + (pattern + s[i + |pattern|..])
  {
  }

  /** A rewritten page is again in that form, with the same head and tail. */
  lemma RewritingKeepsForm(text: string, head: string, inner: string, tail: string,
                           block: string, made: string, start: string, end: string)
    requires Marked(text, head, inner, tail, start, end) && MarkedBlock(block, made, start, end)
    ensures Marked(head + block + tail, head, made, tail, start, end)
  {
    var after := made + (end + tail);
    var page := head + block + tail;
    assert page == (head + start) + after;
    assert page == head + (start + after);
    assert text == (head + start) + (inner + (end + tail));
    FirstInPrefix(head + start, inner + (end + tail), |head|, start);
    FirstInPrefix(head + start, after, |head|, start);
    assert after == (made + end) + tail;
    FirstInPrefix(made + end, tail, |made|, end);
  }

  /**
   A later run forgets an earlier one: for every page, rewriting with one block
   and then with another is rewriting with the other. With the same block twice,
   the second run and `--check` find nothing to change.
   */
  lemma LastRunWins(text: string, first: string, inner: string, second: string, start: string, end: string)
    requires MarkedBlock(first, inner, start, end)
    requires Rewrite(text, first, start, end).Fresh?
    ensures Rewrite(Rewrite(text, first, start, end).text, second, start, end) == Rewrite(text, second, start, end)
  {
    var head, old', tail := RewrittenIsMarked(text, first, start, end);
    RewriteMarked(text, head, old', tail, first, start, end);
    RewriteMarked(text, head, old', tail, second, start, end);
    RewritingKeepsForm(text, head, old', tail, first, inner, start, end);
    RewriteMarked(head + first + tail, head, inner, tail, second, start, end);
  }

  // ------------------------------------------------------------------ the two markers

  /** No proper suffix of the marker is also a prefix of it. */
  ghost predicate NoBorder(pattern: string) {
    forall k :: 0 < k < |pattern| ==> pattern[k..] != pattern[..|pattern| - k]
  }

  /** Without self-overlap an end marker after text free of it is the first one. */
  lemma FirstAfterFreeText(inner: string, end: string)
    requires NoBorder(end) && Absent(inner, end)
    ensures FirstAt(inner + end, |inner|, end)
  {
    AtInSuffix(inner, end, 0, end);
    forall j | 0 <= j < |inner| ensures !IsAt(inner + end, j, end) {
      if j + |end| <= |inner| {
        AtInPrefix(inner, end, j, end);
      } else {
        var k := |inner| - j;
        var s := inner + end;
        assert s[j..j + |end|][k..] == end[..|end| - k];
      }
    }
  }

  /** A marker that opens with a character it does not repeat cannot overlap itself. */
  lemma OpeningIsUnique(pattern: string)
    requires pattern != [] && forall i :: 0 < i < |pattern| ==> pattern[i] != pattern[0]
    ensures NoBorder(pattern)
  {
    forall k | 0 < k < |pattern| ensures pattern[k..] != pattern[..|pattern| - k] {
      assert pattern[k..][0] != pattern[..|pattern| - k][0];
    }
  }

  lemma EndMarkerHasNoBorder()
    ensures NoBorder(END)
  {
    OpeningIsUnique(END);
  }

  /**
   The tool as shipped: for every block between the two markers whose inside is
   free of the end marker, and every page it accepts, a second run changes
   nothing and `--check` reports the page up to date.
   */
  lemma SecondRunChangesNothing(text: string, inner: string)
    requires Absent(inner, END)
    requires Rewrite(text, START + (inner + END), START, END).Fresh?
    ensures var block := START + (inner + END);
            var spliced := Rewrite(text, block, START, END).text;
            Rewrite(spliced, block, START, END) == Fresh(spliced)
  {
    EndMarkerHasNoBorder();
    FirstAfterFreeText(inner, END);
    LastRunWins(text, START + (inner + END), inner, START + (inner + END), START, END);
  }
}
