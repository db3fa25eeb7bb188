/** The few string operations of Python that the modelled code is built on. */
module Text {

  /** `str.isspace` for one character. */
  predicate IsSpace(c: char) {
    || '\t' <= c <= '\r'
    || '\U{001C}' <= c <= ' '
    || c == '\U{0085}' || c == '\U{00A0}' || c == '\U{1680}'
    || '\U{2000}' <= c <= '\U{200A}'
    || c == '\U{2028}' || c == '\U{2029}' || c == '\U{202F}' || c == '\U{205F}' || c == '\U{3000}'
  }

  /** The first index from `i` on that holds no space, or the length. */
  function SkipSpace(s: string, i: nat): (r: nat)
    requires i <= |s|
    ensures i <= r <= |s|
    decreases |s| - i
  {
    if i < |s| && IsSpace(s[i]) then SkipSpace(s, i + 1) else i
  }

  /** The end, not before `i`, of what is left of the first `n` characters without trailing spaces. */
  function TrimEnd(s: string, i: nat, n: nat): (r: nat)
    requires i <= n <= |s|
    ensures i <= r <= n
  {
    if i < n && IsSpace(s[n - 1]) then TrimEnd(s, i, n - 1) else n
  }

  /** `str.strip()` */
  function Strip(s: string): string {
    var i := SkipSpace(s, 0);
    s[i..TrimEnd(s, i, |s|)]
  }

  lemma {:induction false} SkipsSpace(s: string, i: nat, n: nat)
    requires i <= n < |s| && !IsSpace(s[n]) && forall k :: i <= k < n ==> IsSpace(s[k])
    ensures SkipSpace(s, i) == n
    decreases n - i
  {
    if i == n {
      assert SkipSpace(s, i) == i;
    } else {
      SkipsSpace(s, i + 1, n);
    }
  }

  lemma {:induction false} TrimStops(s: string, i: nat, n: nat, k: nat)
    requires i <= k < n <= |s| && !IsSpace(s[k])
    ensures k < TrimEnd(s, i, n)
  {
    if n - 1 == k {
      assert TrimEnd(s, i, n) == n;
    } else {
      TrimStops(s, i, n - 1, k);
    }
  }

  ghost predicate Tight(s: string) {
    s != [] ==> !IsSpace(s[0]) && !IsSpace(s[|s| - 1])
  }

  lemma StripTight(s: string)
    requires Tight(s)
    ensures Strip(s) == s
  {
  }

  lemma {:induction false} TrimsSpace(s: string, i: nat, n: nat, k: nat)
    requires i <= k <= n <= |s| && (k == i || !IsSpace(s[k - 1])) && forall j :: k <= j < n ==> IsSpace(s[j])
    ensures TrimEnd(s, i, n) == k
    decreases n - k
  {
    if n == k {
      assert TrimEnd(s, i, n) == n;
    } else {
      TrimsSpace(s, i, n - 1, k);
    }
  }

  ghost predicate Padding(s: string) {
    forall i :: 0 <= i < |s| ==> s[i] in {' ', '\t', '\n', '\r', '\U{000B}', '\U{000C}', '\U{00A0}', '\U{2003}', '\U{3000}'}
  }

  /** Space of these kinds goes from both ends, and nothing else. */
  lemma StripPadded(before: string, s: string, after: string)
    requires Padding(before) && Padding(after) && s != [] && Tight(s)
    ensures Strip(before + s + after) == s
  {
    var text := before + s + after;
    assert forall k :: 0 <= k < |before| ==> text[k] == before[k];
    assert forall k :: 0 <= k < |s| ==> text[|before| + k] == s[k];
    assert forall k :: |before| + |s| <= k < |text| ==> text[k] == after[k - |before| - |s|];
    SkipsSpace(text, 0, |before|);
    TrimsSpace(text, |before|, |text|, |before| + |s|);
    assert text[|before|..|before| + |s|] == s;
  }

  /** Where `c` first stands in `s` from `i` on, or the length of `s` when it does not. */
  function IndexFrom(s: string, c: char, i: nat): (r: nat)
    requires i <= |s|
    ensures i <= r <= |s| && (r < |s| ==> s[r] == c)
    decreases |s| - i
  {
    if i == |s| || s[i] == c then i else IndexFrom(s, c, i + 1)
  }

  function IndexOf(s: string, c: char): (r: nat)
    ensures r <= |s| && (r < |s| ==> s[r] == c)
  {
    IndexFrom(s, c, 0)
  }

  lemma {:induction false} IndexFromSkips(s: string, c: char, i: nat)
    requires i <= |s|
    ensures forall k :: i <= k < IndexFrom(s, c, i) ==> s[k] != c
    decreases |s| - i
  {
    if i == |s| || s[i] == c {
    } else {
      IndexFromSkips(s, c, i + 1);
    }
  }

  lemma IndexSkips(s: string, c: char)
    ensures c !in s[..IndexOf(s, c)]
    ensures forall k :: 0 <= k < IndexOf(s, c) ==> s[k] != c
  {
    IndexFromSkips(s, c, 0);
  }

  lemma IndexFirst(head: string, c: char, tail: string)
    requires c !in head && (tail == [] || tail[0] == c)
    ensures IndexOf(head + tail, c) == |head|
  {
    var s := head + tail;
    IndexFromSkips(s, c, 0);
    assert forall k :: 0 <= k < |head| ==> s[k] == head[k];
    assert tail != [] ==> s[|head|] == c;
  }

  lemma IndexIn(s: string, c: char)
    ensures IndexOf(s, c) < |s| <==> c in s
  {
    IndexFromSkips(s, c, 0);
  }

  /** `str.replace` of one character by another. */
  function Replace(s: string, a: char, b: char): string {
    seq(|s|, i requires 0 <= i < |s| => if s[i] == a then b else s[i])
  }

  /** `str.replace(c, "")` */
  function Remove(s: string, c: char): (r: string)
    ensures c !in r
    ensures forall x :: x in r ==> x in s
  {
    if s == [] then [] else if s[0] == c then Remove(s[1..], c) else [s[0]] + Remove(s[1..], c)
  }

  lemma RemoveConcat(a: string, b: string, c: char)
    ensures Remove(a + b, c) == Remove(a, c) + Remove(b, c)
  {
    if a == [] {
      assert a + b == b;
    } else {
      assert (a + b)[1..] == a[1..] + b;
    }
  }

  lemma RemoveAbsent(s: string, c: char)
    requires c !in s
    ensures Remove(s, c) == s
  {
  }

  /** ASCII `str.lower()` */
  function LowerChar(c: char): char {
    if 'A' <= c <= 'Z' then (c as int + 32) as char else c
  }

  function Lower(s: string): string {
    seq(|s|, i requires 0 <= i < |s| => LowerChar(s[i]))
  }

  lemma LowerTwice(s: string)
    ensures Lower(Lower(s)) == Lower(s)
  {
  }

  // ----------------------------------------------------------- decimal numerals

  predicate IsDigit(c: char) {
    '0' <= c <= '9'
  }

  predicate AllDigits(s: string) {
    forall i :: 0 <= i < |s| ==> IsDigit(s[i])
  }

  function DigitChar(d: nat): char
    requires d < 10
  {
    ('0' as int + d) as char
  }

  /** The decimal numeral of a natural number. */
  function Decimal(n: nat): (s: string)
    ensures s != [] && AllDigits(s)
  {
    if n < 10 then [DigitChar(n)] else Decimal(n / 10) + [DigitChar(n % 10)]
  }

  /** The number a run of digits stands for. */
  function NumberOf(s: string): nat
    requires AllDigits(s)
  {
    if s == [] then 0
    else 10 * NumberOf(s[..|s| - 1]) + (s[|s| - 1] as int - '0' as int)
  }

  lemma {:induction false} NumeralRoundTrip(n: nat)
    ensures NumberOf(Decimal(n)) == n
  {
    if n < 10 {
    } else {
      NumeralRoundTrip(n / 10);
      var s := Decimal(n);
      assert s[..|s| - 1] == Decimal(n / 10);
    }
  }
}
