/**
 The number printers of telkap/texts.py, telkap/plans.py and telkap/i18n.py
 against the parser of telkap/handlers/common.py.
 */
module Numbers {
  import opened Text
  import opened Langs

  const PERSIAN_COMMA := '\U{060C}'
  const ARABIC_SEPARATOR := '\U{066C}'
  const PERSIAN_ZERO := '\U{06F0}'
  const ARABIC_ZERO := '\U{0660}'

  // ------------------------------------------------------------------- printing

  /** Inserts `sep` before every third digit, counted from the right. */
  function Group(digits: string, sep: char): string {
    if |digits| <= 3 then digits
    else Group(digits[..|digits| - 3], sep) + [sep] + digits[|digits| - 3..]
  }

  function Abs(n: int): nat {
    if n < 0 then -n else n
  }

  function Sign(n: int): string {
    if n < 0 then "-" else ""
  }

  /** `f"{n:,}"` */
  function Comma(n: int): string {
    Sign(n) + Group(Decimal(Abs(n)), ',')
  }

  function DigitTo(c: char, zero: char): char
    requires zero == PERSIAN_ZERO || zero == ARABIC_ZERO
  {
    if IsDigit(c) then (zero as int + (c as int - '0' as int)) as char else c
  }

  /** `str.translate` from ASCII digits to the ten digits starting at `zero`. */
  function Translate(s: string, zero: char): string
    requires zero == PERSIAN_ZERO || zero == ARABIC_ZERO
  {
    seq(|s|, i requires 0 <= i < |s| => DigitTo(s[i], zero))
  }

  /** `fa_num` and, letter for letter, `_fa`. */
  function FaNum(n: int): string {
    Translate(Replace(Comma(n), ',', PERSIAN_COMMA), PERSIAN_ZERO)
  }

  /** `GROUP_SEP.get(code, ",")` */
  function GroupSep(lang: Lang): char {
    match lang
    case Fa => PERSIAN_COMMA
    case Ar => ARABIC_SEPARATOR
    case Ru | Uz => ' '
    case Tr | Pt | Id => '.'
    case En | Hi => ','
  }

  function Num(n: int, lang: Lang): string {
    var text := Replace(Comma(n), ',', GroupSep(lang));
    if lang == Fa then Translate(text, PERSIAN_ZERO)
    else if lang == Ar then Translate(text, ARABIC_ZERO)
    else text
  }

  // -------------------------------------------------------------------- parsing

  datatype Parsed = Number(n: int) | NotANumber | ValueError

  function DigitFrom(c: char): char {
    if PERSIAN_ZERO <= c <= '\U{06F9}' then DigitChar(c as int - PERSIAN_ZERO as int)
    else if ARABIC_ZERO <= c <= '\U{0669}' then DigitChar(c as int - ARABIC_ZERO as int)
    else c
  }

  function ToAscii(s: string): string {
    seq(|s|, i requires 0 <= i < |s| => DigitFrom(s[i]))
  }

  function Clean(raw: string): string {
    Remove(Remove(Strip(ToAscii(raw)), ','), PERSIAN_COMMA)
  }

  /** `lstrip("-")` */
  function DropDashes(s: string): (r: string)
    ensures |r| <= |s| && r == s[|s| - |r|..]
    ensures r != [] ==> r[0] != '-'
  {
    if s != [] && s[0] == '-' then DropDashes(s[1..]) else s
  }

  function ParseInt(raw: string): Parsed {
    var cleaned := Clean(raw);
    var body := DropDashes(cleaned);
    if body == [] || !AllDigits(body) then NotANumber
    else if |cleaned| - |body| > 1 then ValueError // int("--5")
    else Number(if |cleaned| == |body| then NumberOf(body) as int else 0 - NumberOf(body))
  }

  // ------------------------------------------------------------------- grouping

  lemma FromTheRight(front: string, sep: char, back: string, i: nat)
    requires |back| == 3 && i < |front| + 4
    ensures var s := front + [sep] + back;
            s[|s| - 1 - i] == if i < 3 then back[2 - i] else if i == 3 then sep else front[|front| - 1 - (i - 4)]
  {
  }

  /** What grouping puts at index `i`, counted from the right. */
  function GroupedAt(digits: string, sep: char, i: nat): char
    requires i - i / 4 < |digits|
  {
    if i % 4 == 3 then sep else digits[|digits| - 1 - (i - i / 4)]
  }

  lemma LastFour(digits: string, sep: char, i: nat)
    requires |digits| > 3 && i < 4
    ensures i - i / 4 < |digits|
    ensures GroupedAt(digits, sep, i) == if i < 3 then digits[|digits| - 3..][2 - i] else sep
  {
  }

  lemma FourFurther(digits: string, sep: char, i: nat)
    requires |digits| > 3 && i >= 4 && (i - 4) - (i - 4) / 4 < |digits| - 3
    ensures i - i / 4 < |digits|
    ensures GroupedAt(digits, sep, i) == GroupedAt(digits[..|digits| - 3], sep, i - 4)
  {
    var j := i - 4;
    assert i / 4 == j / 4 + 1 && i % 4 == j % 4;
  }

  /**
   What grouping means, index by index: counted from the right, every fourth
   character is the separator and the others are the digits in order.
   */
  lemma {:induction false} GroupShape(digits: string, sep: char, i: nat)
    requires digits != [] && i < |Group(digits, sep)|
    ensures i - i / 4 < |digits|
    ensures var s := Group(digits, sep); s[|s| - 1 - i] == GroupedAt(digits, sep, i)
    decreases |digits|
  {
    if |digits| <= 3 {
      assert Group(digits, sep) == digits;
    } else {
      var front, back := digits[..|digits| - 3], digits[|digits| - 3..];
      FromTheRight(Group(front, sep), sep, back, i);
      if i < 4 {
        LastFour(digits, sep, i);
      } else {
        GroupShape(front, sep, i - 4);
        FourFurther(digits, sep, i);
      }
    }
  }

  lemma {:induction false} GroupChars(digits: string, sep: char)
    requires AllDigits(digits)
    ensures var g := Group(digits, sep); forall i :: 0 <= i < |g| ==> IsDigit(g[i]) || g[i] == sep
    ensures |digits| > 3 ==> sep in Group(digits, sep)
    decreases |digits|
  {
    if |digits| <= 3 {
    } else {
      GroupChars(digits[..|digits| - 3], sep);
    }
  }

  lemma {:induction false} GroupReplaced(digits: string, sep: char)
    requires AllDigits(digits)
    ensures Replace(Group(digits, ','), ',', sep) == Group(digits, sep)
    decreases |digits|
  {
    if |digits| <= 3 {
    } else {
      var front, back := digits[..|digits| - 3], digits[|digits| - 3..];
      GroupReplaced(front, sep);
      assert Replace(Group(front, ',') + [','] + back, ',', sep)
          == Replace(Group(front, ','), ',', sep) + [sep] + back;
    }
  }

  lemma RemoveBetween(front: string, sep: char, back: string)
    ensures Remove(front + [sep] + back, sep) == Remove(front, sep) + Remove(back, sep)
  {
    RemoveConcat(front + [sep], back, sep);
    RemoveConcat(front, [sep], sep);
    assert Remove([sep], sep) == [];
  }

  lemma LastThree(digits: string)
    requires |digits| > 3
    ensures digits == digits[..|digits| - 3] + digits[|digits| - 3..]
  {
  }

  lemma {:induction false} GroupRemoved(digits: string, sep: char)
    requires AllDigits(digits) && !IsDigit(sep)
    ensures Remove(Group(digits, sep), sep) == digits
    decreases |digits|
  {
    if |digits| <= 3 {
      RemoveAbsent(digits, sep);
    } else {
      var front, back := digits[..|digits| - 3], digits[|digits| - 3..];
      GroupRemoved(front, sep);
      RemoveAbsent(back, sep);
      RemoveBetween(Group(front, sep), sep, back);
      LastThree(digits);
    }
  }

  lemma {:induction false} DecimalLength(n: nat)
    ensures |Decimal(n)| <= 3 <==> n < 1000
  {
    if n >= 10 {
      assert |Decimal(n)| == |Decimal(n / 10)| + 1;
      if n >= 100 {
        assert |Decimal(n / 10)| == |Decimal(n / 10 / 10)| + 1;
      }
    }
  }

  // ---------------------------------------------------------------- round trips

  /** What a printer of this language writes, before its digits are translated. */
  function Grouped(n: int, sep: char): string {
    Sign(n) + Group(Decimal(Abs(n)), sep)
  }

  lemma CommaReplaced(n: int, sep: char)
    ensures Replace(Comma(n), ',', sep) == Grouped(n, sep)
  {
    GroupReplaced(Decimal(Abs(n)), sep);
    assert Replace(Comma(n), ',', sep) == Replace(Sign(n), ',', sep) + Replace(Group(Decimal(Abs(n)), ','), ',', sep);
    assert Replace(Sign(n), ',', sep) == Sign(n);
  }

  lemma TranslatedBack(s: string, zero: char)
    requires zero == PERSIAN_ZERO || zero == ARABIC_ZERO
    requires ToAscii(s) == s
    ensures ToAscii(Translate(s, zero)) == s
  {
  }

  predicate Separator(c: char) {
    c == ',' || c == PERSIAN_COMMA || c == ARABIC_SEPARATOR || c == ' ' || c == '.'
  }

  /** The characters a numeral is grouped from: none is changed on the way back. */
  lemma GroupedAlphabet(n: int, sep: char)
    requires Separator(sep)
    ensures var s := Grouped(n, sep); forall i :: 0 <= i < |s| ==> IsDigit(s[i]) || s[i] == sep || s[i] == '-'
    ensures ToAscii(Grouped(n, sep)) == Grouped(n, sep)
  {
    GroupChars(Decimal(Abs(n)), sep);
    var s, g := Grouped(n, sep), Group(Decimal(Abs(n)), sep);
    forall i | 0 <= i < |s| ensures IsDigit(s[i]) || s[i] == sep || s[i] == '-' {
      if i >= |Sign(n)| {
        assert s[i] == g[i - |Sign(n)|];
      }
    }
  }

  lemma GroupedTight(n: int, sep: char)
    requires Separator(sep)
    ensures Strip(Grouped(n, sep)) == Grouped(n, sep)
  {
    var digits := Decimal(Abs(n));
    var s, g := Grouped(n, sep), Group(digits, sep);
    GroupStartsWithDigit(digits, sep);
    GroupShape(digits, sep, 0);
    assert s[|s| - 1] == g[|g| - 1] == digits[|digits| - 1];
    assert s[0] == if n < 0 then '-' else digits[0];
    StripTight(s);
  }

  lemma {:induction false} GroupLength(digits: string, sep: char)
    requires digits != []
    ensures |Group(digits, sep)| == |digits| + (|digits| - 1) / 3
    decreases |digits|
  {
    if |digits| <= 3 {
    } else {
      GroupLength(digits[..|digits| - 3], sep);
      assert (|digits| - 1) / 3 == (|digits| - 4) / 3 + 1;
    }
  }

  /** A character of a numeral as a language writes it. */
  function InScript(c: char, lang: Lang): char {
    if !IsDigit(c) then c else match lang case Fa => DigitTo(c, PERSIAN_ZERO) case Ar => DigitTo(c, ARABIC_ZERO) case _ => c
  }

  /** What every printer writes is the grouped numeral, digit by digit in its own script. */
  lemma PrintedFrom(n: int, lang: Lang)
    ensures |Num(n, lang)| == |Grouped(n, GroupSep(lang))|
    ensures forall k :: 0 <= k < |Num(n, lang)| ==> Num(n, lang)[k] == InScript(Grouped(n, GroupSep(lang))[k], lang)
  {
    CommaReplaced(n, GroupSep(lang));
  }

  lemma RightOf(front: string, back: string, i: nat)
    requires i < |back|
    ensures (front + back)[|front + back| - 1 - i] == back[|back| - 1 - i]
  {
  }

  lemma GroupedShape(n: int, sep: char, i: nat)
    requires i < |Group(Decimal(Abs(n)), sep)|
    ensures i - i / 4 < |Decimal(Abs(n))|
    ensures var s := Grouped(n, sep); i < |s| && s[|s| - 1 - i] == GroupedAt(Decimal(Abs(n)), sep, i)
  {
    GroupShape(Decimal(Abs(n)), sep, i);
    RightOf(Sign(n), Group(Decimal(Abs(n)), sep), i);
  }

  /** What is to be seen at index `i` from the right: after three digits the language's separator, else a digit in its script. */
  function ShownAt(digits: string, lang: Lang, i: nat): char
    requires AllDigits(digits) && i - i / 4 < |digits|
  {
    if i % 4 == 3 then
      match lang
      case Fa => '\U{060C}'
      case Ar => '\U{066C}'
      case Ru => ' '
      case Uz => ' '
      case Tr => '.'
      case Pt => '.'
      case Id => '.'
      case En => ','
      case Hi => ','
    else
      var value := digits[|digits| - 1 - (i - i / 4)] as int - '0' as int;
      match lang
      case Fa => (0x6F0 + value) as char
      case Ar => (0x660 + value) as char
      case _ => (0x30 + value) as char
  }

  lemma GroupedIsShown(digits: string, lang: Lang, i: nat)
    requires AllDigits(digits) && i - i / 4 < |digits|
    ensures InScript(GroupedAt(digits, GroupSep(lang), i), lang) == ShownAt(digits, lang, i)
  {
  }

  lemma InScriptRight(s: string, t: string, lang: Lang, i: nat)
    requires |t| == |s| && i < |s| && forall k :: 0 <= k < |t| ==> t[k] == InScript(s[k], lang)
    ensures t[|t| - 1 - i] == InScript(s[|s| - 1 - i], lang)
  {
  }

  lemma PrintedLength(n: int, lang: Lang)
    ensures var d := |Decimal(Abs(n))|; |Num(n, lang)| == d + (d - 1) / 3 + (if n < 0 then 1 else 0)
    ensures n < 0 ==> Num(n, lang)[0] == '-'
  {
    GroupLength(Decimal(Abs(n)), GroupSep(lang));
    PrintedFrom(n, lang);
    assert n < 0 ==> Grouped(n, GroupSep(lang))[0] == '-';
  }

  lemma PrintedInScript(n: int, lang: Lang, i: nat)
    requires i < |Grouped(n, GroupSep(lang))|
    ensures i < |Num(n, lang)|
    ensures var s := Grouped(n, GroupSep(lang)); Num(n, lang)[|Num(n, lang)| - 1 - i] == InScript(s[|s| - 1 - i], lang)
  {
    PrintedFrom(n, lang);
    InScriptRight(Grouped(n, GroupSep(lang)), Num(n, lang), lang, i);
  }

  lemma PrintedRight(n: int, lang: Lang, i: nat)
    requires i < |Group(Decimal(Abs(n)), GroupSep(lang))|
    ensures i - i / 4 < |Decimal(Abs(n))| && i < |Num(n, lang)|
    ensures Num(n, lang)[|Num(n, lang)| - 1 - i] == ShownAt(Decimal(Abs(n)), lang, i)
  {
    GroupedShape(n, GroupSep(lang), i);
    PrintedInScript(n, lang, i);
    GroupedIsShown(Decimal(Abs(n)), lang, i);
  }

  /**
   What is printed, character by character from the right, for every integer in
   every language, with a minus in front of a negative one.
   */
  lemma PrintedExactly(n: int, lang: Lang, i: nat)
    requires var d := |Decimal(Abs(n))|; i < d + (d - 1) / 3
    ensures var d := |Decimal(Abs(n))|; |Num(n, lang)| == d + (d - 1) / 3 + (if n < 0 then 1 else 0)
    ensures n < 0 ==> Num(n, lang)[0] == '-'
    ensures i - i / 4 < |Decimal(Abs(n))|
    ensures Num(n, lang)[|Num(n, lang)| - 1 - i] == ShownAt(Decimal(Abs(n)), lang, i)
  {
    PrintedLength(n, lang);
    GroupLength(Decimal(Abs(n)), GroupSep(lang));
    PrintedRight(n, lang, i);
  }

  /** Text the parser has nothing to clean away from. */
  lemma AlreadyClean(s: string)
    requires forall i :: 0 <= i < |s| ==> IsDigit(s[i]) || s[i] == '-'
    ensures Clean(s) == s
  {
    assert ToAscii(s) == s;
    StripTight(s);
    RemoveAbsent(s, ',');
    RemoveAbsent(s, PERSIAN_COMMA);
  }

  lemma DashGoes(rest: string)
    ensures DropDashes("-" + rest) == DropDashes(rest)
  {
    assert ("-" + rest)[1..] == rest;
  }

  lemma NoDash(digits: string)
    requires digits != [] && AllDigits(digits)
    ensures DropDashes(digits) == digits
  {
  }

  lemma TwoDashes(digits: string)
    requires digits != [] && AllDigits(digits)
    ensures var s := "-" + ("-" + digits); Clean(s) == s && DropDashes(s) == digits && |s| == |digits| + 2
  {
    AlreadyClean("-" + ("-" + digits));
    DashGoes("-" + digits);
    DashGoes(digits);
    NoDash(digits);
  }

  lemma NothingLeft(s: string)
    requires s == "" || s == "-"
    ensures DropDashes(Clean(s)) == ""
  {
    AlreadyClean(s);
    DashGoes("");
    assert "-" + "" == "-";
  }

  /** Two minus signs raise, whatever digits follow, and what has no digit is no number. */
  lemma NoNumbers(digits: string)
    requires digits != [] && AllDigits(digits)
    ensures ParseInt("-" + ("-" + digits)) == ValueError
    ensures ParseInt("") == NotANumber && ParseInt("-") == NotANumber
  {
    TwoDashes(digits);
    NothingLeft("");
    NothingLeft("-");
  }

  /** The parser sees the grouped numeral again, whatever script it was written in. */
  lemma SeenAgain(n: int, lang: Lang)
    ensures Strip(ToAscii(Num(n, lang))) == Grouped(n, GroupSep(lang))
  {
    var sep := GroupSep(lang);
    CommaReplaced(n, sep);
    GroupedAlphabet(n, sep);
    GroupedTight(n, sep);
    if lang == Fa {
      TranslatedBack(Grouped(n, sep), PERSIAN_ZERO);
    } else if lang == Ar {
      TranslatedBack(Grouped(n, sep), ARABIC_ZERO);
    }
  }

  lemma {:induction false} GroupStartsWithDigit(digits: string, sep: char)
    requires digits != []
    ensures Group(digits, sep) != [] && Group(digits, sep)[0] == digits[0]
    decreases |digits|
  {
    if |digits| <= 3 {
    } else {
      GroupStartsWithDigit(digits[..|digits| - 3], sep);
    }
  }

  lemma Ungrouped(n: int, sep: char)
    requires sep == ',' || sep == PERSIAN_COMMA
    ensures Remove(Remove(Grouped(n, sep), ','), PERSIAN_COMMA) == Sign(n) + Decimal(Abs(n))
  {
    var digits := Decimal(Abs(n));
    var g, plain := Group(digits, sep), Sign(n) + digits;
    GroupChars(digits, sep);
    GroupRemoved(digits, sep);
    RemoveConcat(Sign(n), g, sep);
    RemoveAbsent(Sign(n), sep);
    assert Remove(Grouped(n, sep), sep) == plain;
    if sep == ',' {
      RemoveAbsent(plain, PERSIAN_COMMA);
    } else {
      RemoveAbsent(Grouped(n, sep), ',');
    }
  }

  lemma SignDropped(n: int, digits: string)
    requires digits != [] && IsDigit(digits[0])
    ensures DropDashes(Sign(n) + digits) == digits
  {
  }

  lemma PlainParses(n: int, raw: string)
    requires Clean(raw) == Sign(n) + Decimal(Abs(n))
    ensures ParseInt(raw) == Number(n)
  {
    var digits := Decimal(Abs(n));
    SignDropped(n, digits);
    NumeralRoundTrip(Abs(n));
  }

  predicate Strips(lang: Lang) {
    lang == Fa || lang == En || lang == Hi
  }

  /** A separator the parser does not strip stays inside, where it is no digit. */
  lemma SeparatorStays(n: int, raw: string, sep: char)
    requires Separator(sep) && sep != ',' && sep != PERSIAN_COMMA
    requires Clean(raw) == Grouped(n, sep) && |Decimal(Abs(n))| > 3
    ensures ParseInt(raw) == NotANumber
  {
    var digits := Decimal(Abs(n));
    var s, g := Grouped(n, sep), Group(digits, sep);
    GroupChars(digits, sep);
    GroupStartsWithDigit(digits, sep);
    SignDropped(n, g);
    assert !AllDigits(g) by {
      var i :| 0 <= i < |g| && g[i] == sep;
      assert !IsDigit(g[i]);
    }
  }

  lemma Unstripped(n: int, lang: Lang)
    requires !Strips(lang)
    ensures Clean(Num(n, lang)) == Grouped(n, GroupSep(lang))
  {
    var sep := GroupSep(lang);
    SeenAgain(n, lang);
    GroupedAlphabet(n, sep);
    RemoveAbsent(Grouped(n, sep), ',');
    RemoveAbsent(Grouped(n, sep), PERSIAN_COMMA);
  }

  /**
   Which printed numbers the parser reads back: all of them where the separator
   is one it strips, elsewhere exactly those below a thousand in size. The rest
   are reported as no number, never misread and never an exception.
   */
  lemma ParsePrinted(n: int, lang: Lang)
    ensures ParseInt(Num(n, lang)) == if Strips(lang) || -1000 < n < 1000 then Number(n) else NotANumber
  {
    DecimalLength(Abs(n));
    if Strips(lang) {
      SeenAgain(n, lang);
      Ungrouped(n, GroupSep(lang));
      PlainParses(n, Num(n, lang));
    } else {
      Unstripped(n, lang);
      if |Decimal(Abs(n))| <= 3 {
        PlainParses(n, Num(n, lang));
      } else {
        SeparatorStays(n, Num(n, lang), GroupSep(lang));
      }
    }
  }

  /** The two Persian printers and the general one agree, and nothing is lost. */
  lemma PersianRoundTrip(n: int)
    ensures FaNum(n) == Num(n, Fa)
    ensures ParseInt(FaNum(n)) == Number(n)
  {
    ParsePrinted(n, Fa);
  }

  lemma SignsApart(m: int, n: int, sep: char)
    requires Separator(sep) && Grouped(m, sep) == Grouped(n, sep)
    ensures Sign(m) == Sign(n) && Group(Decimal(Abs(m)), sep) == Group(Decimal(Abs(n)), sep)
  {
    GroupStartsWithDigit(Decimal(Abs(m)), sep);
    GroupStartsWithDigit(Decimal(Abs(n)), sep);
    assert (m < 0) == (Grouped(m, sep)[0] == '-') && (n < 0) == (Grouped(n, sep)[0] == '-');
    assert Grouped(m, sep)[|Sign(m)|..] == Group(Decimal(Abs(m)), sep);
    assert Grouped(n, sep)[|Sign(n)|..] == Group(Decimal(Abs(n)), sep);
  }

  /** No two integers look alike, in any language, whether or not the parser can read them. */
  lemma PrintedApart(m: int, n: int, lang: Lang)
    requires Num(m, lang) == Num(n, lang)
    ensures m == n
  {
    var sep := GroupSep(lang);
    SeenAgain(m, lang);
    SeenAgain(n, lang);
    SignsApart(m, n, sep);
    GroupRemoved(Decimal(Abs(m)), sep);
    GroupRemoved(Decimal(Abs(n)), sep);
    NumeralRoundTrip(Abs(m));
    NumeralRoundTrip(Abs(n));
  }
}
