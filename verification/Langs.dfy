/** The nine interface languages of telkap/i18n.py and how a code is recognised. */
module Langs {
  import opened Options
  import opened Text

  datatype Lang = Fa | En | Ar | Ru | Tr | Uz | Hi | Id | Pt

  const DEFAULT := Fa

  function Spelling(lang: Lang): (code: string)
    ensures |code| == 2
  {
    match lang
    case Fa => "fa"
    case En => "en"
    case Ar => "ar"
    case Ru => "ru"
    case Tr => "tr"
    case Uz => "uz"
    case Hi => "hi"
    case Id => "id"
    case Pt => "pt"
  }

  /** The language two letters stand for; anything else is the default. */
  function Recognise(a: char, b: char): Lang {
    if a == 'e' && b == 'n' then En
    else if a == 'a' && b == 'r' then Ar
    else if a == 'r' && b == 'u' then Ru
    else if a == 't' && b == 'r' then Tr
    else if a == 'u' && b == 'z' then Uz
    else if a == 'h' && b == 'i' then Hi
    else if a == 'i' && b == 'd' then Id
    else if a == 'p' && b == 't' then Pt
    else DEFAULT
  }

  /** `normalize`, and `pick`, which is the same function. */
  function Normalize(lang: Option<string>): Lang {
    var value := Strip(if lang.Some? then lang.value else "");
    if |value| < 2 then DEFAULT else Recognise(LowerChar(value[0]), LowerChar(value[1]))
  }

  /** What is written to the store is read back as it was meant. */
  lemma SpellingNormal(lang: Lang)
    ensures Normalize(Some(Spelling(lang))) == lang
  {
  }

  /** Only the first two letters count: space around them, case and region are ignored. */
  lemma NormalizeIgnores(lang: Lang, pad: string, code: string, region: string)
    requires forall i :: 0 <= i < |pad| ==> IsSpace(pad[i])
    requires |code| == 2 && Lower(code) == Spelling(lang)
    ensures Normalize(Some(pad + code + region)) == lang
  {
    var s, n := pad + code + region, |pad|;
    assert LowerChar(code[0]) == Lower(code)[0] && LowerChar(code[1]) == Lower(code)[1];
    assert s[n] == code[0] && s[n + 1] == code[1];
    CodeIsVisible(lang, code);
    SkipsSpace(s, 0, n);
    TrimStops(s, n, |s|, n + 1);
    assert Strip(s)[0] == code[0] && Strip(s)[1] == code[1];
  }

  lemma CodeIsVisible(lang: Lang, code: string)
    requires |code| == 2 && Lower(code) == Spelling(lang)
    ensures !IsSpace(code[0]) && !IsSpace(code[1])
    ensures Recognise(Lower(code)[0], Lower(code)[1]) == lang
  {
    assert LowerChar(code[0]) == Lower(code)[0] && LowerChar(code[1]) == Lower(code)[1];
  }

  /** The nine codes, and that any other code is read as Persian. */
  lemma CodeTable(code: string)
    requires |code| == 2 && Lower(code) == code && !IsSpace(code[0]) && !IsSpace(code[1])
    ensures Normalize(Some(code)) ==
              if code == "en" then En else if code == "ar" then Ar else if code == "ru" then Ru
              else if code == "tr" then Tr else if code == "uz" then Uz else if code == "hi" then Hi
              else if code == "id" then Id else if code == "pt" then Pt else Fa
  {
    StripTight(code);
    assert LowerChar(code[0]) == Lower(code)[0] == code[0] && LowerChar(code[1]) == Lower(code)[1] == code[1];
    assert code == [code[0], code[1]];
  }

  /** So is a code that is missing, or too short. */
  lemma ShortIsDefault(code: Option<string>)
    requires code.None? || |Strip(code.value)| < 2
    ensures Normalize(code) == Fa
  {
  }
}
