/**
 Filling the `{{name}}` places of a translated text (telkap/guide_texts.py): one
 pass of `re.sub` with the pattern `\{\{(\w+)\}\}`. What counts as a word
 character is a parameter; braces never do.
 */
module Template {
  import opened Options

  type WordTest = w: char -> bool | !w('{') && !w('}') witness c => false

  type Fields = map<string, string>

  // ---------------------------------------------------------------- the substitution

  /** How many word characters a text begins with. */
  function WordRun(s: string, w: WordTest): (n: nat)
    ensures n <= |s|
  {
    if s == [] || !w(s[0]) then 0 else 1 + WordRun(s[1..], w)
  }

  /** The name of the placeholder a text begins with. */
  function Placeholder(s: string, w: WordTest): Option<string> {
    if |s| < 5 || s[0] != '{' || s[1] != '{' then None
    else
      var n := WordRun(s[2..], w);
      if n > 0 && n + 4 <= |s| && s[n + 2] == '}' && s[n + 3] == '}' then Some(s[2..n + 2]) else None
  }

  /** `_FIELD.sub(lambda m: fields.get(m.group(1), m.group(0)), text)` */
  function Fill(s: string, fields: Fields, w: WordTest): string
    decreases |s|
  {
    if s == [] then []
    else match Placeholder(s, w)
      case None => [s[0]] + Fill(s[1..], fields, w)
      case Some(name) =>
        (if name in fields then fields[name] else s[..|name| + 4]) + Fill(s[|name| + 4..], fields, w)
  }

  /** `body`, for a text that is there. */
  function Body(text: string, fields: Fields, w: WordTest): string {
    if fields == map[] then text else Fill(text, fields, w)
  }

  // -------------------------------------------------------------------- its pieces

  /** A text as the pass sees it: single characters and places to fill. */
  datatype Piece = Lit(c: char) | Slot(name: string)

  function Pieces(s: string, w: WordTest): seq<Piece>
    decreases |s|
  {
    if s == [] then []
    else match Placeholder(s, w)
      case None => [Lit(s[0])] + Pieces(s[1..], w)
      case Some(name) => [Slot(name)] + Pieces(s[|name| + 4..], w)
  }

  function Written(piece: Piece): string {
    match piece
    case Lit(c) => [c]
    case Slot(name) => "{{" + name + "}}"
  }

  function Filled(piece: Piece, fields: Fields): string {
    if piece.Slot? && piece.name in fields then fields[piece.name] else Written(piece)
  }

  /** Every piece filled for itself, once, in place. */
  function Render(pieces: seq<Piece>, fields: Fields): string {
    if pieces == [] then [] else Filled(pieces[0], fields) + Render(pieces[1..], fields)
  }

  ghost predicate IsName(name: string, w: WordTest) {
    name != [] && forall i :: 0 <= i < |name| ==> w(name[i])
  }

  lemma {:induction false} WordRunWords(s: string, w: WordTest)
    ensures forall i :: 0 <= i < WordRun(s, w) ==> w(s[i])
  {
    if s == [] || !w(s[0]) {
    } else {
      WordRunWords(s[1..], w);
      assert forall i :: 0 < i < |s| ==> s[i] == s[1..][i - 1];
    }
  }

  lemma PlaceholderWritten(s: string, w: WordTest)
    requires Placeholder(s, w).Some?
    ensures var name := Placeholder(s, w).value;
            |name| + 4 <= |s| && IsName(name, w) && s[..|name| + 4] == Written(Slot(name))
  {
    var name := Placeholder(s, w).value;
    WordRunWords(s[2..], w);
    assert forall i :: 0 <= i < |name| ==> name[i] == s[2..][i];
    assert s[..|name| + 4] == [s[0], s[1]] + s[2..|name| + 2] + [s[|name| + 2], s[|name| + 3]];
  }

  lemma RenderCons(piece: Piece, rest: seq<Piece>, fields: Fields)
    ensures Render([piece] + rest, fields) == Filled(piece, fields) + Render(rest, fields)
  {
  }

  /** A text is its first piece, written, and the rest. */
  lemma FirstPiece(s: string, w: WordTest) returns (piece: Piece, n: nat)
    requires s != []
    ensures 0 < n <= |s| && s == Written(piece) + s[n..] && Pieces(s, w) == [piece] + Pieces(s[n..], w)
  {
    if Placeholder(s, w).Some? {
      piece, n := Slot(Placeholder(s, w).value), |Placeholder(s, w).value| + 4;
      PlaceholderWritten(s, w);
    } else {
      piece, n := Lit(s[0]), 1;
    }
    CutAt(s, n);
  }

  /** The pieces are the text, cut up. */
  lemma {:induction false} PiecesAreTheText(s: string, w: WordTest)
    ensures Render(Pieces(s, w), map[]) == s
    decreases |s|
  {
    if s == [] {
    } else {
      var piece, n := FirstPiece(s, w);
      PiecesAreTheText(s[n..], w);
      RenderCons(piece, Pieces(s[n..], w), map[]);
    }
  }

  /**
   The substitution is one pass: what comes out is the pieces of the original
   text, each filled for itself. No value is looked at again.
   */
  lemma {:induction false} FillIsOnePass(s: string, fields: Fields, w: WordTest)
    ensures Fill(s, fields, w) == Render(Pieces(s, w), fields)
    decreases |s|
  {
    if s == [] {
    } else {
      match Placeholder(s, w) {
        case None => FillIsOnePass(s[1..], fields, w);
        case Some(name) =>
          PlaceholderWritten(s, w);
          FillIsOnePass(s[|name| + 4..], fields, w);
      }
    }
  }

  /** What a reader gets, for every text and all values, none included: each piece filled once, in place. */
  lemma BodyIsOnePass(s: string, fields: Fields, w: WordTest)
    ensures Body(s, fields, w) == Render(Pieces(s, w), fields)
  {
    FillIsOnePass(s, fields, w);
    PiecesAreTheText(s, w);
  }

  /** In particular a named value stands where its placeholder stood. */
  lemma NamedIsFilled(name: string, rest: string, fields: Fields, w: WordTest)
    requires IsName(name, w) && name in fields
    ensures Body("{{" + name + "}}" + rest, fields, w) == fields[name] + Body(rest, fields, w)
  {
    assert Written(Slot(name)) == "{{" + name + "}}";
    SlotIsSeen(name, rest, w);
    BodyIsOnePass("{{" + name + "}}" + rest, fields, w);
    BodyIsOnePass(rest, fields, w);
    RenderCons(Slot(name), Pieces(rest, w), fields);
  }

  ghost predicate Names(pieces: seq<Piece>, name: string) {
    exists i :: 0 <= i < |pieces| && pieces[i] == Slot(name)
  }

  lemma {:induction false} RenderDependsOnNames(pieces: seq<Piece>, f: Fields, g: Fields)
    requires forall i :: 0 <= i < |pieces| ==> Filled(pieces[i], f) == Filled(pieces[i], g)
    ensures Render(pieces, f) == Render(pieces, g)
  {
    if pieces == [] {
    } else {
      RenderDependsOnNames(pieces[1..], f, g);
    }
  }

  /** Text whose placeholders all have unknown names stays as written, `{tag}` and all; empty fields agree. */
  lemma UnknownNamesStay(s: string, fields: Fields, w: WordTest)
    requires forall name :: name in fields ==> !Names(Pieces(s, w), name)
    ensures Fill(s, fields, w) == s && Body(s, fields, w) == s
  {
    var pieces := Pieces(s, w);
    forall i | 0 <= i < |pieces| ensures Filled(pieces[i], fields) == Filled(pieces[i], map[]) {
      assert pieces[i].Slot? ==> Names(pieces, pieces[i].name);
    }
    FillIsOnePass(s, fields, w);
    RenderDependsOnNames(pieces, fields, map[]);
    PiecesAreTheText(s, w);
  }

  ghost predicate NoDoubleBrace(s: string) {
    forall i :: 0 <= i < |s| - 1 ==> !(s[i] == '{' && s[i + 1] == '{')
  }

  /** Text without a double brace anywhere is never changed. */
  lemma SingleBracesStay(s: string, fields: Fields, w: WordTest)
    requires NoDoubleBrace(s)
    ensures Fill(s, fields, w) == s
  {
  }

  // ------------------------------------------------------------- one filling after another

  /** Every double opening brace opens a placeholder. */
  ghost predicate Opened(s: string, w: WordTest) {
    forall i :: 0 <= i < |s| - 1 && s[i] == '{' && s[i + 1] == '{' ==> Placeholder(s[i..], w).Some?
  }

  /** No value of the fields contains a brace. */
  ghost predicate Braceless(fields: Fields) {
    forall name :: name in fields ==> '{' !in fields[name] && '}' !in fields[name]
  }

  /** A literal opening brace is last, or before a literal that is not one. */
  ghost predicate Calm(pieces: seq<Piece>, w: WordTest) {
    && (forall i :: 0 <= i < |pieces| - 1 && pieces[i] == Lit('{') ==> pieces[i + 1].Lit? && pieces[i + 1].c != '{')
    && (forall i :: 0 <= i < |pieces| && pieces[i].Slot? ==> IsName(pieces[i].name, w))
  }

  lemma PiecesStart(s: string, w: WordTest)
    requires s != []
    ensures Pieces(s, w) != []
    ensures match Pieces(s, w)[0] case Lit(c) => c == s[0] case Slot(_) => s[0] == '{'
  {
  }

  lemma OpenedTail(s: string, n: nat, w: WordTest)
    requires n <= |s| && Opened(s, w)
    ensures Opened(s[n..], w)
  {
  }

  lemma {:induction false} OpenedIsCalm(s: string, w: WordTest)
    requires Opened(s, w)
    ensures Calm(Pieces(s, w), w)
    decreases |s|
  {
    if s == [] {
    } else {
      var pieces := Pieces(s, w);
      match Placeholder(s, w) {
        case None =>
          OpenedTail(s, 1, w);
          OpenedIsCalm(s[1..], w);
          if |s| > 1 {
            PiecesStart(s[1..], w);
            assert s[0..] == s;
          }
          CalmCons(pieces[0], Pieces(s[1..], w), w);
        case Some(name) =>
          PlaceholderWritten(s, w);
          OpenedTail(s, |name| + 4, w);
          OpenedIsCalm(s[|name| + 4..], w);
          CalmCons(pieces[0], Pieces(s[|name| + 4..], w), w);
      }
    }
  }

  lemma CalmCons(piece: Piece, rest: seq<Piece>, w: WordTest)
    requires Calm(rest, w) && (piece.Slot? ==> IsName(piece.name, w))
    requires piece == Lit('{') && rest != [] ==> rest[0].Lit? && rest[0].c != '{'
    ensures Calm([piece] + rest, w)
  {
  }

  lemma CalmTail(pieces: seq<Piece>, w: WordTest)
    requires pieces != [] && Calm(pieces, w)
    ensures Calm(pieces[1..], w)
  {
  }

  /** The pieces of a filled text: known slots have become plain characters, the others are still there. */
  function Settled(pieces: seq<Piece>, fields: Fields): seq<Piece> {
    if pieces == [] then []
    else (if pieces[0].Slot? && pieces[0].name in fields then Chars(fields[pieces[0].name]) else [pieces[0]]) + Settled(pieces[1..], fields)
  }

  function Chars(s: string): seq<Piece> {
    seq(|s|, i requires 0 <= i < |s| => Lit(s[i]))
  }

  lemma {:induction false} WordRunExact(name: string, rest: string, w: WordTest)
    requires forall i :: 0 <= i < |name| ==> w(name[i])
    requires rest != [] && !w(rest[0])
    ensures WordRun(name + rest, w) == |name|
  {
    if name == [] {
    } else {
      assert (name + rest)[1..] == name[1..] + rest;
      WordRunExact(name[1..], rest, w);
    }
  }

  lemma SlotIsSeen(name: string, rest: string, w: WordTest)
    requires IsName(name, w)
    ensures Placeholder(Written(Slot(name)) + rest, w) == Some(name)
    ensures Pieces(Written(Slot(name)) + rest, w) == [Slot(name)] + Pieces(rest, w)
  {
    var s := Written(Slot(name)) + rest;
    assert s[2..] == name + ("}}" + rest);
    WordRunExact(name, "}}" + rest, w);
    assert s[2..|name| + 2] == name;
    assert s[|name| + 4..] == rest;
  }

  lemma NotOpened(c: char, rest: string, w: WordTest)
    requires Placeholder([c] + rest, w).None?
    ensures Pieces([c] + rest, w) == [Lit(c)] + Pieces(rest, w)
  {
    assert ([c] + rest)[1..] == rest;
  }

  lemma LiteralIsSeen(c: char, rest: string, w: WordTest)
    requires c == '{' && rest != [] ==> rest[0] != '{'
    ensures Pieces([c] + rest, w) == [Lit(c)] + Pieces(rest, w)
  {
    NotOpened(c, rest, w);
  }

  lemma HeadOf(value: string, rest: string)
    requires value != []
    ensures value + rest == [value[0]] + (value[1..] + rest)
  {
  }

  lemma HeadOfChars(value: string, rest: seq<Piece>)
    requires value != []
    ensures Chars(value) + rest == [Lit(value[0])] + (Chars(value[1..]) + rest)
  {
  }

  lemma {:induction false} ValueIsSeen(value: string, rest: string, w: WordTest)
    requires '{' !in value
    ensures Pieces(value + rest, w) == Chars(value) + Pieces(rest, w)
  {
    if value == [] {
      assert value + rest == rest;
      assert Chars(value) + Pieces(rest, w) == Pieces(rest, w);
    } else {
      HeadOf(value, rest);
      LiteralIsSeen(value[0], value[1..] + rest, w);
      ValueIsSeen(value[1..], rest, w);
      HeadOfChars(value, Pieces(rest, w));
    }
  }

  /** Filling a calm text with braceless values neither makes nor breaks a placeholder. */
  lemma {:induction false} FilledPieces(pieces: seq<Piece>, fields: Fields, w: WordTest)
    requires Calm(pieces, w) && Braceless(fields)
    ensures Pieces(Render(pieces, fields), w) == Settled(pieces, fields)
  {
    if pieces == [] {
    } else {
      var rest := Render(pieces[1..], fields);
      CalmTail(pieces, w);
      FilledPieces(pieces[1..], fields, w);
      match pieces[0] {
        case Lit(c) =>
          if c == '{' && |pieces| > 1 {
            assert pieces[1..][0] == pieces[1] && rest == [pieces[1].c] + Render(pieces[1..][1..], fields);
          }
          LiteralIsSeen(c, rest, w);
        case Slot(name) =>
          if name in fields {
            ValueIsSeen(fields[name], rest, w);
          } else {
            SlotIsSeen(name, rest, w);
          }
      }
    }
  }

  lemma {:induction false} RenderConcat(a: seq<Piece>, b: seq<Piece>, fields: Fields)
    ensures Render(a + b, fields) == Render(a, fields) + Render(b, fields)
  {
    if a == [] {
      assert a + b == b;
    } else {
      assert (a + b)[1..] == a[1..] + b;
      RenderConcat(a[1..], b, fields);
    }
  }

  lemma {:induction false} RenderChars(s: string, fields: Fields)
    ensures Render(Chars(s), fields) == s
  {
    if s == [] {
    } else {
      assert Chars(s)[1..] == Chars(s[1..]);
      RenderChars(s[1..], fields);
    }
  }

  lemma {:induction false} SettledRenders(pieces: seq<Piece>, f: Fields, g: Fields)
    ensures Render(Settled(pieces, f), g) == Render(pieces, g + f)
  {
    if pieces == [] {
    } else {
      var head := if pieces[0].Slot? && pieces[0].name in f then Chars(f[pieces[0].name]) else [pieces[0]];
      RenderConcat(head, Settled(pieces[1..], f), g);
      SettledRenders(pieces[1..], f, g);
      if pieces[0].Slot? && pieces[0].name in f {
        RenderChars(f[pieces[0].name], g);
      } else {
        assert head[1..] == [];
        assert Render(head, g) == Filled(pieces[0], g) + [];
      }
    }
  }

  /**
   Filling twice is filling once with both, the first taking precedence, for
   every text whose double braces all open placeholders and braceless values.
   */
  lemma FillTwice(s: string, f: Fields, g: Fields, w: WordTest)
    requires Opened(s, w) && Braceless(f)
    ensures Fill(Fill(s, f, w), g, w) == Fill(s, g + f, w)
  {
    var pieces := Pieces(s, w);
    OpenedIsCalm(s, w);
    FillIsOnePass(s, f, w);
    FilledPieces(pieces, f, w);
    FillIsOnePass(Fill(s, f, w), g, w);
    SettledRenders(pieces, f, g);
    FillIsOnePass(s, g + f, w);
  }

  // ------------------------------------------------ exactly when twice is the same as once

  /** How many places there are to fill. */
  function Slots(pieces: seq<Piece>): nat {
    if pieces == [] then 0 else Slots(pieces[1..]) + if pieces[0].Slot? then 1 else 0
  }

  ghost predicate Named(pieces: seq<Piece>, w: WordTest) {
    forall i :: 0 <= i < |pieces| && pieces[i].Slot? ==> IsName(pieces[i].name, w)
  }

  lemma {:induction false} PiecesAreNamed(s: string, w: WordTest)
    ensures Named(Pieces(s, w), w)
    decreases |s|
  {
    if s == [] {
    } else {
      match Placeholder(s, w) {
        case None => PiecesAreNamed(s[1..], w);
        case Some(name) =>
          PlaceholderWritten(s, w);
          PiecesAreNamed(s[|name| + 4..], w);
      }
    }
  }

  lemma {:induction false} SettledIsNamed(pieces: seq<Piece>, fields: Fields, w: WordTest)
    requires Named(pieces, w)
    ensures Named(Settled(pieces, fields), w)
  {
    if pieces == [] {
    } else {
      SettledIsNamed(pieces[1..], fields, w);
    }
  }

  lemma {:induction false} SlotsOfLiterals(s: string, rest: seq<Piece>)
    ensures Slots(Chars(s) + rest) == Slots(rest)
  {
    if s == [] {
      assert Chars(s) + rest == rest;
    } else {
      assert (Chars(s) + rest)[1..] == Chars(s[1..]) + rest;
      SlotsOfLiterals(s[1..], rest);
    }
  }

  lemma RenderStart(pieces: seq<Piece>)
    requires pieces != []
    ensures var text, rest := Render(pieces, map[]), Render(pieces[1..], map[]);
            && text == Written(pieces[0]) + rest
            && (pieces[0].Lit? ==> text[0] == pieces[0].c && text[1..] == rest)
            && (pieces[0].Slot? ==> |text| >= 2 && text[0] == '{' && text[1] == '{')
  {
  }

  lemma LiteralStart(pieces: seq<Piece>, c: char, rest: string)
    requires Render(pieces, map[]) == [c] + rest
    requires pieces != [] && (pieces[0].Lit? || c != '{' || rest == [] || rest[0] != '{')
    ensures pieces[0] == Lit(c) && Render(pieces[1..], map[]) == rest
  {
    RenderStart(pieces);
    assert ([c] + rest)[1..] == rest;
    assert rest != [] ==> ([c] + rest)[1] == rest[0];
  }

  /** Pieces that begin with text free of opening braces begin with its characters. */
  lemma {:induction false} LiteralPrefix(pieces: seq<Piece>, x: string, rest: string) returns (others: seq<Piece>)
    requires Render(pieces, map[]) == x + rest && '{' !in x
    ensures pieces == Chars(x) + others && Render(others, map[]) == rest
    decreases |x|
  {
    if x == [] {
      others := pieces;
      assert x + rest == rest && Chars(x) + others == others;
    } else {
      assert x + rest == [x[0]] + (x[1..] + rest);
      LiteralStart(pieces, x[0], x[1..] + rest);
      others := LiteralPrefix(pieces[1..], x[1..], rest);
      CharsPrepended(pieces, x, others);
    }
  }

  lemma CharsPrepended(pieces: seq<Piece>, x: string, others: seq<Piece>)
    requires x != [] && pieces != [] && pieces[0] == Lit(x[0]) && pieces[1..] == Chars(x[1..]) + others
    ensures pieces == Chars(x) + others
  {
  }

  lemma WrittenBraces(name: string, rest: string)
    ensures Written(Slot(name)) + rest == ['{'] + (['{'] + (name + "}}" + rest))
  {
  }

  /** Pieces whose text begins with a placeholder but which begin with a character begin with all of its characters. */
  lemma PlaceholderPrefix(pieces: seq<Piece>, name: string, rest: string, w: WordTest) returns (others: seq<Piece>)
    requires pieces != [] && pieces[0].Lit? && IsName(name, w)
    requires Render(pieces, map[]) == Written(Slot(name)) + rest
    ensures pieces == Chars(Written(Slot(name))) + others && Render(others, map[]) == rest
  {
    var inner := name + "}}" + rest;
    WrittenBraces(name, rest);
    LiteralStart(pieces, '{', ['{'] + inner);
    assert inner[0] == name[0] && w(inner[0]);
    LiteralStart(pieces[1..], '{', inner);
    NameHasNoBrace(name, w);
    others := LiteralPrefix(pieces[1..][1..], name + "}}", rest);
    CharsPrepended(pieces[1..], "{" + (name + "}}"), others);
    CharsPrepended(pieces, "{" + ("{" + (name + "}}")), others);
    assert "{" + ("{" + (name + "}}")) == Written(Slot(name));
  }

  lemma NameHasNoBrace(name: string, w: WordTest)
    requires IsName(name, w)
    ensures '{' !in name + "}}"
  {
  }

  lemma NamedTail(pieces: seq<Piece>, n: nat, w: WordTest)
    requires n <= |pieces| && Named(pieces, w)
    ensures Named(pieces[n..], w)
  {
  }

  /** Reading a text again finds every slot it was put together from, and the same pieces unless it finds more. */
  lemma {:induction false} ReadingFindsAllSlots(pieces: seq<Piece>, w: WordTest)
    requires Named(pieces, w)
    ensures var again := Pieces(Render(pieces, map[]), w);
            Slots(again) >= Slots(pieces) && (Slots(again) == Slots(pieces) ==> again == pieces)
    decreases |pieces|
  {
    if pieces == [] {
    } else {
      RenderStart(pieces);
      NamedTail(pieces, 1, w);
      if pieces[0].Slot? {
        SlotIsSeen(pieces[0].name, Render(pieces[1..], map[]), w);
        ReadingFindsAllSlots(pieces[1..], w);
      } else {
        var text := Render(pieces, map[]);
        match Placeholder(text, w) {
          case None => ReadingFindsAllSlots(pieces[1..], w);
          case Some(name) =>
            ReadingPastLiterals(pieces, name, w);
            var others := pieces[|name| + 4..];
            NamedTail(pieces, |name| + 4, w);
            ReadingFindsAllSlots(others, w);
            SlotsOfLiterals(Written(Slot(name)), others);
        }
      }
    }
  }

  /** A slot read where a character was put stands for several characters. */
  lemma ReadingPastLiterals(pieces: seq<Piece>, name: string, w: WordTest)
    requires pieces != [] && pieces[0].Lit? && Placeholder(Render(pieces, map[]), w) == Some(name)
    ensures |name| + 4 <= |pieces|
    ensures pieces == Chars(Written(Slot(name))) + pieces[|name| + 4..]
    ensures Pieces(Render(pieces, map[]), w) == [Slot(name)] + Pieces(Render(pieces[|name| + 4..], map[]), w)
  {
    var text := Render(pieces, map[]);
    RenderStart(pieces);
    PlaceholderWritten(text, w);
    CutAt(text, |name| + 4);
    var others := PlaceholderPrefix(pieces, name, text[|name| + 4..], w);
    AfterChars(Written(Slot(name)), others);
  }

  lemma CutAt(s: string, n: nat)
    requires n <= |s|
    ensures s == s[..n] + s[n..]
  {
  }

  lemma AfterChars(x: string, others: seq<Piece>)
    ensures |x| <= |Chars(x) + others| && (Chars(x) + others)[|x|..] == others
  {
  }

  function NamesIn(pieces: seq<Piece>): set<string> {
    set i | 0 <= i < |pieces| && pieces[i].Slot? :: pieces[i].name
  }

  /** Values one character longer than the placeholders they replace. */
  function Longer(names: set<string>): Fields {
    map n | n in names :: Written(Slot(n)) + "+"
  }

  lemma {:induction false} LongerByOneEach(pieces: seq<Piece>, names: set<string>)
    requires NamesIn(pieces) <= names
    ensures |Render(pieces, Longer(names))| == |Render(pieces, map[])| + Slots(pieces)
  {
    if pieces == [] {
    } else {
      assert NamesIn(pieces[1..]) <= NamesIn(pieces);
      assert pieces[0].Slot? ==> pieces[0].name in NamesIn(pieces);
      LongerByOneEach(pieces[1..], names);
    }
  }

  /** What two fillings and one joint filling make of the pieces. */
  lemma BothFillings(s: string, f: Fields, g: Fields, w: WordTest)
    ensures Fill(Fill(s, f, w), g, w) == Render(Pieces(Fill(s, f, w), w), g)
    ensures Fill(s, g + f, w) == Render(Settled(Pieces(s, w), f), g)
  {
    FillIsOnePass(Fill(s, f, w), g, w);
    FillIsOnePass(s, g + f, w);
    SettledRenders(Pieces(s, w), f, g);
  }

  /** The text after the first filling, and that reading it finds at least the slots that were left. */
  lemma FirstFilling(s: string, f: Fields, w: WordTest)
    ensures var left := Settled(Pieces(s, w), f);
            var again := Pieces(Fill(s, f, w), w);
            && Named(left, w) && Render(left, map[]) == Fill(s, f, w) == Render(again, map[])
            && (Slots(again) == Slots(left) <==> again == left)
  {
    var left := Settled(Pieces(s, w), f);
    PiecesAreNamed(s, w);
    SettledIsNamed(Pieces(s, w), f, w);
    BothFillings(s, f, map[], w);
    FillIsOnePass(s, f, w);
    SettledRenders(Pieces(s, w), f, map[]);
    assert map[] + f == f;
    PiecesAreTheText(Fill(s, f, w), w);
    ReadingFindsAllSlots(left, w);
  }

  /** By the result: the first filling leaves as many placeholders as it did not fill. */
  lemma FillTwiceByCount(s: string, f: Fields, w: WordTest)
    ensures (forall g: Fields :: Fill(Fill(s, f, w), g, w) == Fill(s, g + f, w))
            <==> Slots(Pieces(Fill(s, f, w), w)) == Slots(Settled(Pieces(s, w), f))
  {
    var left := Settled(Pieces(s, w), f);
    var again := Pieces(Fill(s, f, w), w);
    FirstFilling(s, f, w);
    forall g: Fields ensures Fill(Fill(s, f, w), g, w) == Render(again, g) && Fill(s, g + f, w) == Render(left, g) {
      BothFillings(s, f, g, w);
    }
    if forall g: Fields :: Fill(Fill(s, f, w), g, w) == Fill(s, g + f, w) {
      var names := NamesIn(left) + NamesIn(again);
      LongerByOneEach(left, names);
      LongerByOneEach(again, names);
      assert Fill(Fill(s, f, w), Longer(names), w) == Fill(s, Longer(names) + f, w);
    }
  }

  ghost predicate SpellsAt(pieces: seq<Piece>, i: nat, name: string) {
    i + |name| + 4 <= |pieces| && pieces[i..i + |name| + 4] == Chars(Written(Slot(name)))
  }

  /** No run of single characters spells a placeholder. */
  ghost predicate SpellsNone(pieces: seq<Piece>, w: WordTest) {
    forall i: nat, name | IsName(name, w) :: !SpellsAt(pieces, i, name)
  }

  lemma SpellsNoneTail(pieces: seq<Piece>, w: WordTest)
    requires pieces != [] && SpellsNone(pieces, w)
    ensures SpellsNone(pieces[1..], w)
  {
    forall i: nat, name | IsName(name, w) ensures !SpellsAt(pieces[1..], i, name) {
      assert !SpellsAt(pieces, i + 1, name);
      assert i + 1 + |name| + 4 <= |pieces| ==>
          pieces[1..][i..i + |name| + 4] == pieces[i + 1..i + 1 + |name| + 4];
    }
  }

  /** Where a placeholder is spelt out, the text has it, and reading the text would have found it. */
  lemma NotSpeltAtStart(s: string, name: string, w: WordTest)
    requires IsName(name, w)
    ensures !SpellsAt(Pieces(s, w), 0, name)
  {
    var pieces, n := Pieces(s, w), |name| + 4;
    if SpellsAt(pieces, 0, name) {
      assert pieces == Chars(Written(Slot(name))) + pieces[n..];
      RenderConcat(Chars(Written(Slot(name))), pieces[n..], map[]);
      RenderChars(Written(Slot(name)), map[]);
      PiecesAreTheText(s, w);
      SlotIsSeen(name, Render(pieces[n..], map[]), w);
    }
  }

  lemma SpeltLater(piece: Piece, rest: seq<Piece>, i: nat, name: string)
    requires i > 0 && SpellsAt([piece] + rest, i, name)
    ensures SpellsAt(rest, i - 1, name)
  {
    assert ([piece] + rest)[i..i + |name| + 4] == rest[i - 1..i - 1 + |name| + 4];
  }

  /** What is read from a text spells no placeholder it did not find. */
  lemma {:induction false} PiecesSpellNone(s: string, w: WordTest)
    ensures SpellsNone(Pieces(s, w), w)
    decreases |s|
  {
    var pieces := Pieces(s, w);
    if s == [] {
    } else {
      var n := if Placeholder(s, w).Some? then |Placeholder(s, w).value| + 4 else 1;
      PiecesSpellNone(s[n..], w);
      assert pieces == [pieces[0]] + Pieces(s[n..], w);
      forall i: nat, name | IsName(name, w) ensures !SpellsAt(pieces, i, name) {
        if i == 0 {
          NotSpeltAtStart(s, name, w);
        } else if SpellsAt(pieces, i, name) {
          SpeltLater(pieces[0], Pieces(s[n..], w), i, name);
        }
      }
    }
  }

  /** And pieces that spell none are read back as they are. */
  lemma {:induction false} ReadsBack(pieces: seq<Piece>, w: WordTest)
    requires Named(pieces, w) && SpellsNone(pieces, w)
    ensures Pieces(Render(pieces, map[]), w) == pieces
  {
    if pieces == [] {
    } else {
      RenderStart(pieces);
      NamedTail(pieces, 1, w);
      SpellsNoneTail(pieces, w);
      ReadsBack(pieces[1..], w);
      if pieces[0].Slot? {
        SlotIsSeen(pieces[0].name, Render(pieces[1..], map[]), w);
      } else if Placeholder(Render(pieces, map[]), w).Some? {
        var name := Placeholder(Render(pieces, map[]), w).value;
        ReadingPastLiterals(pieces, name, w);
        PlaceholderWritten(Render(pieces, map[]), w);
        assert SpellsAt(pieces, 0, name);
      }
    }
  }

  /**
   Exactly when filling twice is filling once with both, whatever comes second,
   told from text and values alone: when nowhere the characters that stay and
   the values put between them spell out a placeholder.
   */
  lemma FillTwiceExactlyWhen(s: string, f: Fields, w: WordTest)
    ensures (forall g: Fields :: Fill(Fill(s, f, w), g, w) == Fill(s, g + f, w))
            <==> SpellsNone(Settled(Pieces(s, w), f), w)
  {
    FillTwiceByCount(s, f, w);
    FirstFilling(s, f, w);
    PiecesSpellNone(Fill(s, f, w), w);
    if SpellsNone(Settled(Pieces(s, w), f), w) {
      ReadsBack(Settled(Pieces(s, w), f), w);
    }
  }

  // --------------------------------------------------------- why the condition is there

  ghost predicate Words(s: string, w: WordTest) {
    forall i :: 0 <= i < |s| ==> w(s[i])
  }

  /** A placeholder between the double braces of what is no placeholder yet. */
  function Nested(x: string, a: string, y: string): string {
    "{{" + (x + (Written(Slot(a)) + (y + "}}")))
  }

  lemma OpenButNotClosed(x: string, rest: string, w: WordTest)
    requires IsName(x, w) && rest != [] && rest[0] == '{'
    ensures Placeholder("{{" + (x + rest), w) == None
  {
    var s := "{{" + (x + rest);
    assert s[2..] == x + rest && s[|x| + 2] == rest[0];
    WordRunExact(x, rest, w);
  }

  lemma BraceAndBrace(rest: string)
    ensures "{{" + rest == ['{'] + (['{'] + rest)
  {
  }

  lemma BraceCharacters(rest: seq<Piece>)
    ensures Chars("{{") + rest == [Lit('{')] + ([Lit('{')] + rest)
  {
  }

  lemma OuterBracesAreLiteral(x: string, rest: string, w: WordTest)
    requires IsName(x, w) && rest != [] && rest[0] == '{'
    ensures Pieces("{{" + (x + rest), w) == Chars("{{") + Pieces(x + rest, w)
  {
    OpenButNotClosed(x, rest, w);
    BraceAndBrace(x + rest);
    NotOpened('{', ['{'] + (x + rest), w);
    LiteralIsSeen('{', x + rest, w);
    BraceCharacters(Pieces(x + rest, w));
  }

  lemma NestedPieces(x: string, a: string, y: string, w: WordTest)
    requires IsName(x, w) && IsName(a, w) && Words(y, w)
    ensures Pieces(Nested(x, a, y), w) == Chars("{{") + (Chars(x) + ([Slot(a)] + Chars(y + "}}")))
  {
    var last := y + "}}";
    var rest := Written(Slot(a)) + last;
    ValueIsSeen(last, "", w);
    assert last + "" == last && Chars(last) + Pieces("", w) == Chars(last);
    SlotIsSeen(a, last, w);
    ValueIsSeen(x, rest, w);
    OuterBracesAreLiteral(x, rest, w);
  }

  lemma NestedOnce(x: string, a: string, y: string, f: Fields, w: WordTest)
    requires IsName(x, w) && IsName(a, w) && Words(y, w) && a in f
    ensures Fill(Nested(x, a, y), f, w) == Written(Slot(x + f[a] + y))
  {
    var last := Chars(y + "}}");
    NestedPieces(x, a, y, w);
    FillIsOnePass(Nested(x, a, y), f, w);
    RenderConcat(Chars("{{"), Chars(x) + ([Slot(a)] + last), f);
    RenderConcat(Chars(x), [Slot(a)] + last, f);
    RenderCons(Slot(a), last, f);
    RenderChars("{{", f);
    RenderChars(x, f);
    RenderChars(y + "}}", f);
    NestedJoined(x, f[a], y);
  }

  lemma NestedJoined(x: string, v: string, y: string)
    ensures "{{" + (x + (v + (y + "}}"))) == Written(Slot(x + v + y))
  {
  }

  lemma NewPlaceholder(name: string, value: string, w: WordTest)
    requires IsName(name, w)
    ensures Fill(Written(Slot(name)), map[name := value], w) == value
  {
    var s := Written(Slot(name));
    assert s + "" == s;
    SlotIsSeen(name, "", w);
    FillIsOnePass(s, map[name := value], w);
    RenderCons(Slot(name), [], map[name := value]);
  }

  /**
   Text such as `{{x{{a}}y}}`: no run of three braces, no brace in a value, and
   yet filling `a` writes a placeholder that a second filling finds and a joint
   one does not.
   */
  lemma NestedBraces(x: string, a: string, y: string, v: string, z: string, w: WordTest)
    requires IsName(x, w) && IsName(a, w) && Words(y, w) && Words(v, w)
    ensures var f, g := map[a := v], map[x + v + y := z];
            && Braceless(f)
            && Fill(Fill(Nested(x, a, y), f, w), g, w) == z
            && Fill(Nested(x, a, y), g + f, w) == Written(Slot(x + v + y))
  {
    var f, g := map[a := v], map[x + v + y := z];
    NestedOnce(x, a, y, f, w);
    NestedOnce(x, a, y, g + f, w);
    NewPlaceholder(x + v + y, z, w);
  }
}
