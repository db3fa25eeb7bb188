/**
 Completing a `.env` file from `.env.example` (tools/envsync.py), and the reader
 such a file has to go on making sense to (`read_env` in tools/nettest.py).
 Text is what `read_text` returns, that is, after newline translation.
 */
module EnvSync {
  import opened Options
  import opened Text

  // ----------------------------------------------------------- lines of a text

  /** The characters `str.splitlines` breaks at. */
  predicate IsBoundary(c: char) {
    || '\n' <= c <= '\r'
    || '\U{001C}' <= c <= '\U{001E}'
    || c == '\U{0085}' || c == '\U{2028}' || c == '\U{2029}'
  }

  predicate OneLine(s: string) {
    forall i :: 0 <= i < |s| ==> !IsBoundary(s[i])
  }

  function LineEnd(s: string): (i: nat)
    ensures i <= |s| && (i < |s| ==> IsBoundary(s[i]))
  {
    if s == [] || IsBoundary(s[0]) then 0 else 1 + LineEnd(s[1..])
  }

  lemma {:induction false} LineEndSkips(s: string)
    ensures OneLine(s[..LineEnd(s)])
  {
    if s == [] || IsBoundary(s[0]) {
    } else {
      LineEndSkips(s[1..]);
      assert s[..LineEnd(s)] == [s[0]] + s[1..][..LineEnd(s[1..])];
    }
  }

  function SplitLines(s: string): seq<string> {
    if s == [] then []
    else
      var i := LineEnd(s);
      [s[..i]] + if i < |s| then SplitLines(s[i + 1..]) else []
  }

  /** `"\n".join(lines)` */
  function Join(lines: seq<string>): string {
    if lines == [] then [] else if |lines| == 1 then lines[0] else lines[0] + "\n" + Join(lines[1..])
  }

  lemma {:induction false} LineEndUnique(line: string, rest: string)
    requires OneLine(line) && (rest == [] || IsBoundary(rest[0]))
    ensures LineEnd(line + rest) == |line|
  {
    if line == [] {
    } else {
      assert (line + rest)[1..] == line[1..] + rest;
      LineEndUnique(line[1..], rest);
    }
  }

  /** The empty line that appears when text ending in a newline is continued with one. */
  function Gap(text: string): seq<string> {
    if text == [] || IsBoundary(text[|text| - 1]) then [""] else []
  }

  lemma SplitFirst(line: string, boundary: char, rest: string)
    requires OneLine(line) && IsBoundary(boundary)
    ensures SplitLines(line + [boundary] + rest) == [line] + SplitLines(rest)
  {
    var s := line + [boundary] + rest;
    assert s == line + ([boundary] + rest);
    LineEndUnique(line, [boundary] + rest);
    assert s[..|line|] == line && s[|line| + 1..] == rest;
  }

  /** The ten characters that end a line. */
  const BOUNDARIES: set<char> := {
    '\n', '\U{000B}', '\U{000C}', '\r', '\U{001C}', '\U{001D}', '\U{001E}', '\U{0085}', '\U{2028}', '\U{2029}'}

  /** A text is split at each of them and at nothing else. */
  lemma LinesSplit(line: string, c: char, rest: string)
    requires forall i :: 0 <= i < |line| ==> line[i] !in BOUNDARIES
    ensures c in BOUNDARIES ==> SplitLines(line + [c] + rest) == [line] + SplitLines(rest)
    ensures line != [] ==> SplitLines(line) == [line]
  {
    assert OneLine(line) by {
      forall i | 0 <= i < |line| ensures !IsBoundary(line[i]) {
        BoundaryTable(line[i]);
      }
    }
    BoundaryTable(c);
    SplitOnly(line);
    if c in BOUNDARIES {
      SplitFirst(line, c, rest);
    }
  }

  lemma BoundaryTable(c: char)
    ensures IsBoundary(c) <==> c in BOUNDARIES
  {
  }

  /** Text written line by line is read back line by line. */
  lemma {:induction false} SplitJoin(lines: seq<string>)
    requires lines != [] && forall i :: 0 <= i < |lines| ==> OneLine(lines[i])
    ensures SplitLines(Join(lines) + "\n") == lines
    decreases |lines|
  {
    if |lines| == 1 {
      assert Join(lines) + "\n" == lines[0] + ['\n'] + [];
      SplitFirst(lines[0], '\n', []);
    } else {
      var rest := Join(lines[1..]) + "\n";
      SplitJoin(lines[1..]);
      assert Join(lines) + "\n" == lines[0] + ['\n'] + rest;
      SplitFirst(lines[0], '\n', rest);
      assert lines == [lines[0]] + lines[1..];
    }
  }

  lemma SplitOnly(line: string)
    requires OneLine(line)
    ensures SplitLines(line) == if line == [] then [] else [line]
  {
    LineEndUnique(line, []);
    assert line + [] == line && line[..|line|] == line;
  }

  /** Starting what is added with a newline keeps it off the last line, whether or not that line was ended. */
  lemma {:induction false} SplitAppended(text: string, added: string)
    ensures SplitLines(text + "\n" + added) == SplitLines(text) + Gap(text) + SplitLines(added)
    decreases |text|
  {
    var i := LineEnd(text);
    LineEndSkips(text);
    if i < |text| {
      SplitAppended(text[i + 1..], added);
      CutAt(text, i);
      LinePrepended(text[..i], text[i], text[i + 1..], added);
    } else {
      assert text[..i] == text;
      SplitOnly(text);
      SplitFirst(text, '\n', added);
    }
  }

  lemma LinePrepended(line: string, boundary: char, rest: string, added: string)
    requires OneLine(line) && IsBoundary(boundary)
    requires SplitLines(rest + "\n" + added) == SplitLines(rest) + Gap(rest) + SplitLines(added)
    ensures var text := line + [boundary] + rest;
            SplitLines(text + "\n" + added) == SplitLines(text) + Gap(text) + SplitLines(added)
  {
    var text, tail := line + [boundary] + rest, rest + "\n" + added;
    SplitFirst(line, boundary, rest);
    SplitFirst(line, boundary, tail);
    Regroup(line + [boundary], rest, "\n", added);
    LastOf(line + [boundary], rest);
    Regroup([line], SplitLines(rest), Gap(rest), SplitLines(added));
  }

  lemma Regroup<T>(a: seq<T>, b: seq<T>, c: seq<T>, d: seq<T>)
    ensures a + (b + c + d) == (a + b) + c + d
    ensures a + (b + c + d) == (a + b) + (c + d)
  {
  }

  lemma CutAt(text: string, i: nat)
    requires i < |text|
    ensures text == text[..i] + [text[i]] + text[i + 1..]
  {
  }

  lemma LastOf(front: string, back: string)
    requires front != []
    ensures (front + back)[|front + back| - 1] == if back == [] then front[|front| - 1] else back[|back| - 1]
  {
  }

  // --------------------------------------------------------- the two line readers

  predicate KeyStart(c: char) {
    'A' <= c <= 'Z'
  }

  predicate KeyPart(c: char) {
    KeyStart(c) || IsDigit(c) || c == '_'
  }

  predicate IsKey(s: string) {
    s != [] && KeyStart(s[0]) && forall i :: 0 <= i < |s| ==> KeyPart(s[i])
  }

  /** `KEY_LINE.match(line.strip())`: an upper-case name right before the first `=`. */
  function KeyOf(line: string): Option<string> {
    var s := Strip(line);
    var i := IndexOf(s, '=');
    if i < |s| && IsKey(s[..i]) then Some(s[..i]) else None
  }

  predicate IsQuote(c: char) {
    c == '\'' || c == '"'
  }

  /** `strip("'\"")` */
  function Unquote(s: string): string
    decreases |s|
  {
    if s != [] && IsQuote(s[0]) then Unquote(s[1..])
    else if s != [] && IsQuote(s[|s| - 1]) then Unquote(s[..|s| - 1])
    else s
  }

  datatype Setting = Setting(key: string, value: string)

  /** What one line says to `read_env`. */
  function EntryOf(line: string): Option<Setting> {
    var s := Strip(line);
    var i := IndexOf(s, '=');
    if s == [] || s[0] == '#' || i == |s| then None
    else Some(Setting(Strip(s[..i]), Unquote(Strip(s[i + 1..]))))
  }

  // What one line says, for every key and value.

  /** A name as it may stand before `=`. */
  ghost predicate KeyText(key: string) {
    key != [] && Tight(key) && '=' !in key && key[0] != '#'
  }

  lemma SettingApart(key: string, tail: string)
    requires KeyText(key) && tail != [] && !IsSpace(tail[|tail| - 1])
    ensures var line := key + "=" + tail;
            && Strip(line) == line && IndexOf(line, '=') == |key|
            && line[..|key|] == key && line[|key| + 1..] == tail && line[0] != '#'
  {
    var line := key + "=" + tail;
    StripTight(line);
    assert line == key + ("=" + tail);
    IndexFirst(key, '=', "=" + tail);
  }

  /** A value that neither begins nor ends with a space or quote is taken as it is, further equals signs and all. */
  lemma PlainSetting(key: string, value: string)
    requires KeyText(key) && value != [] && Tight(value) && Unquoted(value)
    ensures EntryOf(key + "=" + value) == Some(Setting(key, value))
  {
    SettingApart(key, value);
    StripTight(key);
    StripTight(value);
  }

  /** No quote at either end. */
  ghost predicate Unquoted(value: string) {
    value != [] ==> value[0] !in {'"', '\''} && value[|value| - 1] !in {'"', '\''}
  }

  lemma FirstQuoteGoes(q: char, rest: string)
    requires IsQuote(q)
    ensures Unquote([q] + rest) == Unquote(rest)
  {
    assert ([q] + rest)[1..] == rest;
  }

  lemma LastQuoteGoes(value: string, q: char)
    requires IsQuote(q) && Unquoted(value)
    ensures Unquote(value + [q]) == value
  {
    if value == [] {
      assert value + [q] == [q] + [];
      FirstQuoteGoes(q, []);
    } else {
      assert (value + [q])[0] == value[0] && (value + [q])[..|value|] == value;
    }
  }

  lemma QuotesGo(value: string, q: char)
    requires IsQuote(q) && Unquoted(value)
    ensures Unquote([q] + value + [q]) == value
  {
    assert [q] + value + [q] == [q] + (value + [q]);
    FirstQuoteGoes(q, value + [q]);
    LastQuoteGoes(value, q);
  }

  /** In quotes of either kind the value is what stands between them, spaces too. */
  lemma QuotedSetting(key: string, value: string, q: char)
    requires KeyText(key) && (q == '"' || q == '\'') && Unquoted(value)
    ensures EntryOf(key + "=" + ([q] + value + [q])) == Some(Setting(key, value))
  {
    var tail := [q] + value + [q];
    assert tail[0] == q && tail[|tail| - 1] == q && !IsSpace(q);
    SettingApart(key, tail);
    StripTight(key);
    StripTight(tail);
    QuotesGo(value, q);
  }

  /** Blank lines, comments and lines without an equals sign say nothing to the reader. */
  lemma NoSetting(line: string)
    ensures EntryOf(line) == None <==> Strip(line) == [] || Strip(line)[0] == '#' || '=' !in Strip(line)
  {
    IndexIn(Strip(line), '=');
  }

  ghost predicate UpperName(key: string) {
    && key != [] && 'A' <= key[0] <= 'Z'
    && forall i :: 0 <= i < |key| ==> 'A' <= key[i] <= 'Z' || '0' <= key[i] <= '9' || key[i] == '_'
  }

  lemma UpperNameIsKey(key: string)
    ensures UpperName(key) <==> IsKey(key)
    ensures UpperName(key) ==> '=' !in key && !IsSpace(key[0])
  {
  }

  /** A key line is an upper-case name right before an equals sign, whatever follows. */
  lemma KeyLine(key: string, rest: string)
    requires UpperName(key)
    ensures KeyOf(key + "=" + rest) == Some(key)
  {
    var line := key + "=" + rest;
    UpperNameIsKey(key);
    assert line[|key|] == '=' && line[0] == key[0];
    SkipsSpace(line, 0, 0);
    TrimStops(line, 0, |line|, |key|);
    var s := Strip(line);
    assert s == line[..|s|] && |s| > |key|;
    assert s == key + s[|key|..];
    IndexFirst(key, '=', s[|key|..]);
    assert s[..|key|] == key;
  }

  /** And nothing else is. */
  lemma OnlyKeyLines(line: string)
    ensures KeyOf(line).Some? ==> UpperName(KeyOf(line).value) && KeyOf(line).value + "=" <= Strip(line)
  {
    var s := Strip(line);
    var i := IndexOf(s, '=');
    if KeyOf(line).Some? {
      UpperNameIsKey(s[..i]);
      assert s[..i] + "=" == s[..i + 1];
    }
  }

  /** A line together with what envsync and `read_env` make of it. */
  datatype Line = Line(raw: string, blank: bool, key: Option<string>, entry: Option<Setting>)

  type Lines = seq<Line>

  function Scan(raw: string): Line {
    Line(raw, Strip(raw) == [], KeyOf(raw), EntryOf(raw))
  }

  function ScanAll(raws: seq<string>): Lines {
    seq(|raws|, i requires 0 <= i < |raws| => Scan(raws[i]))
  }

  function Parse(text: string): Lines {
    ScanAll(SplitLines(text))
  }

  /** The settings a file amounts to: for each key the last line that sets it. */
  function Read(lines: Lines): map<string, string> {
    if lines == [] then map[]
    else
      var values, entry := Read(lines[..|lines| - 1]), lines[|lines| - 1].entry;
      if entry.None? then values else values[entry.value.key := entry.value.value]
  }

  /** `keys_of` */
  function Keys(lines: Lines): set<string> {
    if lines == [] then {}
    else
      var keys, key := Keys(lines[..|lines| - 1]), lines[|lines| - 1].key;
      if key.None? then keys else keys + {key.value}
  }

  lemma {:induction false} ReadConcat(a: Lines, b: Lines)
    ensures Read(a + b) == Read(a) + Read(b)
    ensures Keys(a + b) == Keys(a) + Keys(b)
    decreases |b|
  {
    if b == [] {
      assert a + b == a;
    } else {
      assert (a + b)[..|a + b| - 1] == a + b[..|b| - 1];
      ReadConcat(a, b[..|b| - 1]);
    }
  }

  lemma ScanConcat(a: seq<string>, b: seq<string>)
    ensures ScanAll(a + b) == ScanAll(a) + ScanAll(b)
  {
  }

  lemma ScanNext(raws: seq<string>, i: nat)
    requires i < |raws|
    ensures ScanAll(raws[..i + 1]) == ScanAll(raws[..i]) + [Scan(raws[i])]
  {
  }

  lemma ReadNext(before: Lines, line: Line)
    ensures Read(before + [line]) ==
              if line.entry.None? then Read(before) else Read(before)[line.entry.value.key := line.entry.value.value]
    ensures Keys(before + [line]) == if line.key.None? then Keys(before) else Keys(before) + {line.key.value}
  {
  }

  method ReadEnv(text: string) returns (values: map<string, string>)
    ensures values == Read(Parse(text))
  {
    var raws := SplitLines(text);
    values := map[];
    for i := 0 to |raws|
      invariant values == Read(ScanAll(raws[..i]))
    {
      ScanNext(raws, i);
      var line := Scan(raws[i]);
      ReadNext(ScanAll(raws[..i]), line);
      if line.entry.Some? {
        values := values[line.entry.value.key := line.entry.value.value];
      }
    }
    assert raws[..|raws|] == raws;
  }

  /** A key line says the same to both readers. */
  ghost predicate Sound(line: Line) {
    line.key.Some? ==> !line.blank && line.entry.Some? && line.entry.value.key == line.key.value
  }

  lemma ScanIsSound(raw: string)
    ensures Sound(Scan(raw))
  {
  }

  // ---------------------------------------------------------------------- blocks

  datatype Block = Block(key: string, lines: Lines)

  predicate IsComment(line: Line) {
    !line.blank && line.key.None?
  }

  /** The comment lines a text ends in. */
  function Trail(lines: Lines): Lines {
    if lines == [] || !IsComment(lines[|lines| - 1]) then []
    else Trail(lines[..|lines| - 1]) + [lines[|lines| - 1]]
  }

  /** One block per key line: the comments right above it, and the line itself. */
  function Blocks(lines: Lines): seq<Block> {
    if lines == [] then []
    else
      var before, line := lines[..|lines| - 1], lines[|lines| - 1];
      if line.key.None? then Blocks(before) else Blocks(before) + [Block(line.key.value, Trail(before) + [line])]
  }

  lemma BlocksNext(before: Lines, line: Line)
    requires Sound(line)
    ensures Blocks(before + [line]) ==
              if line.key.None? then Blocks(before) else Blocks(before) + [Block(line.key.value, Trail(before) + [line])]
    ensures Trail(before + [line]) == if line.key.Some? || line.blank then [] else Trail(before) + [line]
  {
  }

  method BlocksOf(text: string) returns (blocks: seq<Block>)
    ensures blocks == Blocks(Parse(text))
  {
    var raws := SplitLines(text);
    blocks := [];
    var comment: Lines := [];
    for i := 0 to |raws|
      invariant blocks == Blocks(ScanAll(raws[..i]))
      invariant comment == Trail(ScanAll(raws[..i]))
    {
      ScanNext(raws, i);
      var line := Scan(raws[i]);
      ScanIsSound(raws[i]);
      BlocksNext(ScanAll(raws[..i]), line);
      if line.key.Some? {
        blocks := blocks + [Block(line.key.value, comment + [line])];
        comment := [];
      } else if line.blank {
        comment := [];
      } else {
        comment := comment + [line];
      }
    }
    assert raws[..|raws|] == raws;
  }

  lemma {:induction false} TrailIsSuffix(lines: Lines)
    ensures |Trail(lines)| <= |lines| && Trail(lines) == lines[|lines| - |Trail(lines)|..]
    decreases |lines|
  {
    if lines == [] || !IsComment(lines[|lines| - 1]) {
    } else {
      var before, last := lines[..|lines| - 1], lines[|lines| - 1];
      TrailIsSuffix(before);
      SuffixExtended(before, last, |before| - |Trail(before)|);
      assert lines == before + [last];
    }
  }

  lemma SuffixExtended(before: Lines, last: Line, start: nat)
    requires start <= |before|
    ensures (before + [last])[start..] == before[start..] + [last]
  {
  }

  lemma {:induction false} TrailIsMaximal(lines: Lines)
    ensures |Trail(lines)| <= |lines|
    ensures var start := |lines| - |Trail(lines)|;
            && (forall i :: start <= i < |lines| ==> IsComment(lines[i]))
            && (start > 0 ==> !IsComment(lines[start - 1]))
    decreases |lines|
  {
    if lines == [] || !IsComment(lines[|lines| - 1]) {
    } else {
      TrailIsMaximal(lines[..|lines| - 1]);
    }
  }

  /** Lines `from` to `to` are a key line and all the comments right above it. */
  ghost predicate IsBlockAt(lines: Lines, from: int, to: int, block: Block) {
    && 0 <= from <= to < |lines|
    && block.lines == lines[from..to + 1]
    && lines[to].key == Some(block.key)
    && (forall i :: from <= i < to ==> IsComment(lines[i]))
    && (from > 0 ==> !IsComment(lines[from - 1]))
  }

  lemma BlockAtLater(lines: Lines, n: nat, from: int, to: int, block: Block)
    requires n <= |lines| && IsBlockAt(lines[..n], from, to, block)
    ensures IsBlockAt(lines, from, to, block)
  {
  }

  lemma LastBlock(before: Lines, line: Line)
    requires line.key.Some?
    ensures IsBlockAt(before + [line], |before| - |Trail(before)|, |before|, Block(line.key.value, Trail(before) + [line]))
  {
    var start := |before| - |Trail(before)|;
    TrailIsSuffix(before);
    TrailIsMaximal(before);
    SuffixExtended(before, line, start);
    assert (before + [line])[start..|before| + 1] == (before + [line])[start..];
  }

  lemma BlocksLater(lines: Lines)
    requires lines != []
    ensures forall b :: b in Blocks(lines[..|lines| - 1]) ==> b in Blocks(lines)
  {
  }

  /** Every block is a maximal run of comments with its key line ... */
  lemma {:induction false} BlocksSound(lines: Lines, b: Block)
    requires b in Blocks(lines)
    ensures exists from, to :: IsBlockAt(lines, from, to, b)
    decreases |lines|
  {
    var n := |lines| - 1;
    if b in Blocks(lines[..n]) {
      BlocksSound(lines[..n], b);
      var from, to :| IsBlockAt(lines[..n], from, to, b);
      BlockAtLater(lines, n, from, to, b);
    } else {
      LastBlock(lines[..n], lines[n]);
      assert lines == lines[..n] + [lines[n]];
    }
  }

  /** ... and every key line has one. */
  lemma {:induction false} BlocksComplete(lines: Lines, to: nat)
    requires to < |lines| && lines[to].key.Some?
    ensures exists b, from :: b in Blocks(lines) && IsBlockAt(lines, from, to, b)
    decreases |lines|
  {
    var n := |lines| - 1;
    if to < n {
      BlocksComplete(lines[..n], to);
      var b, from :| b in Blocks(lines[..n]) && IsBlockAt(lines[..n], from, to, b);
      BlockAtLater(lines, n, from, to, b);
      BlocksLater(lines);
    } else {
      LastBlock(lines[..n], lines[n]);
      assert lines == lines[..n] + [lines[n]];
      assert Block(lines[n].key.value, Trail(lines[..n]) + [lines[n]]) in Blocks(lines);
    }
  }

  // ------------------------------------------------------------------- the merge

  function Missing(blocks: seq<Block>, have: set<string>): seq<Block> {
    if blocks == [] then []
    else
      var kept, last := Missing(blocks[..|blocks| - 1], have), blocks[|blocks| - 1];
      if last.key in have then kept else kept + [last]
  }

  const BLANK := Line("", true, None, None)

  lemma BlankScanned()
    ensures Scan("") == BLANK
  {
  }

  /** The lines the missing blocks contribute, each block after an empty line. */
  function Spread(blocks: seq<Block>): Lines {
    if blocks == [] then [] else Spread(blocks[..|blocks| - 1]) + ([BLANK] + blocks[|blocks| - 1].lines)
  }

  function Raw(lines: Lines): seq<string> {
    seq(|lines|, i requires 0 <= i < |lines| => lines[i].raw)
  }

  /** The dated comment line that heads what is added. */
  predicate IsHeader(header: string) {
    OneLine(header) && header != [] && header[0] == '#' && !IsSpace(header[|header| - 1])
  }

  function HeaderLine(header: string): Line {
    Line(header, false, None, None)
  }

  function MissingFrom(env: string, example: string): seq<Block> {
    Missing(Blocks(Parse(example)), Keys(Parse(env)))
  }

  function Merge(env: string, example: string, header: string): string {
    var missing := MissingFrom(env, example);
    if missing == [] then env else env + (Join(["", "", header] + Raw(Spread(missing))) + "\n")
  }

  lemma SpreadNext(blocks: seq<Block>, i: nat)
    requires i < |blocks|
    ensures Raw(Spread(blocks[..i + 1])) == Raw(Spread(blocks[..i])) + ([""] + Raw(blocks[i].lines))
  {
    assert blocks[..i + 1][..i] == blocks[..i];
  }

  class EnvFile {
    var text: string

    constructor (text: string)
      ensures this.text == text
    {
      this.text := text;
    }

    /** `envsync`, which writes only when `apply` is given and something is missing. */
    method Sync(example: string, header: string, apply: bool) returns (missing: seq<Block>)
      modifies this
      ensures missing == MissingFrom(old(text), example)
      ensures text == if apply then Merge(old(text), example, header) else old(text)
    {
      var have := Keys(Parse(text));
      var blocks := BlocksOf(example);
      missing := Missing(blocks, have);
      if missing == [] || !apply {
        return;
      }
      var added := AddedLines(missing, header);
      text := text + (Join(added) + "\n");
    }
  }

  method AddedLines(missing: seq<Block>, header: string) returns (added: seq<string>)
    ensures added == ["", "", header] + Raw(Spread(missing))
  {
    added := ["", "", header];
    for i := 0 to |missing|
      invariant added == ["", "", header] + Raw(Spread(missing[..i]))
    {
      SpreadNext(missing, i);
      added := added + ([""] + Raw(missing[i].lines));
    }
    assert missing[..|missing|] == missing;
  }

  // --------------------------------------------------- the merged file, line by line

  /** A line that was scanned from one line of text. */
  ghost predicate Scanned(line: Line) {
    OneLine(line.raw) && line == Scan(line.raw)
  }

  ghost predicate AllScanned(lines: Lines) {
    forall i :: 0 <= i < |lines| ==> Scanned(lines[i])
  }

  lemma {:induction false} SplitLinesAreOneLine(s: string)
    ensures forall i :: 0 <= i < |SplitLines(s)| ==> OneLine(SplitLines(s)[i])
    decreases |s|
  {
    if s == [] {
    } else {
      LineEndSkips(s);
      if LineEnd(s) < |s| {
        SplitLinesAreOneLine(s[LineEnd(s) + 1..]);
      }
    }
  }

  lemma ParseIsScanned(text: string)
    ensures AllScanned(Parse(text))
  {
    SplitLinesAreOneLine(text);
  }

  lemma ScannedAgain(lines: Lines)
    requires AllScanned(lines)
    ensures ScanAll(Raw(lines)) == lines
    ensures forall i :: 0 <= i < |Raw(lines)| ==> OneLine(Raw(lines)[i])
  {
  }

  /** What is added consists of lines of the example and empty lines. */
  lemma {:induction false} SpreadLines(lines: Lines, have: set<string>, l: Line)
    requires l in Spread(Missing(Blocks(lines), have))
    ensures l in lines || l == BLANK
    decreases |lines|
  {
    var n := |lines| - 1;
    SpreadStep(lines, have);
    if l in Spread(Missing(Blocks(lines[..n]), have)) {
      SpreadLines(lines[..n], have, l);
    } else if l in Trail(lines[..n]) {
      TrailIsSuffix(lines[..n]);
      assert l in lines[..n];
    }
  }

  lemma SpreadIsScanned(lines: Lines, have: set<string>)
    requires AllScanned(lines)
    ensures AllScanned(Spread(Missing(Blocks(lines), have)))
  {
    var spread := Spread(Missing(Blocks(lines), have));
    BlankScanned();
    assert Scanned(BLANK);
    forall i | 0 <= i < |spread| ensures Scanned(spread[i]) {
      SpreadLines(lines, have, spread[i]);
      if spread[i] in lines {
        var j :| 0 <= j < |lines| && lines[j] == spread[i];
        assert Scanned(lines[j]);
      }
    }
  }

  /** How the last line of the example shows up in what is added. */
  lemma SpreadStep(lines: Lines, have: set<string>)
    requires lines != []
    ensures var n := |lines| - 1;
            var spread, line := Spread(Missing(Blocks(lines[..n]), have)), lines[n];
            Spread(Missing(Blocks(lines), have)) ==
              if line.key.None? || line.key.value in have then spread
              else spread + ([BLANK] + (Trail(lines[..n]) + [line]))
  {
  }

  /** The old lines, untouched and first, then what was added. */
  lemma MergedLines(env: string, example: string, header: string)
    requires IsHeader(header)
    ensures var missing := MissingFrom(env, example);
            Parse(Merge(env, example, header)) ==
              if missing == [] then Parse(env)
              else Parse(env) + (ScanAll(Gap(env)) + [BLANK, HeaderLine(header)] + Spread(missing))
  {
    var missing := MissingFrom(env, example);
    if missing != [] {
      AppendedText(env, header, missing, example);
      HeadScanned(header);
      Regroup(Parse(env), ScanAll(Gap(env)), [BLANK, HeaderLine(header)], Spread(missing));
    }
  }

  lemma HeadScanned(header: string)
    requires IsHeader(header)
    ensures ScanAll(["", header]) == [BLANK, HeaderLine(header)]
  {
  }

  lemma AppendedText(env: string, header: string, missing: seq<Block>, example: string)
    requires IsHeader(header) && missing == MissingFrom(env, example)
    ensures Parse(env + (Join(["", "", header] + Raw(Spread(missing))) + "\n"))
         == Parse(env) + ScanAll(Gap(env)) + (ScanAll(["", header]) + Spread(missing))
  {
    var more := Raw(Spread(missing));
    ParseIsScanned(example);
    SpreadIsScanned(Parse(example), Keys(Parse(env)));
    ScannedAgain(Spread(missing));
    AppendedLines(env, header, more);
    ScanConcat(SplitLines(env) + Gap(env), ["", header] + more);
    ScanConcat(SplitLines(env), Gap(env));
    ScanConcat(["", header], more);
  }

  lemma AppendedLines(env: string, header: string, more: seq<string>)
    requires OneLine(header) && forall i :: 0 <= i < |more| ==> OneLine(more[i])
    ensures SplitLines(env + (Join(["", "", header] + more) + "\n")) == SplitLines(env) + Gap(env) + (["", header] + more)
  {
    var tail, added := ["", header] + more, ["", "", header] + more;
    assert added[1..] == tail;
    assert Join(added) == "" + "\n" + Join(tail);
    assert env + (Join(added) + "\n") == env + "\n" + (Join(tail) + "\n");
    SplitAppended(env, Join(tail) + "\n");
    SplitJoin(tail);
  }

  // ------------------------------------------------------------------ its meaning

  /** Every line `read_env` takes a value from has the form `KEY=`; all comments start with `#`. */
  ghost predicate Canonical(lines: Lines) {
    forall i :: 0 <= i < |lines| && lines[i].entry.Some? ==> lines[i].key.Some?
  }

  ghost predicate AllSound(lines: Lines) {
    forall i :: 0 <= i < |lines| ==> Sound(lines[i])
  }

  lemma ParseIsSound(text: string)
    ensures AllSound(Parse(text))
  {
    forall i | 0 <= i < |Parse(text)| ensures Sound(Parse(text)[i]) {
      ScanIsSound(SplitLines(text)[i]);
    }
  }

  lemma {:induction false} CanonicalKeys(lines: Lines)
    requires Canonical(lines) && AllSound(lines)
    ensures Read(lines).Keys == Keys(lines)
    decreases |lines|
  {
    if lines == [] {
    } else {
      CanonicalKeys(lines[..|lines| - 1]);
      assert Sound(lines[|lines| - 1]);
    }
  }

  /** Comments, blank lines: neither reader takes anything from them. */
  ghost predicate Silent(lines: Lines) {
    Keys(lines) == {} && Read(lines) == map[]
  }

  lemma {:induction false} TrailSaysNothing(lines: Lines)
    ensures Keys(Trail(lines)) == {}
    ensures Canonical(lines) ==> Silent(Trail(lines))
    decreases |lines|
  {
    if lines == [] || !IsComment(lines[|lines| - 1]) {
    } else {
      var before := lines[..|lines| - 1];
      TrailSaysNothing(before);
      assert Trail(lines)[..|Trail(lines)| - 1] == Trail(before);
      assert Canonical(lines) ==> Canonical(before);
    }
  }

  lemma SingleLine(line: Line)
    ensures Keys([line]) == if line.key.Some? then {line.key.value} else {}
    ensures Read([line]) == if line.entry.Some? then map[line.entry.value.key := line.entry.value.value] else map[]
  {
  }

  lemma BlankSaysNothing()
    ensures Silent([BLANK])
  {
  }

  lemma HeaderSaysNothing(header: string)
    ensures Silent([HeaderLine(header)])
  {
  }

  lemma BlockSays(before: Lines, line: Line)
    requires Sound(line) && line.key.Some?
    ensures Keys([BLANK] + (Trail(before) + [line])) == {line.key.value}
    ensures Canonical(before) ==> Read([BLANK] + (Trail(before) + [line])) == Read([line])
  {
    BlankSaysNothing();
    TrailSaysNothing(before);
    SingleLine(line);
    ReadConcat([BLANK], Trail(before) + [line]);
    ReadConcat(Trail(before), [line]);
  }

  lemma SpreadExtended(spread: Lines, before: Lines, line: Line)
    requires Sound(line) && line.key.Some?
    ensures var extended := spread + ([BLANK] + (Trail(before) + [line]));
            && Keys(extended) == Keys(spread) + {line.key.value}
            && (Canonical(before) ==> Read(extended) == Read(spread)[line.key.value := line.entry.value.value])
  {
    BlockSays(before, line);
    SingleLine(line);
    ReadConcat(spread, [BLANK] + (Trail(before) + [line]));
  }

  /** What the added blocks say: the example's keys that were not there ... */
  lemma {:induction false} SpreadKeys(lines: Lines, have: set<string>)
    requires AllSound(lines)
    ensures Keys(Spread(Missing(Blocks(lines), have))) == Keys(lines) - have
    decreases |lines|
  {
    if lines == [] {
    } else {
      var n := |lines| - 1;
      SpreadKeys(lines[..n], have);
      SpreadStep(lines, have);
      if lines[n].key.Some? {
        NewKey(Keys(lines[..n]), lines[n].key.value, have);
        if lines[n].key.value !in have {
          SpreadExtended(Spread(Missing(Blocks(lines[..n]), have)), lines[..n], lines[n]);
        }
      }
    }
  }

  lemma NewKey(keys: set<string>, k: string, have: set<string>)
    ensures keys + {k} - have == if k in have then keys - have else (keys - have) + {k}
  {
  }

  lemma NewSetting(m: map<string, string>, k: string, v: string, have: set<string>)
    ensures m[k := v] - have == if k in have then m - have else (m - have)[k := v]
  {
  }

  lemma CanonicalStep(lines: Lines)
    requires lines != [] && AllSound(lines) && Canonical(lines)
    ensures var n := |lines| - 1;
            && AllSound(lines[..n]) && Canonical(lines[..n])
            && (lines[n].key.Some? <==> lines[n].entry.Some?)
            && (lines[n].key.Some? ==> lines[n].entry.value.key == lines[n].key.value)
            && Read(lines) == if lines[n].key.None? then Read(lines[..n]) else Read(lines[..n])[lines[n].key.value := lines[n].entry.value.value]
  {
    assert Sound(lines[|lines| - 1]);
  }

  /** ... with the example's last values. */
  lemma {:induction false} SpreadReads(lines: Lines, have: set<string>)
    requires AllSound(lines) && Canonical(lines)
    ensures Read(Spread(Missing(Blocks(lines), have))) == Read(lines) - have
    decreases |lines|
  {
    if lines == [] {
    } else {
      var n := |lines| - 1;
      var before, line := lines[..n], lines[n];
      CanonicalStep(lines);
      SpreadReads(before, have);
      SpreadStep(lines, have);
      if line.key.Some? {
        assert Sound(line);
        NewSetting(Read(before), line.key.value, line.entry.value.value, have);
        if line.key.value !in have {
          SpreadExtended(Spread(Missing(Blocks(before), have)), before, line);
        }
      }
    }
  }

  lemma TailSays(gap: Lines, header: string, spread: Lines)
    requires gap == [] || gap == [BLANK]
    ensures var tail := gap + [BLANK, HeaderLine(header)] + spread;
            Keys(tail) == Keys(spread) && Read(tail) == Read(spread)
  {
    BlankSaysNothing();
    HeaderSaysNothing(header);
    assert [BLANK, HeaderLine(header)] == [BLANK] + [HeaderLine(header)];
    ReadConcat(gap + [BLANK, HeaderLine(header)], spread);
    ReadConcat(gap, [BLANK, HeaderLine(header)]);
    ReadConcat([BLANK], [HeaderLine(header)]);
  }

  /** The same about lines alone: old lines, an optional empty one, and what the missing blocks contribute. */
  lemma MergedSays(was: Lines, lines: Lines, gap: Lines, header: string)
    requires AllSound(lines) && (gap == [] || gap == [BLANK])
    ensures var missing := Missing(Blocks(lines), Keys(was));
            var merged := if missing == [] then was else was + (gap + [BLANK, HeaderLine(header)] + Spread(missing));
            && Keys(merged) == Keys(was) + Keys(lines)
            && Read(merged) == Read(was) + Read(Spread(missing))
            && (Canonical(lines) ==> Read(Spread(missing)) == Read(lines) - Keys(was))
  {
    var missing := Missing(Blocks(lines), Keys(was));
    SpreadKeys(lines, Keys(was));
    if Canonical(lines) {
      SpreadReads(lines, Keys(was));
    }
    if missing == [] {
      NothingAdded(was, Keys(lines), Keys(was));
    } else {
      TailSays(gap, header, Spread(missing));
      ReadConcat(was, gap + [BLANK, HeaderLine(header)] + Spread(missing));
    }
  }

  /** What a reader takes from the blocks that are missing, comments and all. */
  function Added(env: string, example: string): map<string, string> {
    Read(Spread(MissingFrom(env, example)))
  }

  /**
   The meaning of the merged file, for every two files: what `.env` meant before,
   overlaid with what the missing blocks say, which for a canonical example are
   its settings for the keys envsync did not see.
   */
  lemma MergeMeans(env: string, example: string, header: string)
    requires IsHeader(header)
    ensures Keys(Parse(Merge(env, example, header))) == Keys(Parse(env)) + Keys(Parse(example))
    ensures Read(Parse(Merge(env, example, header))) == Read(Parse(env)) + Added(env, example)
    ensures Canonical(Parse(example)) ==> Added(env, example) == Read(Parse(example)) - Keys(Parse(env))
  {
    MergedLines(env, example, header);
    ParseIsSound(example);
    BlankScanned();
    var gap := ScanAll(Gap(env));
    assert gap == [] || gap == [BLANK];
    MergedSays(Parse(env), Parse(example), gap, header);
  }

  lemma NothingAdded(was: Lines, keys: set<string>, have: set<string>)
    requires {} == keys - have
    ensures have == have + keys
    ensures Read(was) + map[] == Read(was)
  {
    forall k | k in keys ensures k in have {
      assert k !in keys - have;
    }
  }

  /** With both files in canonical form no old value changes and every missing key arrives. */
  lemma MergePreservesMeaning(env: string, example: string, header: string)
    requires IsHeader(header) && Canonical(Parse(env)) && Canonical(Parse(example))
    ensures var before, sample, after := Read(Parse(env)), Read(Parse(example)), Read(Parse(Merge(env, example, header)));
            && after.Keys == before.Keys + sample.Keys
            && (forall k :: k in before ==> after[k] == before[k])
            && (forall k :: k in sample && k !in before ==> after[k] == sample[k])
  {
    MergeMeans(env, example, header);
    ParseIsSound(env);
    CanonicalKeys(Parse(env));
  }

  /**
   Exactly when an arbitrary `.env` keeps its values, whatever the example: no
   setting it has is given another value by the blocks it misses. With a
   canonical example these are settings `.env` spells in a form that envsync does
   not recognise.
   */
  lemma ValuesKeptExactlyWhen(env: string, example: string, header: string)
    requires IsHeader(header)
    ensures var before, added, after := Read(Parse(env)), Added(env, example), Read(Parse(Merge(env, example, header)));
            (forall k :: k in before ==> k in after && after[k] == before[k])
            <==> (forall k :: k in before && k in added ==> added[k] == before[k])
    ensures Canonical(Parse(example)) ==>
              var sample := Read(Parse(example));
              Added(env, example) == map k | k in sample && k !in Keys(Parse(env)) :: sample[k]
  {
    MergeMeans(env, example, header);
    var before, added := Read(Parse(env)), Added(env, example);
    forall k | k in before && k in added ensures (before + added)[k] == added[k] {
    }
  }

  lemma {:induction false} NothingMissing(blocks: seq<Block>, have: set<string>)
    requires forall b :: b in blocks ==> b.key in have
    ensures Missing(blocks, have) == []
    decreases |blocks|
  {
    if blocks == [] {
    } else {
      NothingMissing(blocks[..|blocks| - 1], have);
    }
  }

  lemma {:induction false} BlockKeys(lines: Lines)
    ensures forall b :: b in Blocks(lines) ==> b.key in Keys(lines)
    ensures forall k :: k in Keys(lines) ==> exists b :: b in Blocks(lines) && b.key == k
    decreases |lines|
  {
    if lines == [] {
    } else {
      var n := |lines| - 1;
      BlockKeys(lines[..n]);
      assert forall b :: b in Blocks(lines[..n]) ==> b in Blocks(lines);
      if lines[n].key.Some? {
        assert Block(lines[n].key.value, Trail(lines[..n]) + [lines[n]]) in Blocks(lines);
      }
    }
  }

  /** A second run finds nothing missing and leaves the file alone. */
  lemma MergeTwice(env: string, example: string, header: string, later: string)
    requires IsHeader(header)
    ensures MissingFrom(Merge(env, example, header), example) == []
    ensures Merge(Merge(env, example, header), example, later) == Merge(env, example, header)
  {
    MergeMeans(env, example, header);
    BlockKeys(Parse(example));
    NothingMissing(Blocks(Parse(example)), Keys(Parse(Merge(env, example, header))));
  }

  // ---------------------------------------------------- why the form of a line matters

  lemma OneLineText(line: string)
    requires OneLine(line) && line != []
    ensures Parse(line) == [Scan(line)]
  {
    SplitOnly(line);
  }

  lemma SpacedParts()
    ensures Strip("K =v") == "K =v" && IndexOf("K =v", '=') == 2 && "K =v"[..2] == "K " && "K =v"[3..] == "v"
  {
    StripTight("K =v");
    IndexFirst("K ", '=', "=v");
    assert "K =v" == "K " + "=v";
  }

  lemma SpacedLine()
    ensures Scan("K =v") == Line("K =v", false, None, Some(Setting("K", "v")))
  {
    SpacedParts();
    assert !KeyPart("K "[1]);
    assert Strip("K ") == "K "[..1] == "K";
    StripTight("v");
  }

  lemma SpacedReads()
    ensures Read(Parse("K =v")) == map["K" := "v"] && Keys(Parse("K =v")) == {}
  {
    OneLineText("K =v");
    SpacedLine();
    SingleLine(Scan("K =v"));
  }

  lemma SampleParts()
    ensures Strip("K=w") == "K=w" && IndexOf("K=w", '=') == 1 && "K=w"[..1] == "K" && "K=w"[2..] == "w"
  {
    StripTight("K=w");
    IndexFirst("K", '=', "=w");
    assert "K=w" == "K" + "=w";
  }

  lemma SampleLine()
    ensures Scan("K=w") == Line("K=w", false, Some("K"), Some(Setting("K", "w")))
  {
    SampleParts();
    StripTight("K");
    StripTight("w");
  }

  lemma SampleReads()
    ensures Read(Parse("K=w")) == map["K" := "w"] && Canonical(Parse("K=w"))
  {
    OneLineText("K=w");
    SampleLine();
    SingleLine(Scan("K=w"));
  }

  /** A space before `=` hides the key from envsync but not from the reader, and the example wins. */
  lemma SpacedKeyIsOverwritten(header: string)
    requires IsHeader(header)
    ensures Read(Parse("K =v")) == map["K" := "v"]
    ensures Read(Parse(Merge("K =v", "K=w", header))) == map["K" := "w"]
  {
    SpacedReads();
    SampleReads();
    HiddenKeyIsOverwritten("K =v", "K=w", header, "K", "v", "w");
  }

  lemma HiddenKeyIsOverwritten(env: string, example: string, header: string, k: string, v: string, w: string)
    requires IsHeader(header) && Canonical(Parse(example))
    requires Read(Parse(env)) == map[k := v] && Keys(Parse(env)) == {} && Read(Parse(example)) == map[k := w]
    ensures Read(Parse(Merge(env, example, header))) == map[k := w]
  {
    MergeMeans(env, example, header);
  }
}
