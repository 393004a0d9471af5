/** The streaming status parser (setup/lib/runner.ts, `StatusStream`) and the printer it reads
    (setup/status.ts, `emitStatus`). */
module StatusStream {
  import opened Prelude

  // ---- Text primitives of the parser ----

  /** JavaScript's `\s`, the characters `trim` removes. */
  predicate IsSpace(c: char) {
    || c in "\t\n\r " || c == 0x0b as char || c == 0x0c as char || c == 0xa0 as char
    || c == 0x1680 as char || 0x2000 as char <= c <= 0x200a as char || c == 0x2028 as char
    || c == 0x2029 as char || c == 0x202f as char || c == 0x205f as char || c == 0x3000 as char
    || c == 0xfeff as char
  }

  function TrimLeft(s: string): (t: string)
    ensures t == "" || !IsSpace(t[0])
    ensures forall c :: c in t ==> c in s
    ensures s != "" && !IsSpace(s[0]) ==> t == s
  {
    if s != "" && IsSpace(s[0]) then TrimLeft(s[1..]) else s
  }

  function TrimRight(s: string): (t: string)
    ensures t <= s
    ensures t == "" || !IsSpace(t[|t| - 1])
    ensures s != "" && !IsSpace(s[|s| - 1]) ==> t == s
  {
    if s != "" && IsSpace(s[|s| - 1]) then TrimRight(s[..|s| - 1]) else s
  }

  function Trim(s: string): (t: string) {
    TrimRight(TrimLeft(s))
  }

  predicate Trimmed(s: string) {
    s == "" || (!IsSpace(s[0]) && !IsSpace(s[|s| - 1]))
  }

  lemma TrimFacts(s: string)
    ensures Trimmed(Trim(s))
    ensures forall c :: c in Trim(s) ==> c in s
    ensures Trimmed(s) ==> Trim(s) == s
  {
    var left := TrimLeft(s);
    var both := TrimRight(left);
    assert both <= left;
    if both != "" {
      assert both[0] == left[0];
    }
  }

  /** Length of the longest prefix without white space: the `\S+` of the start marker. */
  function SolidRun(s: string): (n: nat)
    ensures n <= |s|
    ensures forall i :: 0 <= i < n ==> !IsSpace(s[i])
    ensures n < |s| ==> IsSpace(s[n])
  {
    if s == "" || IsSpace(s[0]) then 0 else 1 + SolidRun(s[1..])
  }

  const START_PREFIX := "=== NANOCLAW SETUP: "
  const START_SUFFIX := " ==="
  const END_MARKER := "=== END ==="

  /** The solid text between `prefix`, at the start of the line, and `suffix`, which a space begins. */
  function Enclosed(line: string, prefix: string, suffix: string): (r: Option<string>)
    ensures r.Some? ==> r.value != "" && forall c :: c in r.value ==> !IsSpace(c)
  {
    if prefix <= line then
      var rest := line[|prefix|..];
      var n := SolidRun(rest);
      if n > 0 && suffix <= rest[n..] then Some(rest[..n]) else None
    else None
  }

  function IndexOf(s: string, c: char): (i: nat)
    ensures i <= |s|
    ensures i < |s| ==> s[i] == c
    ensures c !in s[..i]
  {
    if s == "" || s[0] == c then 0
    else
      var j := IndexOf(s[1..], c);
      assert s[..j + 1] == [s[0]] + s[1..][..j];
      1 + j
  }

  // ---- The parser as a value ----

  /** What one line is to the parser. */
  datatype Line = Start(kind: string) | End | Field(key: string, value: string) | Plain

  /** The branches of `processLine`. A start marker matches `/^=== NANOCLAW SETUP: (\S+) ===/`. A key that
      trims to nothing is dropped, and so is `__proto__`: assigning a string to that property of a plain
      object leaves the object unchanged. */
  function Classify(line: string): Line {
    var start := Enclosed(line, START_PREFIX, START_SUFFIX);
    if start.Some? then Start(start.value)
    else if END_MARKER <= line then End
    else ClassifyField(line)
  }

  function ClassifyField(line: string): Line {
    var colon := IndexOf(line, ':');
    if colon == |line| then Plain
    else
      var key := Trim(line[..colon]);
      if key == "" || key == "__proto__" then Plain else Field(key, Trim(line[colon + 1..]))
  }

  function ClassifyAll(lines: seq<string>): seq<Line> {
    seq(|lines|, i requires 0 <= i < |lines| => Classify(lines[i]))
  }

  datatype Block = Block(kind: string, fields: map<string, string>)

  datatype Parser = Parser(current: Option<Block>, blocks: seq<Block>)

  const EMPTY_PARSER := Parser(None, [])

  function Step(p: Parser, line: Line): Parser {
    match line
    case Start(kind) => p.(current := Some(Block(kind, map[])))
    case End => if p.current.Some? then Parser(None, p.blocks + [p.current.value]) else p
    case Field(key, value) =>
      if p.current.Some? then
        var b := p.current.value;
        p.(current := Some(b.(fields := b.fields[key := value])))
      else p
    case Plain => p
  }

  function Fold(p: Parser, lines: seq<Line>): Parser
    decreases |lines|
  {
    if lines == [] then p else Fold(Step(p, lines[0]), lines[1..])
  }

  /** The lines of `s` that a newline ends, and what follows the last newline. */
  function FullLines(s: string): seq<string> {
    var pieces := Split(s, '\n');
    pieces[..|pieces| - 1]
  }

  function Partial(s: string): string {
    var pieces := Split(s, '\n');
    pieces[|pieces| - 1]
  }

  datatype Stream = Stream(parser: Parser, lineBuf: string, transcript: string)

  const FRESH := Stream(EMPTY_PARSER, "", "")

  /** The parser once it has read every complete line of `text`. */
  function Read(p: Parser, text: string): Parser {
    Fold(p, ClassifyAll(FullLines(text)))
  }

  /** One `write` call. */
  function Feed(s: Stream, chunk: string): Stream {
    var text := s.lineBuf + chunk;
    Stream(Read(s.parser, text), Partial(text), s.transcript + chunk)
  }

  function FeedAll(s: Stream, chunks: seq<string>): Stream
    decreases |chunks|
  {
    if chunks == [] then s else FeedAll(Feed(s, chunks[0]), chunks[1..])
  }

  // ---- The class ----

  class StatusStream {
    var lineBuf: string
    var current: Option<Block>
    var blocks: seq<Block>
    var transcript: string
    /** The blocks passed to the `onBlock` callback so far. */
    var announced: seq<Block>

    ghost function State(): Stream
      reads this
    {
      Stream(Parser(current, blocks), lineBuf, transcript)
    }

    constructor ()
      ensures State() == FRESH && announced == []
    {
      lineBuf, current, blocks, transcript, announced := "", None, [], "", [];
    }

    method Write(chunk: string)
      requires announced == blocks
      modifies this
      ensures State() == Feed(old(State()), chunk)
      ensures announced == blocks
    {
      transcript := transcript + chunk;
      lineBuf := lineBuf + chunk;
      ghost var text := lineBuf;
      ghost var begun := Parser(current, blocks);
      var idx := IndexOf(lineBuf, '\n');
      while idx < |lineBuf|
        invariant idx == IndexOf(lineBuf, '\n')
        invariant transcript == old(transcript) + chunk && announced == blocks
        invariant Read(Parser(current, blocks), lineBuf) == Read(begun, text)
        invariant Partial(lineBuf) == Partial(text)
        decreases |lineBuf|
      {
        ghost var p := Parser(current, blocks);
        NextLine(p, lineBuf);
        var line := lineBuf[..idx];
        lineBuf := lineBuf[idx + 1..];
        ProcessLine(line);
        assert Parser(current, blocks) == Step(p, Classify(line));
        idx := IndexOf(lineBuf, '\n');
      }
      NoMoreLines(Parser(current, blocks), lineBuf);
    }

    method ProcessLine(line: string)
      requires announced == blocks
      modifies `current, `blocks, `announced
      ensures Parser(current, blocks) == Step(old(Parser(current, blocks)), Classify(line))
      ensures announced == blocks
    {
      var start := Enclosed(line, "=== NANOCLAW SETUP: ", " ===");
      if start.Some? {
        current := Some(Block(start.value, map[]));
        return;
      }
      if "=== END ===" <= line {
        if current.Some? {
          blocks := blocks + [current.value];
          announced := announced + [current.value];
          current := None;
        }
        return;
      }
      if current.None? {
        return;
      }
      var colon := IndexOf(line, ':');
      if colon == |line| {
        return;
      }
      var key := Trim(line[..colon]);
      var value := Trim(line[colon + 1..]);
      if key != "" && key != "__proto__" {
        current := Some(current.value.(fields := current.value.fields[key := value]));
      }
    }
  }

  // ---- Chunking independence ----

  lemma {:induction false} SplitAtIndex(s: string)
    ensures
      var i := IndexOf(s, '\n');
      Split(s, '\n') == if i < |s| then [s[..i]] + Split(s[i + 1..], '\n') else [s]
  {
    if s != "" && s[0] != '\n' {
      SplitAtIndex(s[1..]);
      var i := IndexOf(s[1..], '\n');
      assert [s[0]] + s[1..] == s;
      if i < |s[1..]| {
        assert [s[0]] + s[1..][..i] == s[..i + 1];
        assert s[1..][i + 1..] == s[i + 2..];
      }
    }
  }

  lemma {:induction false} NextLine(p: Parser, s: string)
    requires IndexOf(s, '\n') < |s|
    ensures
      var i := IndexOf(s, '\n');
      && Read(p, s) == Read(Step(p, Classify(s[..i])), s[i + 1..])
      && Partial(s) == Partial(s[i + 1..])
  {
    var i := IndexOf(s, '\n');
    SplitAtIndex(s);
    var later := FullLines(s[i + 1..]);
    assert FullLines(s) == [s[..i]] + later;
    FoldFirst(p, s[..i], later);
  }

  lemma {:induction false} FoldFirst(p: Parser, line: string, later: seq<string>)
    ensures Fold(p, ClassifyAll([line] + later)) == Fold(Step(p, Classify(line)), ClassifyAll(later))
  {
    assert ClassifyAll([line] + later) == [Classify(line)] + ClassifyAll(later);
    assert ([Classify(line)] + ClassifyAll(later))[1..] == ClassifyAll(later);
  }

  lemma {:induction false} NoMoreLines(p: Parser, s: string)
    requires IndexOf(s, '\n') == |s|
    ensures Read(p, s) == p && Partial(s) == s
  {
    SplitAtIndex(s);
    assert ClassifyAll([]) == [];
  }

  /** Two lists of pieces as one: the last piece of `pa` and the first of `pb` become one piece. */
  function Glue(pa: seq<string>, pb: seq<string>): (r: seq<string>)
    requires pa != [] && pb != []
    ensures |r| == |pa| + |pb| - 1
  {
    pa[..|pa| - 1] + [pa[|pa| - 1] + pb[0]] + pb[1..]
  }

  lemma GlueCons(x: string, pa: seq<string>, pb: seq<string>)
    requires pa != [] && pb != []
    ensures Glue([x] + pa, pb) == [x] + Glue(pa, pb)
  {
  }

  lemma GlueHead(h: char, pa: seq<string>, pb: seq<string>)
    requires pa != [] && pb != []
    ensures Glue([[h] + pa[0]] + pa[1..], pb) == [[h] + Glue(pa, pb)[0]] + Glue(pa, pb)[1..]
  {
    if |pa| == 1 {
      assert [h] + (pa[0] + pb[0]) == [h] + pa[0] + pb[0];
    }
  }

  lemma {:induction false} SplitOfAppend(a: string, b: string, c: char)
    ensures Split(a + b, c) == Glue(Split(a, c), Split(b, c))
  {
    var pb := Split(b, c);
    if a == "" {
      assert a + b == b && "" + pb[0] == pb[0];
    } else {
      assert (a + b)[1..] == a[1..] + b;
      SplitOfAppend(a[1..], b, c);
      if a[0] == c {
        GlueCons("", Split(a[1..], c), pb);
      } else {
        GlueHead(a[0], Split(a[1..], c), pb);
      }
    }
  }

  /** Reading `a` and then `b` after what `a` left open sees the same lines as reading `a + b`. */
  lemma LinesOfAppend(a: string, b: string)
    ensures FullLines(a + b) == FullLines(a) + FullLines(Partial(a) + b)
    ensures Partial(a + b) == Partial(Partial(a) + b)
  {
    SplitOfAppend(a, b, '\n');
    PartialIsOnePiece(a);
    SplitOfAppend(Partial(a), b, '\n');
    GlueEnds(Split(a, '\n'), Split(b, '\n'));
  }

  lemma PartialIsOnePiece(s: string)
    ensures Split(Partial(s), '\n') == [Partial(s)]
  {
    JoinOfSplit(s, '\n');
    SplitWhole(Partial(s));
  }

  lemma GlueEnds(pa: seq<string>, pb: seq<string>)
    requires pa != [] && pb != []
    ensures
      var whole, last := Glue(pa, pb), Glue([pa[|pa| - 1]], pb);
      && whole[..|whole| - 1] == pa[..|pa| - 1] + last[..|last| - 1]
      && whole[|whole| - 1] == last[|last| - 1]
  {
    var last := Glue([pa[|pa| - 1]], pb);
    assert Glue(pa, pb) == pa[..|pa| - 1] + last;
  }

  lemma {:induction false} SplitWhole(s: string)
    requires '\n' !in s
    ensures Split(s, '\n') == [s]
  {
    SplitAtIndex(s);
  }

  lemma {:induction false} FoldOfAppend(p: Parser, a: seq<Line>, b: seq<Line>)
    ensures Fold(p, a + b) == Fold(Fold(p, a), b)
    decreases |a|
  {
    if a == [] {
      assert a + b == b;
    } else {
      assert (a + b)[1..] == a[1..] + b;
      FoldOfAppend(Step(p, a[0]), a[1..], b);
    }
  }

  lemma FeedTwice(s: Stream, a: string, b: string)
    ensures Feed(Feed(s, a), b) == Feed(s, a + b)
  {
    var text := s.lineBuf + a;
    assert s.lineBuf + (a + b) == text + b;
    assert s.transcript + (a + b) == s.transcript + a + b;
    LinesOfAppend(text, b);
    var first, second := FullLines(text), FullLines(Partial(text) + b);
    assert ClassifyAll(first + second) == ClassifyAll(first) + ClassifyAll(second);
    FoldOfAppend(s.parser, ClassifyAll(first), ClassifyAll(second));
  }

  lemma {:induction false} FeedAllIsFeed(s: Stream, chunks: seq<string>)
    requires '\n' !in s.lineBuf
    ensures FeedAll(s, chunks) == Feed(s, Concat(chunks))
    decreases |chunks|
  {
    if chunks == [] {
      assert s.lineBuf + "" == s.lineBuf && s.transcript + "" == s.transcript;
      SplitWhole(s.lineBuf);
      assert ClassifyAll([]) == [];
    } else {
      JoinOfSplit(s.lineBuf + chunks[0], '\n');
      FeedAllIsFeed(Feed(s, chunks[0]), chunks[1..]);
      FeedTwice(s, chunks[0], Concat(chunks[1..]));
    }
  }

  /** Every way of cutting a text into `write` calls ends with the same blocks, open block, buffer and
      transcript, which are the pure fold over the text's complete lines. */
  lemma {:induction false} ChunkingIsInvisible(chunks: seq<string>)
    ensures
      var text := Concat(chunks);
      FeedAll(FRESH, chunks) == Stream(Read(EMPTY_PARSER, text), Partial(text), text)
  {
    FeedAllIsFeed(FRESH, chunks);
    assert "" + Concat(chunks) == Concat(chunks);
  }

  // ---- The printer ----

  /** `Object.entries(fields)`, values already rendered as text. */
  type Fields = seq<(string, string)>

  function FieldLine(f: (string, string)): string {
    f.0 + ": " + f.1
  }

  function StartLine(step: string): string {
    START_PREFIX + step + START_SUFFIX
  }

  function EmittedLines(step: string, fields: Fields): seq<string> {
    [StartLine(step)] + FieldLines(fields) + [END_MARKER]
  }

  function FieldLines(fields: Fields): seq<string> {
    seq(|fields|, i requires 0 <= i < |fields| => FieldLine(fields[i]))
  }

  /** What `console.log(lines.join('\n'))` writes. */
  function Emitted(step: string, fields: Fields): string {
    Join(EmittedLines(step, fields), "\n") + "\n"
  }

  method EmitStatus(step: string, fields: Fields) returns (out: string)
    ensures out == Emitted(step, fields)
    ensures
      var lines := seq(|fields|, i requires 0 <= i < |fields| => fields[i].0 + ": " + fields[i].1);
      out == Join(["=== NANOCLAW SETUP: " + step + " ==="] + lines + ["=== END ==="], "\n") + "\n"
  {
    var lines := ["=== NANOCLAW SETUP: " + step + " ==="];
    for i := 0 to |fields|
      invariant lines == [StartLine(step)] + FieldLines(fields[..i])
    {
      assert FieldLines(fields[..i + 1]) == FieldLines(fields[..i]) + [FieldLine(fields[i])];
      lines := lines + [fields[i].0 + ": " + fields[i].1];
    }
    assert fields[..|fields|] == fields;
    assert FieldLines(fields) == seq(|fields|, i requires 0 <= i < |fields| => fields[i].0 + ": " + fields[i].1);
    lines := lines + ["=== END ==="];
    out := Join(lines, "\n") + "\n";
  }

  // ---- Parse after print ----

  /** An object's own keys are distinct. */
  predicate DistinctKeys(fields: Fields) {
    forall i, j :: 0 <= i < j < |fields| ==> fields[i].0 != fields[j].0
  }

  function AsMap(fields: Fields): map<string, string>
  {
    if fields == [] then map[]
    else AsMap(fields[..|fields| - 1])[fields[|fields| - 1].0 := fields[|fields| - 1].1]
  }

  predicate PrintableKind(step: string) {
    step != "" && forall c :: c in step ==> !IsSpace(c)
  }

  predicate PrintableKey(key: string) {
    key != "" && key != "__proto__" && Trimmed(key) && ':' !in key && '\n' !in key
  }

  predicate PrintableValue(value: string) {
    Trimmed(value) && '\n' !in value
  }

  predicate PrintableFields(fields: Fields) {
    forall i :: 0 <= i < |fields| ==> PrintableKey(fields[i].0) && PrintableValue(fields[i].1)
  }

  predicate IsMarker(line: string) {
    Classify(line).Start? || Classify(line).End?
  }

  /** The status blocks that survive printing and parsing. */
  predicate Printable(step: string, fields: Fields) {
    && PrintableKind(step)
    && PrintableFields(fields)
    && forall i :: 0 <= i < |fields| ==> !IsMarker(FieldLine(fields[i]))
  }

  /** Other output of the step: single lines, none of them a marker. */
  predicate IsNoise(lines: seq<string>) {
    forall i :: 0 <= i < |lines| ==> '\n' !in lines[i] && !IsMarker(lines[i])
  }

  /** Each line with the newline that ends it. */
  function Text(lines: seq<string>): string {
    if lines == [] then "" else lines[0] + "\n" + Text(lines[1..])
  }

  lemma {:induction false} LinesOfText(lines: seq<string>, rest: string)
    requires forall i :: 0 <= i < |lines| ==> '\n' !in lines[i]
    ensures FullLines(Text(lines) + rest) == lines + FullLines(rest)
    decreases |lines|
  {
    if lines == [] {
      assert Text(lines) + rest == rest && lines + FullLines(rest) == FullLines(rest);
    } else {
      var more := Text(lines[1..]) + rest;
      LinesOfText(lines[1..], rest);
      assert Text(lines) + rest == lines[0] + ("\n" + more);
      LineThenMore(lines[0], more);
    }
  }

  lemma LineThenMore(line: string, more: string)
    requires '\n' !in line
    ensures FullLines(line + ("\n" + more)) == [line] + FullLines(more)
  {
    var tail := "\n" + more;
    var pieces := Split(more, '\n');
    assert Split(tail, '\n') == [""] + pieces by { assert tail[1..] == more; }
    SplitWhole(line);
    SplitOfAppend(line, tail, '\n');
    GlueEmpty(line, pieces);
    assert ([line] + pieces)[..|pieces|] == [line] + pieces[..|pieces| - 1];
  }

  lemma GlueEmpty(line: string, pieces: seq<string>)
    ensures Glue([line], [""] + pieces) == [line] + pieces
  {
    assert line + "" == line;
  }

  lemma {:induction false} TextOfJoin(lines: seq<string>)
    requires lines != []
    ensures Join(lines, "\n") + "\n" == Text(lines)
    decreases |lines|
  {
    if |lines| > 1 {
      TextOfJoin(lines[1..]);
      var head := lines[0] + "\n";
      assert head + (Join(lines[1..], "\n") + "\n") == head + Join(lines[1..], "\n") + "\n";
    } else {
      assert Text(lines[1..]) == "";
    }
  }

  lemma EnclosedParses(prefix: string, inner: string, suffix: string)
    requires PrintableKind(inner) && suffix != "" && IsSpace(suffix[0])
    ensures Enclosed(prefix + inner + suffix, prefix, suffix) == Some(inner)
  {
    var rest := (prefix + inner + suffix)[|prefix|..];
    assert rest == inner + suffix;
    SolidRunOfAppend(inner, suffix);
    assert rest[|inner|..] == suffix && rest[..|inner|] == inner;
  }

  lemma {:induction false} SolidRunOfAppend(inner: string, suffix: string)
    requires forall c :: c in inner ==> !IsSpace(c)
    requires suffix != "" && IsSpace(suffix[0])
    ensures SolidRun(inner + suffix) == |inner|
  {
    if inner == "" {
      assert inner + suffix == suffix;
    } else {
      assert (inner + suffix)[1..] == inner[1..] + suffix;
      SolidRunOfAppend(inner[1..], suffix);
    }
  }

  lemma StartLineParses(step: string)
    requires PrintableKind(step)
    ensures Classify(StartLine(step)) == Start(step)
  {
    EnclosedParses(START_PREFIX, step, START_SUFFIX);
  }

  lemma {:induction false} IndexOfFirst(a: string, c: char, b: string)
    requires c !in a
    ensures IndexOf(a + [c] + b, c) == |a|
  {
    var t := a + [c] + b;
    if a != "" {
      assert t[1..] == a[1..] + [c] + b;
      IndexOfFirst(a[1..], c, b);
    }
  }

  lemma FieldLineParses(f: (string, string))
    requires PrintableKey(f.0) && PrintableValue(f.1)
    ensures ClassifyField(FieldLine(f)) == Field(f.0, f.1)
  {
    var tail := " " + f.1;
    var line := f.0 + [':'] + tail;
    assert FieldLine(f) == line;
    IndexOfFirst(f.0, ':', tail);
    assert line[..|f.0|] == f.0 && line[|f.0| + 1..] == tail;
    TrimFacts(f.0);
    TrimFacts(f.1);
    assert tail[1..] == f.1;
    assert TrimLeft(tail) == TrimLeft(f.1);
  }

  /** The parser's view of the printed field lines. */
  function AsLines(fields: Fields): seq<Line> {
    seq(|fields|, i requires 0 <= i < |fields| => Field(fields[i].0, fields[i].1))
  }

  lemma {:induction false} FoldFields(p: Parser, fields: Fields)
    requires p.current.Some?
    ensures Fold(p, AsLines(fields))
            == p.(current := Some(p.current.value.(fields := p.current.value.fields + AsMap(fields))))
    decreases |fields|
  {
    if fields == [] {
      assert p.current.value.fields + map[] == p.current.value.fields;
    } else {
      var n := |fields| - 1;
      var front, last := fields[..n], fields[n];
      assert AsLines(fields) == AsLines(front) + [Field(last.0, last.1)];
      FoldOfAppend(p, AsLines(front), [Field(last.0, last.1)]);
      FoldFields(p, front);
      assert (p.current.value.fields + AsMap(front))[last.0 := last.1] == p.current.value.fields + AsMap(fields);
    }
  }

  predicate Quiet(lines: seq<Line>) {
    forall i :: 0 <= i < |lines| ==> !lines[i].Start? && !lines[i].End?
  }

  lemma {:induction false} QuietIsIgnored(p: Parser, lines: seq<Line>)
    requires p.current.None? && Quiet(lines)
    ensures Fold(p, lines) == p
    decreases |lines|
  {
    if lines != [] {
      QuietIsIgnored(p, lines[1..]);
    }
  }

  /** `q` is what `p` becomes after lines that are no markers. */
  ghost predicate ThenQuiet(p: Parser, q: Parser) {
    exists quiet :: Quiet(quiet) && Fold(p, quiet) == q
  }

  /** What the parser makes of the printed block between other output of the step. */
  function Reread(before: seq<string>, step: string, fields: Fields, after: seq<string>): Parser {
    Feed(FRESH, Text(before) + Emitted(step, fields) + Text(after)).parser
  }

  lemma {:induction false} RereadText(before: seq<string>, lines: seq<string>, after: seq<string>)
    requires forall i :: 0 <= i < |before| ==> '\n' !in before[i]
    requires forall i :: 0 <= i < |lines| ==> '\n' !in lines[i]
    requires forall i :: 0 <= i < |after| ==> '\n' !in after[i]
    requires lines != []
    ensures FullLines(Text(before) + (Join(lines, "\n") + "\n") + Text(after)) == before + (lines + after)
  {
    TextOfJoin(lines);
    assert Text(after) + "" == Text(after);
    assert Text(before) + Text(lines) + Text(after) == Text(before) + (Text(lines) + Text(after));
    LinesOfText(before, Text(lines) + Text(after));
    LinesOfText(lines, Text(after));
    LinesOfText(after, "");
    assert after + [] == after;
  }

  lemma ClassifyAllOfAppend(a: seq<string>, b: seq<string>)
    ensures ClassifyAll(a + b) == ClassifyAll(a) + ClassifyAll(b)
  {
  }

  lemma NoiseIsQuiet(lines: seq<string>)
    requires IsNoise(lines)
    ensures Quiet(ClassifyAll(lines))
  {
    forall i | 0 <= i < |lines| ensures !ClassifyAll(lines)[i].Start? && !ClassifyAll(lines)[i].End? {
      assert !IsMarker(lines[i]);
    }
  }

  lemma EmittedClassified(step: string, fields: Fields)
    requires PrintableKind(step)
    ensures ClassifyAll(EmittedLines(step, fields)) == [Start(step)] + ClassifyAll(FieldLines(fields)) + [End]
  {
    StartLineParses(step);
    EndLineParses();
    ClassifyAllOfAppend([StartLine(step)], FieldLines(fields));
    ClassifyAllOfAppend([StartLine(step)] + FieldLines(fields), [END_MARKER]);
  }

  /** The printed block between other output, with the text gone: the start line, the field lines as `seen`, the end
      line, and lines that do not matter before and after. */
  lemma {:induction false} PrintedText(
      before: seq<string>, step: string, fields: Fields, after: seq<string>, seen: seq<Line>)
    requires IsNoise(before) && IsNoise(after) && PrintableKind(step) && PrintableFields(fields)
    requires seen == ClassifyAll(FieldLines(fields))
    ensures ClassifyAll(FullLines(Text(before) + Emitted(step, fields) + Text(after))) ==
            ClassifyAll(before) + (([Start(step)] + seen + [End]) + ClassifyAll(after))
    ensures Quiet(ClassifyAll(before)) && Quiet(ClassifyAll(after))
  {
    var lines := EmittedLines(step, fields);
    SingleLines(step, fields);
    RereadText(before, lines, after);
    EmittedClassified(step, fields);
    ClassifyAllOfAppend(lines, after);
    ClassifyAllOfAppend(before, lines + after);
    NoiseIsQuiet(before);
    NoiseIsQuiet(after);
  }

  lemma {:induction false} RereadLines(
      before: seq<string>, step: string, fields: Fields, after: seq<string>, seen: seq<Line>)
    requires IsNoise(before) && IsNoise(after) && PrintableKind(step) && PrintableFields(fields)
    requires seen == ClassifyAll(FieldLines(fields))
    ensures ThenQuiet(Fold(EMPTY_PARSER, [Start(step)] + seen + [End]), Reread(before, step, fields, after))
  {
    PrintedText(before, step, fields, after, seen);
    var text := Text(before) + Emitted(step, fields) + Text(after);
    assert "" + text == text;
    FoldBetween(ClassifyAll(before), [Start(step)] + seen + [End], ClassifyAll(after));
  }

  lemma {:induction false} FoldBetween(quiet0: seq<Line>, body: seq<Line>, quiet1: seq<Line>)
    requires Quiet(quiet0)
    ensures Fold(EMPTY_PARSER, quiet0 + (body + quiet1)) == Fold(Fold(EMPTY_PARSER, body), quiet1)
  {
    FoldOfAppend(EMPTY_PARSER, quiet0, body + quiet1);
    QuietIsIgnored(EMPTY_PARSER, quiet0);
    FoldOfAppend(EMPTY_PARSER, body, quiet1);
  }

  lemma EndLineParses()
    ensures Classify(END_MARKER) == End
  {
    assert START_PREFIX[4] == 'N' && END_MARKER[4] == 'E';
  }

  lemma SingleLines(step: string, fields: Fields)
    requires PrintableKind(step) && PrintableFields(fields)
    ensures forall i :: 0 <= i < |EmittedLines(step, fields)| ==> '\n' !in EmittedLines(step, fields)[i]
  {
    assert IsSpace('\n');
    assert '\n' !in START_PREFIX && '\n' !in START_SUFFIX && '\n' !in END_MARKER;
  }

  lemma {:induction false} PrintableParses(before: seq<string>, step: string, fields: Fields, after: seq<string>)
    requires IsNoise(before) && IsNoise(after) && Printable(step, fields)
    ensures Reread(before, step, fields, after) == Parser(None, [Block(step, AsMap(fields))])
  {
    var seen := AsLines(fields);
    forall i | 0 <= i < |fields| ensures Classify(FieldLine(fields[i])) == Field(fields[i].0, fields[i].1) {
      FieldLineParses(fields[i]);
      assert !IsMarker(FieldLine(fields[i]));
    }
    assert seen == ClassifyAll(FieldLines(fields));
    RereadLines(before, step, fields, after, seen);
    FoldBody(step, fields);
    var p := Parser(None, [Block(step, AsMap(fields))]);
    var quiet :| Quiet(quiet) && Fold(p, quiet) == Reread(before, step, fields, after);
    QuietIsIgnored(p, quiet);
  }

  lemma {:induction false} FoldBody(step: string, fields: Fields)
    ensures Fold(EMPTY_PARSER, [Start(step)] + AsLines(fields) + [End]) == Parser(None, [Block(step, AsMap(fields))])
  {
    FoldBodyFrom(EMPTY_PARSER, step, fields);
  }

  /** Whatever block was open is given up at the start line, and the new one follows those already closed. */
  lemma {:induction false} FoldBodyFrom(p: Parser, step: string, fields: Fields)
    ensures Fold(p, [Start(step)] + AsLines(fields) + [End]) ==
            Parser(None, p.blocks + [Block(step, AsMap(fields))])
  {
    var begun := Parser(Some(Block(step, map[])), p.blocks);
    FoldOfAppend(p, [Start(step)] + AsLines(fields), [End]);
    assert ([Start(step)] + AsLines(fields))[1..] == AsLines(fields);
    FoldFields(begun, fields);
    assert map[] + AsMap(fields) == AsMap(fields);
  }

  lemma {:induction false} QuietKeepsBlocks(p: Parser, lines: seq<Line>)
    requires Quiet(lines)
    ensures Fold(p, lines).blocks == p.blocks
    decreases |lines|
  {
    if lines != [] {
      QuietKeepsBlocks(Step(p, lines[0]), lines[1..]);
    }
  }

  /** From any state of the parser, also with a block left open: a printed block between other output is closed, and
      follows the blocks that were closed before. */
  lemma {:induction false} PrintedBlockIsAppended(
      p: Parser, before: seq<string>, step: string, fields: Fields, after: seq<string>)
    requires IsNoise(before) && IsNoise(after) && Printable(step, fields)
    ensures Read(p, Text(before) + Emitted(step, fields) + Text(after)) ==
            Parser(None, p.blocks + [Block(step, AsMap(fields))])
  {
    var seen, body := AsLines(fields), [Start(step)] + AsLines(fields) + [End];
    forall i | 0 <= i < |fields| ensures Classify(FieldLine(fields[i])) == Field(fields[i].0, fields[i].1) {
      FieldLineParses(fields[i]);
      assert !IsMarker(FieldLine(fields[i]));
    }
    assert seen == ClassifyAll(FieldLines(fields));
    PrintedText(before, step, fields, after, seen);
    var (quiet0, quiet1) := (ClassifyAll(before), ClassifyAll(after));
    FoldOfAppend(p, quiet0, body + quiet1);
    QuietKeepsBlocks(p, quiet0);
    FoldOfAppend(Fold(p, quiet0), body, quiet1);
    FoldBodyFrom(Fold(p, quiet0), step, fields);
    QuietIsIgnored(Parser(None, p.blocks + [Block(step, AsMap(fields))]), quiet1);
  }

  /** A block as `emitStatus` is given it. */
  datatype Print = Print(step: string, fields: Fields)

  predicate AllPrintable(prints: seq<Print>) {
    forall i :: 0 <= i < |prints| ==> Printable(prints[i].step, prints[i].fields)
  }

  function PrintAll(prints: seq<Print>): seq<string> {
    seq(|prints|, i requires 0 <= i < |prints| => Emitted(prints[i].step, prints[i].fields))
  }

  function BlocksOf(prints: seq<Print>): seq<Block> {
    seq(|prints|, i requires 0 <= i < |prints| => Block(prints[i].step, AsMap(prints[i].fields)))
  }

  lemma PartialAfterNewline(s: string)
    ensures Partial(s + "\n") == ""
  {
    SplitOfAppend(s, "\n", '\n');
    assert "\n"[1..] == "" && Split("\n", '\n') == [""] + Split("", '\n');
  }

  lemma PrintedWhole(p: Parser, item: Print)
    requires Printable(item.step, item.fields)
    ensures Read(p, Emitted(item.step, item.fields)) ==
            Parser(None, p.blocks + [Block(item.step, AsMap(item.fields))])
    ensures Partial(Emitted(item.step, item.fields)) == ""
  {
    var text := Emitted(item.step, item.fields);
    assert Text([]) + text + Text([]) == text;
    PrintedBlockIsAppended(p, [], item.step, item.fields, []);
    PartialAfterNewline(Join(EmittedLines(item.step, item.fields), "\n"));
  }

  /** Blocks printed one after another are read as exactly those blocks, in their order. By `ChunkingIsInvisible` this
      does not depend on how their text is cut into writes. */
  lemma {:induction false} PrintsAreReadInOrder(s: Stream, prints: seq<Print>)
    requires s.lineBuf == "" && s.parser.current == None && AllPrintable(prints)
    ensures
      var n := FeedAll(s, PrintAll(prints));
      n.parser == Parser(None, s.parser.blocks + BlocksOf(prints)) && n.lineBuf == ""
    decreases |prints|
  {
    if prints == [] {
      assert s.parser.blocks + BlocksOf([]) == s.parser.blocks;
    } else {
      var next := FeedPrint(s, prints[0]);
      assert PrintAll(prints)[1..] == PrintAll(prints[1..]);
      PrintsAreReadInOrder(next, prints[1..]);
      BlocksOfFirst(s.parser.blocks, prints);
    }
  }

  lemma BlocksOfFirst(blocks: seq<Block>, prints: seq<Print>)
    requires prints != []
    ensures blocks + [Block(prints[0].step, AsMap(prints[0].fields))] + BlocksOf(prints[1..]) ==
            blocks + BlocksOf(prints)
  {
    assert BlocksOf(prints) == [Block(prints[0].step, AsMap(prints[0].fields))] + BlocksOf(prints[1..]);
  }

  lemma FeedPrint(s: Stream, item: Print) returns (n: Stream)
    requires s.lineBuf == "" && Printable(item.step, item.fields)
    ensures n == Feed(s, Emitted(item.step, item.fields)) && n.lineBuf == ""
    ensures n.parser == Parser(None, s.parser.blocks + [Block(item.step, AsMap(item.fields))])
  {
    var text := Emitted(item.step, item.fields);
    n := Feed(s, text);
    PrintedWhole(s.parser, item);
    assert s.lineBuf + text == text;
  }

  // ---- What a line is ----

  /** `Trim` takes away the white space at both ends, and nothing else. */
  lemma TrimExactly(s: string)
    ensures exists i, j :: Strips(s, i, j, Trim(s))
  {
    var i := LeftSpaces(s);
    var left := TrimLeft(s);
    var j := RightSpaces(left);
    assert left == s[i..];
    assert Strips(s, i, i + j, Trim(s));
  }

  /** The white space is that of ECMAScript: white space and line terminators. */
  lemma SpacesExactly(c: char)
    ensures
      var code := c as int;
      Trim([c]) ==
      if code in {9, 10, 11, 12, 13, 32, 0xa0, 0x1680, 0x2028, 0x2029, 0x202f, 0x205f, 0x3000, 0xfeff}
         || 0x2000 <= code <= 0x200a then "" else [c]
  {
    assert [c][1..] == "" && [c][..0] == "";
    TrimFacts([c]);
  }

  /** `t` is `s` from `i` to `j`, which is trimmed, and the rest is white space. */
  ghost predicate Strips(s: string, i: int, j: int, t: string) {
    && 0 <= i <= j <= |s| && t == s[i..j] && Trimmed(t)
    && (forall k :: 0 <= k < i ==> IsSpace(s[k])) && (forall k :: j <= k < |s| ==> IsSpace(s[k]))
  }

  lemma {:induction false} LeftSpaces(s: string) returns (i: nat)
    ensures i <= |s| && TrimLeft(s) == s[i..] && forall k :: 0 <= k < i ==> IsSpace(s[k])
  {
    i := 0;
    if s != "" && IsSpace(s[0]) {
      i := LeftSpaces(s[1..]);
      assert s[1..][i..] == s[i + 1..];
      assert forall k :: 0 < k <= i ==> s[k] == s[1..][k - 1];
      i := i + 1;
    }
  }

  lemma {:induction false} RightSpaces(s: string) returns (j: nat)
    ensures j <= |s| && TrimRight(s) == s[..j] && forall k :: j <= k < |s| ==> IsSpace(s[k])
  {
    j := |s|;
    if s != "" && IsSpace(s[|s| - 1]) {
      j := RightSpaces(s[..|s| - 1]);
    }
  }

  /** The line begins with a start marker of that type: solid text that is not empty. */
  predicate StartsBlock(line: string, kind: string) {
    && kind != "" && (forall c :: c in kind ==> !IsSpace(c))
    && "=== NANOCLAW SETUP: " + kind + " ===" <= line
  }

  predicate EndsBlock(line: string) {
    "=== END ===" <= line
  }

  lemma StartsExactly(line: string, kind: string)
    ensures Classify(line) == Start(kind) <==> StartsBlock(line, kind)
  {
    var start := Enclosed(line, START_PREFIX, START_SUFFIX);
    if start.Some? {
      var rest := line[|START_PREFIX|..];
      var n := SolidRun(rest);
      assert line == START_PREFIX + rest[..n] + rest[n..];
      assert START_PREFIX + start.value + START_SUFFIX <= line;
    }
    if StartsBlock(line, kind) {
      var more := line[|START_PREFIX + kind + START_SUFFIX|..];
      assert line == START_PREFIX + kind + (START_SUFFIX + more);
      assert IsSpace(START_SUFFIX[0]) && (START_SUFFIX + more)[0] == START_SUFFIX[0];
      EnclosedBefore(START_PREFIX, kind, START_SUFFIX, more);
    }
  }

  lemma EnclosedBefore(prefix: string, inner: string, suffix: string, more: string)
    requires PrintableKind(inner) && suffix != "" && IsSpace(suffix[0])
    ensures Enclosed(prefix + inner + (suffix + more), prefix, suffix) == Some(inner)
  {
    var rest := (prefix + inner + (suffix + more))[|prefix|..];
    assert rest == inner + (suffix + more);
    SolidRunOfAppend(inner, suffix + more);
    assert rest[|inner|..] == suffix + more && rest[..|inner|] == inner;
  }

  lemma EndsExactly(line: string)
    ensures Classify(line) == End <==> EndsBlock(line)
  {
    assert START_PREFIX <= line ==> line[4] == 'N';
    assert END_MARKER <= line ==> line[4] == 'E';
  }

  /** The first colon of the line is at `i`, and what stands on both sides of it, trimmed, is key and value. */
  ghost predicate Parts(line: string, i: nat, key: string, value: string) {
    && i < |line| && line[i] == ':' && ':' !in line[..i]
    && key == Trim(line[..i]) && value == Trim(line[i + 1..])
  }

  lemma FirstColon(line: string, i: nat)
    requires i < |line| && line[i] == ':' && ':' !in line[..i]
    ensures IndexOf(line, ':') == i
  {
    assert line == line[..i] + [':'] + line[i + 1..];
    IndexOfFirst(line[..i], ':', line[i + 1..]);
  }

  lemma FieldParts(line: string, key: string, value: string)
    ensures ClassifyField(line) == Field(key, value) <==>
            key != "" && key != "__proto__" && exists i: nat :: Parts(line, i, key, value)
  {
    if i: nat :| Parts(line, i, key, value) {
      FirstColon(line, i);
    }
    if ClassifyField(line) == Field(key, value) {
      assert Parts(line, IndexOf(line, ':'), key, value);
    }
  }

  lemma NoMarkerIsField(line: string)
    requires !EndsBlock(line) && forall kind :: !StartsBlock(line, kind)
    ensures Classify(line) == ClassifyField(line)
  {
    var start := Enclosed(line, START_PREFIX, START_SUFFIX);
    if start.Some? {
      StartsExactly(line, start.value);
    }
  }

  /** A line that is no marker is a field exactly when it has a colon, with a key before the first one. */
  lemma FieldsExactly(line: string, key: string, value: string)
    requires !EndsBlock(line) && forall kind :: !StartsBlock(line, kind)
    ensures Classify(line) == Field(key, value) <==>
            key != "" && key != "__proto__" && exists i: nat :: Parts(line, i, key, value)
  {
    NoMarkerIsField(line);
    FieldParts(line, key, value);
  }

  // ---- ... and nothing else survives ----

  /** What any block the parser makes looks like, whatever it read. */
  predicate WellParsed(b: Block) {
    && PrintableKind(b.kind)
    && forall k :: k in b.fields ==> PrintableKey(k) && PrintableValue(b.fields[k])
  }

  predicate WellParsedAll(p: Parser) {
    && (p.current.Some? ==> WellParsed(p.current.value))
    && forall i :: 0 <= i < |p.blocks| ==> WellParsed(p.blocks[i])
  }

  predicate WellRead(line: Line) {
    match line
    case Start(kind) => PrintableKind(kind)
    case Field(key, value) => PrintableKey(key) && PrintableValue(value)
    case _ => true
  }

  lemma FieldIsWell(line: string)
    requires '\n' !in line
    ensures WellRead(ClassifyField(line))
  {
    var colon := IndexOf(line, ':');
    if colon < |line| {
      TrimFacts(line[..colon]);
      TrimFacts(line[colon + 1..]);
    }
  }

  lemma ClassifiedWell(line: string)
    requires '\n' !in line
    ensures WellRead(Classify(line))
  {
    FieldIsWell(line);
  }

  lemma {:induction false} FoldWellParsed(p: Parser, lines: seq<Line>)
    requires WellParsedAll(p) && forall i :: 0 <= i < |lines| ==> WellRead(lines[i])
    ensures WellParsedAll(Fold(p, lines))
    decreases |lines|
  {
    if lines != [] {
      FoldWellParsed(Step(p, lines[0]), lines[1..]);
    }
  }

  /** Every block read from a text is well parsed. */
  lemma FeedWellParsed(text: string)
    ensures WellParsedAll(Feed(FRESH, text).parser)
  {
    assert "" + text == text;
    JoinOfSplit(text, '\n');
    var lines := FullLines(text);
    forall i | 0 <= i < |lines| ensures WellRead(ClassifyAll(lines)[i]) {
      ClassifiedWell(lines[i]);
    }
    FoldWellParsed(EMPTY_PARSER, ClassifyAll(lines));
  }

  /** Keys only enter a block from field lines. */
  ghost predicate KeysFrom(p: Parser, keys: set<string>) {
    && (p.current.Some? ==> p.current.value.fields.Keys <= keys)
    && forall i :: 0 <= i < |p.blocks| ==> p.blocks[i].fields.Keys <= keys
  }

  lemma {:induction false} FoldKeysFrom(p: Parser, lines: seq<Line>, keys: set<string>)
    requires KeysFrom(p, keys)
    requires forall i :: 0 <= i < |lines| && lines[i].Field? ==> lines[i].key in keys
    ensures KeysFrom(Fold(p, lines), keys)
    decreases |lines|
  {
    if lines != [] {
      FoldKeysFrom(Step(p, lines[0]), lines[1..], keys);
    }
  }

  lemma {:induction false} ClosedKeysFrom(body: seq<Line>, keys: set<string>)
    requires forall i :: 0 <= i < |body| && body[i].Field? ==> body[i].key in keys
    ensures Fold(EMPTY_PARSER, body + [End]).current.None? && KeysFrom(Fold(EMPTY_PARSER, body + [End]), keys)
  {
    FoldKeysFrom(EMPTY_PARSER, body, keys);
    FoldOfAppend(EMPTY_PARSER, body, [End]);
  }

  lemma {:induction false} AsMapAt(fields: Fields, i: nat)
    requires DistinctKeys(fields) && i < |fields|
    ensures fields[i].0 in AsMap(fields) && AsMap(fields)[fields[i].0] == fields[i].1
    decreases |fields|
  {
    var n := |fields| - 1;
    if i < n {
      AsMapAt(fields[..n], i);
    }
  }

  lemma SeenKey(f: (string, string))
    requires PrintableKey(f.0) && PrintableValue(f.1)
    ensures
      var line := Classify(FieldLine(f));
      && (line.Field? ==> line.key == f.0)
      && (IsMarker(FieldLine(f)) <==> !line.Field?)
  {
    FieldLineParses(f);
  }

  /** The keys of every field but the one at `bad`. */
  ghost function OtherKeys(fields: Fields, bad: nat): set<string> {
    set i | 0 <= i < |fields| && i != bad :: fields[i].0
  }

  lemma MarkerSetsNoKey(fields: Fields, bad: nat)
    requires PrintableFields(fields)
    requires bad < |fields| && IsMarker(FieldLine(fields[bad]))
    ensures
      var seen := ClassifyAll(FieldLines(fields));
      forall i :: 0 <= i < |seen| && seen[i].Field? ==> seen[i].key in OtherKeys(fields, bad)
  {
    var seen := ClassifyAll(FieldLines(fields));
    forall i | 0 <= i < |seen| && seen[i].Field? ensures seen[i].key in OtherKeys(fields, bad) {
      SeenKey(fields[i]);
    }
  }

  lemma {:induction false} BodyKeysFrom(step: string, seen: seq<Line>, keys: set<string>, reread: Parser)
    requires forall i :: 0 <= i < |seen| && seen[i].Field? ==> seen[i].key in keys
    requires ThenQuiet(Fold(EMPTY_PARSER, [Start(step)] + seen + [End]), reread)
    ensures KeysFrom(reread, keys)
  {
    ClosedKeysFrom([Start(step)] + seen, keys);
    var closed := Fold(EMPTY_PARSER, [Start(step)] + seen + [End]);
    var quiet :| Quiet(quiet) && Fold(closed, quiet) == reread;
    QuietIsIgnored(closed, quiet);
  }

  /** If the block comes back, none of its field lines was a marker. */
  lemma {:induction false} SurvivorHasNoMarker(
      before: seq<string>, step: string, fields: Fields, after: seq<string>, bad: nat)
    requires IsNoise(before) && IsNoise(after) && DistinctKeys(fields)
    requires PrintableKind(step) && PrintableFields(fields)
    requires bad < |fields| && IsMarker(FieldLine(fields[bad]))
    ensures Reread(before, step, fields, after).blocks != [Block(step, AsMap(fields))]
  {
    var seen := ClassifyAll(FieldLines(fields));
    MarkerSetsNoKey(fields, bad);
    RereadLines(before, step, fields, after, seen);
    BodyKeysFrom(step, seen, OtherKeys(fields, bad), Reread(before, step, fields, after));
    AsMapAt(fields, bad);
    MissingKey(Reread(before, step, fields, after), Block(step, AsMap(fields)), OtherKeys(fields, bad), fields[bad].0);
  }

  lemma MissingKey(p: Parser, b: Block, keys: set<string>, key: string)
    requires KeysFrom(p, keys) && key in b.fields && key !in keys
    ensures p.blocks != [b]
  {
    assert p.blocks != [] ==> p.blocks[0] != b;
  }

  /** Parsing after printing gives back exactly the printed block, in any surrounding output without markers,
      if and only if the block is `Printable`. */
  lemma {:induction false} ParseAfterPrint(before: seq<string>, step: string, fields: Fields, after: seq<string>)
    requires IsNoise(before) && IsNoise(after) && DistinctKeys(fields)
    ensures Reread(before, step, fields, after).blocks == [Block(step, AsMap(fields))] <==> Printable(step, fields)
  {
    if Printable(step, fields) {
      PrintableParses(before, step, fields, after);
    } else if Reread(before, step, fields, after).blocks == [Block(step, AsMap(fields))] {
      FeedWellParsed(Text(before) + Emitted(step, fields) + Text(after));
      assert WellParsed(Reread(before, step, fields, after).blocks[0]);
      forall i | 0 <= i < |fields| ensures PrintableKey(fields[i].0) && PrintableValue(fields[i].1) {
        AsMapAt(fields, i);
      }
      var bad :| 0 <= bad < |fields| && IsMarker(FieldLine(fields[bad]));
      SurvivorHasNoMarker(before, step, fields, after, bad);
    }
  }
}
