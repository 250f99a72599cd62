/**
 The status blocks of the setup steps: the streaming parser of setup/lib/runner.ts and the
 printer of setup/status.ts that feeds it.
 */
module StatusBlocks {
  import opened Options
  import opened Text

  const START: string := "=== NANOCLAW SETUP: "
  const CLOSE: string := " ==="
  const END: string := "=== END ==="

  datatype Block = Block(kind: string, fields: map<string, string>)

  /** `announced` lists the blocks handed to the onBlock callback, in order. */
  datatype State = State(
    lineBuf: string,
    current: Option<Block>,
    blocks: seq<Block>,
    announced: seq<Block>,
    transcript: string)

  function Init(): State {
    State("", None, [], [], "")
  }

  // ---------- One line ----------

  /** The capture of /^=== NANOCLAW SETUP: (\S+) ===/, if the line matches. */
  function StartStep(line: string): Option<string> {
    if START <= line then
      var word := Word(line[|START|..]);
      if word != [] && CLOSE <= line[|START|..][|word|..] then Some(word) else None
    else None
  }

  function ProcessLine(s: State, line: string): State {
    var step := StartStep(line);
    if step.Some? then s.(current := Some(Block(step.value, map[])))
    else if END <= line then
      if s.current.Some? then
        s.(blocks := s.blocks + [s.current.value], announced := s.announced + [s.current.value], current := None)
      else s
    else if s.current.None? then s
    else
      var colon := IndexOf(line, ':');
      if colon == -1 then s
      else
        var key, value := Trim(line[..colon]), Trim(line[colon + 1..]);
        if key == "" then s
        else s.(current := Some(Block(s.current.value.kind, s.current.value.fields[key := value])))
  }

  // ---------- The stream ----------

  /** Process every complete line of the buffer. */
  function Drain(s: State): State
    decreases |s.lineBuf|
  {
    var i := IndexOf(s.lineBuf, '\n');
    if i == -1 then s else Drain(ProcessLine(s.(lineBuf := s.lineBuf[i + 1..]), s.lineBuf[..i]))
  }

  function Write(s: State, chunk: string): State {
    Drain(s.(transcript := s.transcript + chunk, lineBuf := s.lineBuf + chunk))
  }

  function WriteAll(s: State, chunks: seq<string>): State
    decreases |chunks|
  {
    if chunks == [] then s else WriteAll(Write(s, chunks[0]), chunks[1..])
  }

  function Concat(chunks: seq<string>): string {
    if chunks == [] then "" else chunks[0] + Concat(chunks[1..])
  }

  /** The reference: a line-by-line reading. */
  function ProcessLines(s: State, lines: seq<string>): State
    decreases |lines|
  {
    if lines == [] then s else ProcessLines(ProcessLine(s, lines[0]), lines[1..])
  }

  /** The complete lines of the buffer are processed in order; what follows the last newline stays. */
  lemma {:induction false} DrainReadsLines(s: State)
    ensures
      var lines := Lines(s.lineBuf);
      Drain(s) == ProcessLines(s, lines[..|lines| - 1]).(lineBuf := lines[|lines| - 1])
    decreases |s.lineBuf|
  {
    hide ProcessLine, Lines, IndexOf;
    var line, more, rest := FirstLine(s.lineBuf);
    var tail := Lines(rest);
    if more {
      FirstNewline(line, rest);
      LineUnread(s, line, rest);
      DrainReadsLines(ProcessLine(s.(lineBuf := rest), line));
      var complete := tail[..|tail| - 1];
      assert ([line] + tail)[..|tail|] == [line] + complete;
      assert ([line] + complete)[1..] == complete;
      BufferUnread(ProcessLine(s, line), complete, rest);
    } else {
      assert IndexOf(s.lineBuf, '\n') == -1;
      assert [s.lineBuf][..0] == [];
    }
  }

  lemma LineUnread(s: State, line: string, buffer: string)
    ensures ProcessLine(s.(lineBuf := buffer), line) == ProcessLine(s, line).(lineBuf := buffer)
    ensures ProcessLine(s, line).lineBuf == s.lineBuf && ProcessLine(s, line).transcript == s.transcript
    ensures forall t :: ProcessLine(s.(transcript := t), line) == ProcessLine(s, line).(transcript := t)
  {
    hide StartStep, Trim, IndexOf;
  }

  lemma {:induction false} BufferUnread(s: State, lines: seq<string>, buffer: string)
    ensures ProcessLines(s.(lineBuf := buffer), lines) == ProcessLines(s, lines).(lineBuf := buffer)
    ensures ProcessLines(s, lines).lineBuf == s.lineBuf && ProcessLines(s, lines).transcript == s.transcript
    decreases |lines|
  {
    if lines != [] {
      hide ProcessLine;
      LineUnread(s, lines[0], buffer);
      BufferUnread(ProcessLine(s, lines[0]), lines[1..], buffer);
    }
  }

  lemma {:induction false} TranscriptUnread(s: State, lines: seq<string>, transcript: string)
    ensures ProcessLines(s.(transcript := transcript), lines) == ProcessLines(s, lines).(transcript := transcript)
    decreases |lines|
  {
    if lines != [] {
      hide ProcessLine;
      LineUnread(s, lines[0], s.lineBuf);
      TranscriptUnread(ProcessLine(s, lines[0]), lines[1..], transcript);
    }
  }

  lemma {:induction false} ProcessLinesConcat(s: State, a: seq<string>, b: seq<string>)
    ensures ProcessLines(s, a + b) == ProcessLines(ProcessLines(s, a), b)
    decreases |a|
  {
    hide ProcessLine;
    if a == [] {
      assert a + b == b;
    } else {
      assert (a + b)[1..] == a[1..] + b;
      ProcessLinesConcat(ProcessLine(s, a[0]), a[1..], b);
    }
  }

  lemma WriteReadsLines(s: State, chunk: string)
    ensures
      var lines := Lines(s.lineBuf + chunk);
      Write(s, chunk) ==
      ProcessLines(s, lines[..|lines| - 1]).(lineBuf := lines[|lines| - 1], transcript := s.transcript + chunk)
  {
    hide ProcessLines, Lines, Drain;
    var s1 := s.(transcript := s.transcript + chunk, lineBuf := s.lineBuf + chunk);
    var lines := Lines(s1.lineBuf);
    var complete := lines[..|lines| - 1];
    DrainReadsLines(s1);
    TranscriptUnread(s.(lineBuf := s.lineBuf + chunk), complete, s.transcript + chunk);
    BufferUnread(s, complete, s.lineBuf + chunk);
  }

  lemma TwoWrites(s: State, a: string, b: string)
    ensures Write(Write(s, a), b) == Write(s, a + b)
  {
    hide ProcessLines, Lines, Write;
    var la := Lines(s.lineBuf + a);
    var first, last := la[..|la| - 1], la[|la| - 1];
    var lb := Lines(last + b);
    var second := lb[..|lb| - 1];
    var p := ProcessLines(s, first);
    WriteReadsLines(s, a);
    WriteReadsLines(Write(s, a), b);
    BufferUnread(p, second, last);
    TranscriptUnread(p.(lineBuf := last), second, s.transcript + a);

    WriteReadsLines(s, a + b);
    LinesAppend(s.lineBuf + a, b);
    ProcessLinesConcat(s, first, second);
    assert s.lineBuf + a + b == s.lineBuf + (a + b);
    assert s.transcript + a + b == s.transcript + (a + b);
    assert (first + lb)[..|first + lb| - 1] == first + second;
  }

  /**
   Main result: however the output is cut into chunks, the parser ends in the state it reaches
   from one single write: same blocks, same announcements, same open block, buffer and transcript.
   */
  lemma {:induction false} ChunkIndependent(s: State, chunks: seq<string>)
    requires '\n' !in s.lineBuf
    ensures WriteAll(s, chunks) == Write(s, Concat(chunks))
    decreases |chunks|
  {
    hide Lines, ProcessLines;
    if chunks == [] {
      assert s.lineBuf[0..] == s.lineBuf + "";
      assert s.transcript + "" == s.transcript;
    } else {
      hide Write;
      WriteReadsLines(s, chunks[0]);
      ChunkIndependent(Write(s, chunks[0]), chunks[1..]);
      TwoWrites(s, chunks[0], Concat(chunks[1..]));
    }
  }

  // ---------- Printing ----------

  /** The fields in the order in which they are printed. */
  type Fields = seq<(string, string)>

  function FieldLine(key: string, value: string): string {
    key + ": " + value
  }

  function FieldLines(fields: Fields): seq<string> {
    if fields == [] then [] else [FieldLine(fields[0].0, fields[0].1)] + FieldLines(fields[1..])
  }

  function FieldMap(sofar: map<string, string>, fields: Fields): map<string, string>
    decreases |fields|
  {
    if fields == [] then sofar else FieldMap(sofar[fields[0].0 := fields[0].1], fields[1..])
  }

  function PrintedLines(step: string, fields: Fields): seq<string> {
    [START + step + CLOSE] + FieldLines(fields) + [END]
  }

  /** A step name the start marker can carry. */
  ghost predicate GoodStep(step: string) {
    step != "" && NoSpace(step)
  }

  /** A field that its line can carry: what a caller of emitStatus has to respect. */
  predicate GoodField(key: string, value: string) {
    && key != "" && Trim(key) == key && ':' !in key && '\n' !in key
    && Trim(value) == value && '\n' !in value
    && !(END <= key)
    && (key == "=== NANOCLAW SETUP" ==> StartStep(FieldLine(key, value)) == None)
  }

  /** The regular expression, without its search for the longest word. */
  lemma StartStepIs(line: string, step: string)
    ensures StartStep(line) == Some(step) <==> GoodStep(step) && START + step + CLOSE <= line
  {
    if START + step + CLOSE <= line && GoodStep(step) {
      var rest := line[|START|..];
      assert line == START + rest && step + CLOSE <= rest;
      var tail := rest[|step|..];
      assert rest == step + tail && CLOSE <= tail;
      WordOf(step, tail);
    }
    if StartStep(line) == Some(step) {
      var rest := line[|START|..];
      WordHasNoSpace(rest);
      assert rest == step + rest[|step|..];
      assert line == START + step + rest[|step|..];
    }
  }

  lemma MarkersInKey(key: string, value: string)
    requires ':' !in key
    ensures END <= FieldLine(key, value) <==> END <= key
    ensures START <= FieldLine(key, value) ==> key == "=== NANOCLAW SETUP"
  {
    var line := FieldLine(key, value);
    assert line[|key|] == ':' && line[..|key|] == key;
    assert forall i :: 0 <= i < |END| ==> END[i] != ':';
    assert START[18] == ':' && forall i :: 0 <= i < 18 ==> START[i] != ':';
    assert START[..18] == "=== NANOCLAW SETUP";
    assert START <= line ==> line[18] == ':' && |key| == 18;
    assert START <= line ==> line[..18] == START[..18];
  }

  lemma FirstColon(key: string, value: string)
    requires ':' !in key
    ensures IndexOf(FieldLine(key, value), ':') == |key|
    ensures FieldLine(key, value)[..|key|] == key && FieldLine(key, value)[|key| + 1..] == " " + value
  {
    var line := FieldLine(key, value);
    assert line[0..|key|] == key && line[|key|] == ':';
    IndexIs(line, ':', 0, |key|);
  }

  lemma GoodFieldRead(s: State, key: string, value: string)
    requires s.current.Some? && GoodField(key, value)
    ensures ProcessLine(s, FieldLine(key, value)) ==
            s.(current := Some(Block(s.current.value.kind, s.current.value.fields[key := value])))
  {
    hide Trim, IndexOf, Word;
    MarkersInKey(key, value);
    FirstColon(key, value);
    TrimLeadingSpace(value);
  }

  /** The line of a field adds exactly that field to the open block. */
  ghost predicate Survives(key: string, value: string) {
    forall s: State :: s.current.Some? ==>
      ProcessLine(s, FieldLine(key, value)) ==
      s.(current := Some(Block(s.current.value.kind, s.current.value.fields[key := value])))
  }

  /** Which fields survive: exactly the good ones. */
  lemma FieldSurvives(key: string, value: string)
    requires '\n' !in key && '\n' !in value
    ensures GoodField(key, value) <==> Survives(key, value)
  {
    if GoodField(key, value) {
      forall s: State | s.current.Some?
        ensures ProcessLine(s, FieldLine(key, value)) ==
                s.(current := Some(Block(s.current.value.kind, s.current.value.fields[key := value])))
      {
        GoodFieldRead(s, key, value);
      }
    }
    if Survives(key, value) {
      hide GoodField, ProcessLine;
      FieldReadIsGood(Init().(current := Some(Block("", map[]))), key, value);
    }
  }

  lemma OneEntry(k: string, v: string, key: string, value: string)
    requires map[k := v] == map[key := value]
    ensures k == key && v == value
  {
    assert k in map[key := value] && map[k := v][k] == map[key := value][k];
  }

  lemma FieldReadIsGood(s: State, key: string, value: string)
    requires '\n' !in key && '\n' !in value && s.current == Some(Block("", map[]))
    requires ProcessLine(s, FieldLine(key, value)) == s.(current := Some(Block("", map[key := value])))
    ensures GoodField(key, value)
  {
    hide Trim, Word, IndexOf;
    var line := FieldLine(key, value);
    assert key in map[key := value] && map[key := value] != map[];
    var colon := IndexOf(line, ':');
    var k, v := Trim(line[..colon]), Trim(line[colon + 1..]);
    OneEntry(k, v, key, value);
    assert line[0..colon] == line[..colon] && line[|key|] == ':' && line[..|key|] == key;
    assert |key| <= colon;
    assert forall i :: 0 <= i < colon ==> line[i] in line[0..colon];
    assert colon == |key|;
    MarkersInKey(key, value);
    assert line[colon + 1..] == " " + value;
    TrimLeadingSpace(value);
    TrimTwice(key);
  }

  lemma {:induction false} FieldsRead(s: State, fields: Fields)
    requires s.current.Some? && forall f :: f in fields ==> GoodField(f.0, f.1)
    ensures ProcessLines(s, FieldLines(fields)) ==
            s.(current := Some(Block(s.current.value.kind, FieldMap(s.current.value.fields, fields))))
    decreases |fields|
  {
    hide ProcessLine, GoodField;
    if fields != [] {
      GoodFieldRead(s, fields[0].0, fields[0].1);
      assert forall f :: f in fields[1..] ==> f in fields;
      var lines := FieldLines(fields);
      assert lines[0] == FieldLine(fields[0].0, fields[0].1) && lines[1..] == FieldLines(fields[1..]);
      FieldsRead(ProcessLine(s, lines[0]), fields[1..]);
    }
  }

  lemma StartRead(s: State, step: string)
    requires GoodStep(step)
    ensures ProcessLine(s, START + step + CLOSE) == s.(current := Some(Block(step, map[])))
  {
    hide Word;
    StartStepIs(START + step + CLOSE, step);
  }

  lemma EndRead(s: State)
    requires s.current.Some?
    ensures ProcessLine(s, END) ==
            s.(blocks := s.blocks + [s.current.value], announced := s.announced + [s.current.value], current := None)
  {
    assert END[4] != START[4];
  }

  lemma BlockRead(s: State, step: string, fields: Fields)
    requires GoodStep(step) && forall f :: f in fields ==> GoodField(f.0, f.1)
    ensures
      var block := Block(step, FieldMap(map[], fields));
      ProcessLines(s, PrintedLines(step, fields)) ==
      s.(blocks := s.blocks + [block], announced := s.announced + [block], current := None)
  {
    hide ProcessLine, FieldMap, FieldLines, GoodField;
    var first, middle := START + step + CLOSE, FieldLines(fields);
    var s1 := ProcessLine(s, first);
    var s2 := ProcessLines(s1, middle);
    StartRead(s, step);
    FieldsRead(s1, fields);
    EndRead(s2);
    ProcessLinesConcat(s, [first], middle);
    ProcessLinesConcat(s, [first] + middle, [END]);
    OneLine(s, first);
    OneLine(s2, END);
  }

  lemma OneLine(s: State, line: string)
    ensures ProcessLines(s, [line]) == ProcessLine(s, line)
  {
    hide ProcessLine;
    assert [line][1..] == [];
  }

  /** What a step writes: status blocks and, between them, anything else. */
  datatype Item = Noise(line: string) | Status(step: string, fields: Fields)

  ghost predicate GoodItem(item: Item) {
    match item
    case Noise(line) => '\n' !in line && StartStep(line) == None
    case Status(step, fields) => GoodStep(step) && forall f :: f in fields ==> GoodField(f.0, f.1)
  }

  function ItemLines(item: Item): seq<string> {
    match item
    case Noise(line) => [line]
    case Status(step, fields) => PrintedLines(step, fields)
  }

  function OutputLines(items: seq<Item>): seq<string> {
    if items == [] then [] else ItemLines(items[0]) + OutputLines(items[1..])
  }

  function PrintedBlocks(items: seq<Item>): seq<Block> {
    if items == [] then []
    else (if items[0].Status? then [Block(items[0].step, FieldMap(map[], items[0].fields))] else []) + PrintedBlocks(items[1..])
  }

  lemma NoiseRead(s: State, line: string)
    requires s.current.None? && StartStep(line) == None
    ensures ProcessLine(s, line) == s
  {
  }

  lemma {:induction false} ItemsRead(s: State, items: seq<Item>)
    requires s.current.None? && forall item :: item in items ==> GoodItem(item)
    ensures
      var blocks := PrintedBlocks(items);
      ProcessLines(s, OutputLines(items)) == s.(blocks := s.blocks + blocks, announced := s.announced + blocks)
    decreases |items|
  {
    hide FieldMap, PrintedLines, ProcessLine, GoodField, GoodStep, StartStep;
    if items == [] {
      assert s.blocks + [] == s.blocks && s.announced + [] == s.announced;
    } else {
      var item, rest := items[0], items[1..];
      assert GoodItem(item) && forall i :: i in rest ==> i in items;
      var s1 := ProcessLines(s, ItemLines(item));
      match item {
        case Noise(line) =>
          OneLine(s, line);
          NoiseRead(s, line);
        case Status(step, fields) => BlockRead(s, step, fields);
      }
      ItemsRead(s1, rest);
      ProcessLinesConcat(s, ItemLines(item), OutputLines(rest));
      var head := if item.Status? then [Block(item.step, FieldMap(map[], item.fields))] else [];
      assert s.blocks + (head + PrintedBlocks(rest)) == (s.blocks + head) + PrintedBlocks(rest);
      assert s.announced + (head + PrintedBlocks(rest)) == (s.announced + head) + PrintedBlocks(rest);
    }
  }

  lemma {:induction false} FieldLinesOpen(fields: Fields)
    requires forall f :: f in fields ==> GoodField(f.0, f.1)
    ensures forall line :: line in FieldLines(fields) ==> '\n' !in line
  {
    if fields != [] {
      assert GoodField(fields[0].0, fields[0].1);
      assert forall f :: f in fields[1..] ==> f in fields;
      FieldLinesOpen(fields[1..]);
    }
  }

  lemma PrintedLinesOpen(step: string, fields: Fields)
    requires GoodStep(step) && forall f :: f in fields ==> GoodField(f.0, f.1)
    ensures forall line :: line in PrintedLines(step, fields) ==> '\n' !in line
  {
    hide GoodField;
    FieldLinesOpen(fields);
    assert IsSpace('\n') && '\n' !in step;
  }

  lemma {:induction false} OutputLinesOpen(items: seq<Item>)
    requires forall item :: item in items ==> GoodItem(item)
    ensures forall line :: line in OutputLines(items) ==> '\n' !in line
  {
    hide GoodField, PrintedLines, GoodStep;
    if items != [] {
      assert GoodItem(items[0]) && forall i :: i in items[1..] ==> i in items;
      if items[0].Status? {
        PrintedLinesOpen(items[0].step, items[0].fields);
      }
      OutputLinesOpen(items[1..]);
    }
  }

  /**
   Main result: parsing undoes printing.  Whatever lines stand between the blocks and however the
   output is cut into chunks, exactly the printed blocks are found, in order, and announced in that order.
   */
  lemma ParseUndoesPrint(items: seq<Item>, chunks: seq<string>)
    requires forall item :: item in items ==> GoodItem(item)
    requires Concat(chunks) == Unlines(OutputLines(items))
    ensures
      var s := WriteAll(Init(), chunks);
      && s.blocks == s.announced == PrintedBlocks(items)
      && s.current == None && s.lineBuf == "" && s.transcript == Unlines(OutputLines(items))
  {
    hide ProcessLines, OutputLines, Lines, Unlines, Write, GoodItem, PrintedBlocks;
    var lines := OutputLines(items);
    OutputLinesOpen(items);
    ChunkIndependent(Init(), chunks);
    LinesOfUnlines(lines);
    assert "" + Unlines(lines) == Unlines(lines);
    WriteReadsLines(Init(), Unlines(lines));
    assert (lines + [""])[..|lines|] == lines;
    ItemsRead(Init(), items);
    assert [] + PrintedBlocks(items) == PrintedBlocks(items);
  }

  // ---------- What each line does, whatever block is open ----------

  /** A start line opens an empty block; a block still open is dropped, without being announced. */
  lemma StartLine(s: State, step: string, more: string)
    requires GoodStep(step)
    ensures ProcessLine(s, "=== NANOCLAW SETUP: " + step + " ===" + more) == s.(current := Some(Block(step, map[])))
  {
    hide Word;
    var line := "=== NANOCLAW SETUP: " + step + " ===" + more;
    assert START + step + CLOSE <= line;
    StartStepIs(line, step);
  }

  /** An end line closes and announces the open block, and does nothing when none is open. */
  lemma EndLine(s: State, more: string)
    ensures s.current.None? ==> ProcessLine(s, "=== END ===" + more) == s
    ensures s.current.Some? ==>
              ProcessLine(s, "=== END ===" + more) ==
              State(s.lineBuf, None, s.blocks + [s.current.value], s.announced + [s.current.value], s.transcript)
  {
    var line := "=== END ===" + more;
    assert line[4] == 'E' && START[4] == 'N' && END <= line;
  }

  /** Neither marker: no step name makes a start line of it, and it is no end line. */
  ghost predicate Plain(line: string) {
    && !("=== END ===" <= line)
    && forall step :: GoodStep(step) ==> !("=== NANOCLAW SETUP: " + step + " ===" <= line)
  }

  /** Any other line counts only inside a block, and there only with a colon and a key before it. */
  lemma OtherLine(s: State, line: string)
    requires Plain(line) && (s.current.None? || ':' !in line)
    ensures ProcessLine(s, line) == s
  {
    PlainStartsNothing(line);
    assert line[0..] == line;
  }

  lemma PlainStartsNothing(line: string)
    requires Plain(line)
    ensures StartStep(line) == None && !(END <= line)
  {
    hide StartStep;
    if StartStep(line).Some? {
      StartStepIs(line, StartStep(line).value);
    }
  }

  /** The first colon divides key and value; both are trimmed, a later line of the same key wins. */
  lemma ColonLine(s: State, key: string, value: string)
    requires s.current.Some? && ':' !in key && Plain(key + ":" + value)
    ensures ProcessLine(s, key + ":" + value) ==
            if Trim(key) == "" then s
            else s.(current := Some(Block(s.current.value.kind, s.current.value.fields[Trim(key) := Trim(value)])))
  {
    hide Trim, StartStep;
    var line := key + ":" + value;
    PlainStartsNothing(line);
    assert line[0..|key|] == key && line[|key|] == ':';
    IndexIs(line, ':', 0, |key|);
    assert line[..|key|] == key && line[|key| + 1..] == value;
  }

  lemma {:induction false} FieldLineAt(fields: Fields, i: nat)
    requires i < |fields|
    ensures |FieldLines(fields)| == |fields| && FieldLines(fields)[i] == fields[i].0 + ": " + fields[i].1
  {
    if i > 0 {
      FieldLineAt(fields[1..], i - 1);
    } else if |fields| > 1 {
      FieldLineAt(fields[1..], 0);
    }
  }

  /** The lines of a printed block. */
  lemma PrintedLinesAre(step: string, fields: Fields)
    ensures
      var lines := PrintedLines(step, fields);
      && |lines| == |fields| + 2
      && lines[0] == "=== NANOCLAW SETUP: " + step + " ===" && lines[|fields| + 1] == "=== END ==="
      && forall i :: 0 <= i < |fields| ==> lines[i + 1] == fields[i].0 + ": " + fields[i].1
  {
    hide FieldLines;
    assert |FieldLines(fields)| == |fields| by {
      if fields != [] { FieldLineAt(fields, 0); } else { NoFieldLines(); }
    }
    forall i | 0 <= i < |fields|
      ensures PrintedLines(step, fields)[i + 1] == fields[i].0 + ": " + fields[i].1
    {
      FieldLineAt(fields, i);
    }
  }

  lemma NoFieldLines()
    ensures FieldLines([]) == []
  {
  }

  // ---------- The terminal block ----------

  predicate HasStatus(b: Block) {
    "STATUS" in b.fields && b.fields["STATUS"] != ""
  }

  /** The newest block with a non-empty STATUS. */
  function Terminal(blocks: seq<Block>): Option<Block> {
    if blocks == [] then None
    else if HasStatus(blocks[|blocks| - 1]) then Some(blocks[|blocks| - 1])
    else Terminal(blocks[..|blocks| - 1])
  }

  /** The newest block whose STATUS is there and not empty, if any block has such a STATUS. */
  lemma {:induction false} TerminalIsLast(blocks: seq<Block>)
    ensures Terminal(blocks) == None <==>
            forall i :: 0 <= i < |blocks| ==> !("STATUS" in blocks[i].fields && blocks[i].fields["STATUS"] != "")
    ensures Terminal(blocks).Some? ==>
              exists i :: 0 <= i < |blocks| && blocks[i] == Terminal(blocks).value && Decides(blocks, i)
  {
    if blocks != [] {
      var last := |blocks| - 1;
      var front := blocks[..last];
      assert forall i :: 0 <= i < last ==> front[i] == blocks[i];
      TerminalIsLast(front);
      if HasStatus(blocks[last]) {
        assert Decides(blocks, last);
      } else if Terminal(front).Some? {
        var i :| 0 <= i < last && front[i] == Terminal(front).value && Decides(front, i);
        assert forall j :: i < j < last ==> front[j] == blocks[j];
        assert front[i] == blocks[i] && Decides(blocks, i);
      }
    }
  }

  ghost predicate Decides(blocks: seq<Block>, i: int)
    requires 0 <= i < |blocks|
  {
    && "STATUS" in blocks[i].fields && blocks[i].fields["STATUS"] != ""
    && forall j :: i < j < |blocks| ==> !("STATUS" in blocks[j].fields && blocks[j].fields["STATUS"] != "")
  }

  // ---------- The code ----------

  class StatusStream {
    var lineBuf: string
    var current: Option<Block>
    var blocks: seq<Block>
    var announced: seq<Block>
    var transcript: string

    ghost function View(): State
      reads this
    {
      State(lineBuf, current, blocks, announced, transcript)
    }

    constructor ()
      ensures View() == Init()
    {
      lineBuf, current, blocks, announced, transcript := "", None, [], [], "";
    }

    method WriteChunk(chunk: string)
      modifies this
      ensures View() == Write(old(View()), chunk)
    {
      hide ProcessLine;
      transcript := transcript + chunk;
      lineBuf := lineBuf + chunk;
      var idx := IndexOf(lineBuf, '\n');
      while idx != -1
        invariant idx == IndexOf(lineBuf, '\n')
        invariant Drain(View()) == Write(old(View()), chunk)
        decreases |lineBuf|
      {
        var line := lineBuf[..idx];
        lineBuf := lineBuf[idx + 1..];
        LineUnread(View(), line, lineBuf);
        HandleLine(line);
        idx := IndexOf(lineBuf, '\n');
      }
    }

    method HandleLine(line: string)
      modifies this
      ensures View() == ProcessLine(old(View()), line)
    {
      hide StartStep, IndexOf, Trim;
      var start := StartStep(line);
      if start.Some? {
        current := Some(Block(start.value, map[]));
        return;
      }
      if END <= line {
        if current.Some? {
          blocks := blocks + [current.value];
          announced := announced + [current.value];
          current := None;
        }
        return;
      }
      if current.None? {
        return;
      }
      var colon := IndexOf(line, ':');
      if colon == -1 {
        return;
      }
      var key := Trim(line[..colon]);
      var value := Trim(line[colon + 1..]);
      if key != "" {
        current := Some(current.value.(fields := current.value.fields[key := value]));
      }
    }
  }

  /** emitStatus: the text that console.log writes. */
  method EmitStatus(step: string, fields: Fields) returns (text: string)
    ensures text == Unlines(PrintedLines(step, fields))
  {
    var lines := [START + step + CLOSE];
    for i := 0 to |fields|
      invariant [START + step + CLOSE] + FieldLines(fields) == lines + FieldLines(fields[i..])
    {
      lines := lines + [FieldLine(fields[i].0, fields[i].1)];
      assert fields[i..][1..] == fields[i + 1..];
    }
    assert FieldLines(fields[|fields|..]) == [];
    lines := lines + [END];
    assert lines == PrintedLines(step, fields);
    UnlinesIsJoin(lines);
    text := Join(lines) + "\n";
  }
}
