/** The parser of frontend/src/lib/sse.ts against sections 9.2.5 and 9.2.6 of the HTML Standard: on
    exactly which streams the two give the same messages. */
module EventStreamStandard {
  import opened Prelude
  import opened EventStream

  // ---------------------------------------------------------------- the standard

  const BOM := '\U{FEFF}'

  predicate HasBom(text: string) { text != "" && text[0] == BOM }

  /** One leading byte order mark is not part of the stream. */
  function WithoutBom(text: string): string { if HasBom(text) then text[1..] else text }

  /** The lines ended by CRLF, LF or CR; what follows the last of them is no line. */
  function EndedLines(text: string): seq<string>
    decreases |text|
  {
    var i := FirstBreak(text);
    if i == |text| then []
    else if text[i] == '\r' && i + 1 < |text| && text[i + 1] == '\n' then [text[..i]] + EndedLines(text[i + 2..])
    else [text[..i]] + EndedLines(text[i + 1..])
  }

  /** The data buffer, the event type buffer, and the events dispatched so far. */
  datatype Buffers = Buffers(data: string, eventType: string, out: seq<Message>)

  function Processed(b: Buffers, line: string): Buffers {
    if line == "" then
      if b.data == "" then Buffers("", "", b.out)
      else
        var name := if b.eventType == "" then "message" else b.eventType;
        Buffers("", "", b.out + [Message(name, b.data[..|b.data| - 1])])
    else if line[0] == ':' then b
    else if Field(line) == "event" then b.(eventType := Value(line))
    else if Field(line) == "data" then b.(data := b.data + Value(line) + "\n")
    else b
  }

  function ProcessedAll(b: Buffers, lines: seq<string>): Buffers
    decreases |lines|
  {
    if lines == [] then b else ProcessedAll(Processed(b, lines[0]), lines[1..])
  }

  /** The events of a finished stream; data pending at its end is discarded. */
  function Standard(text: string): seq<Message> {
    ProcessedAll(Buffers("", "", []), EndedLines(WithoutBom(text))).out
  }

  // ---------------------------------------------------------------- blocks

  /** The runs of lines that a blank line ends, and what is left after the last of them. */
  function Blocks(lines: seq<string>): seq<seq<string>>
    decreases |lines|
  {
    var i := FirstBlank(lines);
    if i == |lines| then [] else [lines[..i]] + Blocks(lines[i + 1..])
  }

  lemma {:induction false} BlocksStep(lines: seq<string>, i: nat)
    requires i == FirstBlank(lines)
    ensures Blocks(lines) == if i == |lines| then [] else [lines[..i]] + Blocks(lines[i + 1..])
  {
    hide FirstBlank;
  }

  function Tail(lines: seq<string>): seq<string>
    decreases |lines|
  {
    var i := FirstBlank(lines);
    if i == |lines| then lines else Tail(lines[i + 1..])
  }

  lemma {:induction false} TailStep(lines: seq<string>, i: nat)
    requires i == FirstBlank(lines)
    ensures Tail(lines) == if i == |lines| then lines else Tail(lines[i + 1..])
  {
    hide FirstBlank;
  }

  lemma {:induction false} InterpretStep(lines: seq<string>, i: nat)
    requires i == FirstBlank(lines)
    ensures Interpret(lines) == if i == |lines| then BlockMessage(lines)
                                else BlockMessage(lines[..i]) + Interpret(lines[i + 1..])
  {
    hide FirstBlank, BlockMessage;
  }

  /** The event type of a block: empty counts as not given. */
  function StandardName(block: seq<string>): string {
    var name := EventOf(block, "message");
    if name == "" then "message" else name
  }

  function StandardMessage(block: seq<string>): seq<Message> {
    if DataOf(block) == [] then [] else [Message(StandardName(block), Join(DataOf(block)))]
  }

  function Emitted(blocks: seq<seq<string>>): seq<Message> {
    if blocks == [] then [] else BlockMessage(blocks[0]) + Emitted(blocks[1..])
  }

  function StandardEmitted(blocks: seq<seq<string>>): seq<Message> {
    if blocks == [] then [] else StandardMessage(blocks[0]) + StandardEmitted(blocks[1..])
  }

  lemma {:induction false} InterpretByBlocks(lines: seq<string>)
    ensures Interpret(lines) == Emitted(Blocks(lines)) + BlockMessage(Tail(lines))
    decreases |lines|
  {
    hide BlockMessage, Blocks, Emitted, FirstBlank, Tail, Interpret;
    var i := FirstBlank(lines);
    BlocksStep(lines, i);
    TailStep(lines, i);
    InterpretStep(lines, i);
    if i < |lines| {
      InterpretByBlocks(lines[i + 1..]);
      EmittedCons(lines[..i], Blocks(lines[i + 1..]));
    } else {
      NothingEmitted();
      assert [] + BlockMessage(lines) == BlockMessage(lines);
    }
  }

  // ---------------------------------------------------------------- the standard by blocks

  /** What the data buffer holds: each value and a line feed. */
  function Buffered(values: seq<string>): string {
    if values == [] then "" else values[0] + "\n" + Buffered(values[1..])
  }

  lemma {:induction false} BufferedJoins(values: seq<string>)
    ensures values == [] <==> Buffered(values) == ""
    ensures values != [] ==> Buffered(values)[..|Buffered(values)| - 1] == Join(values)
  {
    if |values| > 1 {
      BufferedJoins(values[1..]);
      var rest := Buffered(values[1..]);
      assert (values[0] + "\n" + rest)[..|values[0] + "\n" + rest| - 1] == values[0] + "\n" + rest[..|rest| - 1];
    }
  }

  predicate IsData(line: string) { line != "" && line[0] != ':' && Field(line) == "data" }

  /** What a line adds to the data buffer. */
  function Added(line: string): string { if IsData(line) then Value(line) + "\n" else "" }

  lemma BufferedCons(block: seq<string>)
    requires block != []
    ensures Buffered(DataOf(block)) == Added(block[0]) + Buffered(DataOf(block[1..]))
  {
    hide Field, Value;
    var later := DataOf(block[1..]);
    if IsData(block[0]) {
      assert ([Value(block[0])] + later)[1..] == later;
    } else {
      assert [] + later == later;
    }
  }

  /** The event type after a line. */
  function Named(line: string, name: string): string {
    if line != "" && line[0] != ':' && Field(line) == "event" then Value(line) else name
  }

  /** The buffers after more data, under a new event type. */
  function Grown(b: Buffers, data: string, eventType: string): (r: Buffers)
    ensures r.eventType == eventType
  {
    b.(data := b.data + data, eventType := eventType)
  }

  lemma GrownTwice(b: Buffers, x: string, m: string, y: string, n: string)
    ensures Grown(Grown(b, x, m), y, n) == Grown(b, x + y, n)
  {
    assert b.data + x + y == b.data + (x + y);
  }

  lemma OneProcessed(b: Buffers, line: string)
    requires line != ""
    ensures Processed(b, line) == Grown(b, Added(line), Named(line, b.eventType))
  {
    hide Field, Value;
    assert b.data + "" == b.data;
    if IsData(line) {
      assert b.data + Value(line) + "\n" == b.data + Added(line);
    }
  }

  lemma BlockStep(b: Buffers, block: seq<string>)
    requires block != []
    ensures EventOf(block, b.eventType) == EventOf(block[1..], Named(block[0], b.eventType))
    ensures ProcessedAll(b, block) == ProcessedAll(Processed(b, block[0]), block[1..])
  {
    hide Field, Value, Processed;
  }

  lemma {:induction false} ProcessBlock(b: Buffers, block: seq<string>)
    requires forall j :: 0 <= j < |block| ==> block[j] != ""
    ensures ProcessedAll(b, block) == Grown(b, Buffered(DataOf(block)), EventOf(block, b.eventType))
    decreases |block|
  {
    if block == [] {
      assert b.data + "" == b.data;
    } else {
      hide Buffered, DataOf, Processed, ProcessedAll, EventOf, Added, Named, Grown;
      var line, later := block[0], block[1..];
      var next := Processed(b, line);
      OneProcessed(b, line);
      BlockStep(b, block);
      ProcessBlock(next, later);
      BufferedCons(block);
      GrownTwice(b, Added(line), next.eventType, Buffered(DataOf(later)), EventOf(later, next.eventType));
    }
  }

  lemma {:induction false} ProcessAppend(b: Buffers, x: seq<string>, y: seq<string>)
    ensures ProcessedAll(b, x + y) == ProcessedAll(ProcessedAll(b, x), y)
    decreases |x|
  {
    if x == [] {
      assert x + y == y;
    } else {
      assert (x + y)[1..] == x[1..] + y;
      ProcessAppend(Processed(b, x[0]), x[1..], y);
    }
  }

  /** A default only shows when the block names no event. */
  lemma {:induction false} EventDefault(block: seq<string>, x: string, y: string)
    ensures EventOf(block, x) == EventOf(block, y) || (EventOf(block, x) == x && EventOf(block, y) == y)
  {
    if block != [] { EventDefault(block[1..], x, y); }
  }

  lemma BlockProcessed(out: seq<Message>, block: seq<string>)
    requires forall j :: 0 <= j < |block| ==> block[j] != ""
    ensures Processed(ProcessedAll(Buffers("", "", out), block), "") == Buffers("", "", out + StandardMessage(block))
  {
    hide Join, Buffered, ProcessedAll, DataOf, EventOf;
    ProcessBlock(Buffers("", "", out), block);
    assert "" + Buffered(DataOf(block)) == Buffered(DataOf(block));
    BufferedJoins(DataOf(block));
    EventDefault(block, "", "message");
    assert out + [] == out;
  }

  lemma {:induction false} StandardByBlocks(out: seq<Message>, lines: seq<string>)
    ensures ProcessedAll(Buffers("", "", out), lines).out == out + StandardEmitted(Blocks(lines))
    decreases |lines|
  {
    hide StandardMessage, Processed, ProcessedAll, StandardEmitted, DataOf, EventOf, Blocks, FirstBlank;
    var i := FirstBlank(lines);
    BlocksStep(lines, i);
    if i == |lines| {
      ProcessBlock(Buffers("", "", out), lines);
      NothingEmitted();
      assert out + [] == out;
    } else {
      FirstProcessed(out, lines, i);
      StandardByBlocks(out + StandardMessage(lines[..i]), lines[i + 1..]);
      EmittedCons(lines[..i], Blocks(lines[i + 1..]));
      assert out + StandardMessage(lines[..i]) + StandardEmitted(Blocks(lines[i + 1..]))
          == out + (StandardMessage(lines[..i]) + StandardEmitted(Blocks(lines[i + 1..])));
    }
  }

  lemma NothingEmitted()
    ensures Emitted([]) == [] && StandardEmitted([]) == []
  {
  }

  lemma EmittedCons(block: seq<string>, later: seq<seq<string>>)
    ensures Emitted([block] + later) == BlockMessage(block) + Emitted(later)
    ensures StandardEmitted([block] + later) == StandardMessage(block) + StandardEmitted(later)
  {
    hide BlockMessage, StandardMessage;
    assert ([block] + later)[1..] == later;
  }

  lemma FirstProcessed(out: seq<Message>, lines: seq<string>, i: nat)
    requires i < |lines| && lines[i] == "" && forall j :: 0 <= j < i ==> lines[j] != ""
    ensures ProcessedAll(Buffers("", "", out), lines)
         == ProcessedAll(Buffers("", "", out + StandardMessage(lines[..i])), lines[i + 1..])
  {
    hide StandardMessage, Processed, ProcessedAll;
    BlockProcessed(out, lines[..i]);
    ProcessAppend(Buffers("", "", out), lines[..i], lines[i..]);
    assert lines == lines[..i] + lines[i..];
    ProcessFirst(ProcessedAll(Buffers("", "", out), lines[..i]), lines[i..]);
    assert lines[i..][1..] == lines[i + 1..];
  }

  lemma ProcessFirst(b: Buffers, lines: seq<string>)
    requires lines != []
    ensures ProcessedAll(b, lines) == ProcessedAll(Processed(b, lines[0]), lines[1..])
  {
    hide Processed;
  }

  // ---------------------------------------------------------------- the same blocks

  /** The flush takes what follows the last line end for a line of its own. */
  lemma {:induction false} LinesAreEnded(text: string)
    ensures LinesOf(text) == EndedLines(text) || exists last :: last != "" && LinesOf(text) == EndedLines(text) + [last]
    decreases |text|
  {
    var i := FirstBreak(text);
    match Cut(text)
    case Some((line, rest)) =>
      LinesAreEnded(rest);
      assert EndedLines(text) == [line] + EndedLines(rest);
      if LinesOf(rest) != EndedLines(rest) {
        var last :| last != "" && LinesOf(rest) == EndedLines(rest) + [last];
        assert LinesOf(text) == EndedLines(text) + [last];
      }
    case None =>
      if i == |text| {
        if text != "" {
          assert LinesOf(text) == EndedLines(text) + [text];
        }
      } else {
        assert text[i + 1..] == "";
        assert EndedLines(text) == [text[..i]] + EndedLines("");
      }
  }

  lemma {:induction false} LastLineInTail(lines: seq<string>, last: string)
    requires last != ""
    ensures Blocks(lines + [last]) == Blocks(lines)
    decreases |lines|
  {
    var i := FirstBlank(lines);
    FirstBlankIs(lines + [last], if i == |lines| then i + 1 else i);
    BlocksStep(lines, i);
    BlocksStep(lines + [last], if i == |lines| then i + 1 else i);
    hide Blocks, FirstBlank;
    if i < |lines| {
      LastLineInTail(lines[i + 1..], last);
      SliceBefore(lines, last, i);
    }
  }

  lemma SliceBefore(lines: seq<string>, last: string, i: nat)
    requires i < |lines|
    ensures (lines + [last])[i + 1..] == lines[i + 1..] + [last] && (lines + [last])[..i] == lines[..i]
  {
  }

  lemma FirstBlankIs(lines: seq<string>, i: nat)
    requires i <= |lines| && (forall j :: 0 <= j < i ==> lines[j] != "") && (i < |lines| ==> lines[i] == "")
    ensures FirstBlank(lines) == i
  {
  }

  lemma StandardMeaning(text: string)
    requires !HasBom(text)
    ensures Standard(text) == StandardEmitted(Blocks(LinesOf(text)))
  {
    StandardByBlocks([], EndedLines(text));
    assert [] + StandardEmitted(Blocks(EndedLines(text))) == StandardEmitted(Blocks(EndedLines(text)));
    LinesAreEnded(text);
    if LinesOf(text) != EndedLines(text) {
      var last :| last != "" && LinesOf(text) == EndedLines(text) + [last];
      LastLineInTail(EndedLines(text), last);
    }
  }

  // ---------------------------------------------------------------- without a byte order mark

  /** No block with data sets its event to the empty string last. */
  predicate NamesOk(blocks: seq<seq<string>>) {
    forall i :: 0 <= i < |blocks| ==> DataOf(blocks[i]) == [] || EventOf(blocks[i], "message") != ""
  }

  /** And there is no data after the last blank line. */
  predicate Agrees(lines: seq<string>) { NamesOk(Blocks(lines)) && DataOf(Tail(lines)) == [] }

  lemma {:induction false} EmittedExactly(blocks: seq<seq<string>>)
    ensures |Emitted(blocks)| == |StandardEmitted(blocks)|
    ensures Emitted(blocks) == StandardEmitted(blocks) <==> NamesOk(blocks)
    decreases |blocks|
  {
    hide DataOf, EventOf, Join;
    if blocks != [] {
      EmittedExactly(blocks[1..]);
      var a, b := BlockMessage(blocks[0]), StandardMessage(blocks[0]);
      SplitEqual(a, Emitted(blocks[1..]), b, StandardEmitted(blocks[1..]));
      var named := DataOf(blocks[0]) == [] || EventOf(blocks[0], "message") != "";
      assert NamesOk(blocks) <==> named && NamesOk(blocks[1..]) by {
        assert forall i :: 1 <= i < |blocks| ==> blocks[i] == blocks[1..][i - 1];
      }
    }
  }

  lemma SplitEqual(a: seq<Message>, x: seq<Message>, b: seq<Message>, y: seq<Message>)
    requires |a| == |b|
    ensures a + x == b + y <==> a == b && x == y
  {
    if a + x == b + y {
      assert a == (a + x)[..|a|] && b == (b + y)[..|b|];
      assert x == (a + x)[|a|..] && y == (b + y)[|b|..];
    }
  }

  lemma InterpretExactly(lines: seq<string>)
    ensures Interpret(lines) == StandardEmitted(Blocks(lines)) <==> Agrees(lines)
  {
    hide DataOf, EventOf, Emitted, StandardEmitted, Join;
    InterpretByBlocks(lines);
    EmittedExactly(Blocks(lines));
    var tail := BlockMessage(Tail(lines));
    assert Emitted(Blocks(lines)) + [] == Emitted(Blocks(lines));
    assert |Emitted(Blocks(lines)) + tail| == |StandardEmitted(Blocks(lines))| + |tail|;
  }

  // ---------------------------------------------------------------- behind a byte order mark

  /** The parser takes the mark for the start of the first line, which it then ignores. */
  lemma MarkedLines(text: string)
    ensures var lines := LinesOf(text);
      Interpret(LinesOf([BOM] + text)) == Interpret(if lines == [] then [] else lines[1..])
  {
    hide Interpret, LinesOf;
    var all := [BOM] + text;
    var first := MarkedFirst(text);
    var rest := if LinesOf(text) == [] then [] else LinesOf(text)[1..];
    assert LinesOf(all) == [first] + rest;
    IgnoredFirst(first, rest);
  }

  lemma MarkedFirst(text: string) returns (first: string)
    ensures first != "" && first[0] == BOM
    ensures LinesOf([BOM] + text) == [first] + (if LinesOf(text) == [] then [] else LinesOf(text)[1..])
  {
    var all, i := [BOM] + text, FirstBreak(text);
    FirstBreakUnique(all, i + 1);
    assert all[1..] == text;
    match Cut(text)
    case Some((line, rest)) =>
      first := [BOM] + line;
      assert all[..i + 1] == [BOM] + text[..i];
      assert all[i + 2..] == text[i + 1..];
      if i + 2 <= |text| {
        assert all[i + 3..] == text[i + 2..];
      }
      assert Cut(all) == Some((first, rest));
      assert LinesOf(text)[1..] == LinesOf(rest);
    case None =>
      first := DropFinalCR(all);
      assert Cut(all).None?;
      assert LinesOf(all) == [first] + [];
      assert text != "" ==> LinesOf(text)[1..] == [];
  }

  lemma IgnoredFirst(first: string, rest: seq<string>)
    requires first != "" && first[0] == BOM
    ensures Interpret([first] + rest) == Interpret(rest)
  {
    hide Value, Join;
    var lines, i := [first] + rest, FirstBlank(rest);
    assert Field(first) != "data" && Field(first) != "event" by { MarkedField(first); }
    FirstBlankIs(lines, i + 1);
    assert lines[..i + 1] == [first] + rest[..i] && lines[i + 1..] == rest[i..];
    IgnoredInBlock(first, rest[..i]);
    if i == |rest| {
      assert rest[..i] == rest && lines[..i + 1] == lines;
    } else {
      assert lines[i + 2..] == rest[i + 1..];
    }
  }

  lemma MarkedField(line: string)
    requires line != "" && line[0] == BOM
    ensures Field(line) != "" ==> Field(line)[0] == BOM
    ensures Field(line) != "data" && Field(line) != "event"
  {
    var colon := IndexOf(line, ':');
    assert colon != 0;
    assert "data"[0] != BOM && "event"[0] != BOM;
  }

  lemma IgnoredInBlock(first: string, block: seq<string>)
    requires first != "" && Field(first) != "data" && Field(first) != "event"
    ensures BlockMessage([first] + block) == BlockMessage(block)
  {
    hide Value, Join;
    assert ([first] + block)[1..] == block;
    assert [] + DataOf(block) == DataOf(block);
  }

  /** When reading past the mark costs nothing, for the lines of the text behind it. The first line is
      lost: harmless when it is blank, and in a last unfinished block that holds no other data; if it is
      no data field, when the event it might have named is named again; if it is one, only when its
      block held nothing else, and a discarded last block repeats the one message the stream consists of. */
  predicate MarkHarmless(lines: seq<string>) {
    lines == []
    || if lines[0] == "" then Agrees(lines[1..])
       else
         var i := FirstBlank(lines[1..]);
         if i == |lines[1..]| then DataOf(lines[1..]) == []
         else
           var block, later := lines[1..][..i], lines[1..][i + 1..];
           if !IsData(lines[0]) then
             (DataOf(block) == [] || EventOf(block, "message") == StandardName([lines[0]] + block)) && Agrees(later)
           else
             DataOf(block) == [] && NamesOk(Blocks(later)) && DataOf(Tail(later)) != []
             && (forall m :: m in StandardEmitted([[lines[0]] + block] + Blocks(later)) ==>
                   [m] == BlockMessage(Tail(later)))
  }

  lemma BlocksOfMarked(lines: seq<string>)
    requires lines != []
    ensures var i := FirstBlank(lines[1..]);
      Blocks(lines) == (if lines[0] == "" then [[]] + Blocks(lines[1..])
                        else if i == |lines[1..]| then []
                        else [[lines[0]] + lines[1..][..i]] + Blocks(lines[1..][i + 1..]))
  {
    hide Blocks, FirstBlank;
    var i := FirstBlank(lines[1..]);
    if lines[0] == "" {
      FirstBlankIs(lines, 0);
      BlocksStep(lines, 0);
      assert lines[..0] == [];
    } else {
      FirstBlankIs(lines, i + 1);
      BlocksStep(lines, i + 1);
      if i < |lines[1..]| {
        SliceBehind(lines, i);
      }
    }
  }

  lemma SliceBehind(lines: seq<string>, i: nat)
    requires i + 1 < |lines|
    ensures lines[..i + 1] == [lines[0]] + lines[1..][..i] && lines[i + 2..] == lines[1..][i + 1..]
  {
  }

  lemma MarkExactly(lines: seq<string>)
    ensures Interpret(if lines == [] then [] else lines[1..]) == StandardEmitted(Blocks(lines)) <==> MarkHarmless(lines)
  {
    hide Interpret, Blocks, Tail, DataOf, EventOf, NamesOk, Join;
    if lines == [] {
      InterpretExactly([]);
      NoBlocks();
    } else {
      BlocksOfMarked(lines);
      var rest := lines[1..];
      var i := FirstBlank(rest);
      if lines[0] == "" {
        InterpretExactly(rest);
        BlankFirst(Blocks(rest));
      } else if i == |rest| {
        OneBlock(rest);
      } else {
        MarkedBlock(lines[0], rest[..i], rest[i + 1..], rest);
      }
    }
  }

  lemma NoBlocks()
    ensures Blocks([]) == [] && Agrees([])
  {
  }

  lemma BlankFirst(blocks: seq<seq<string>>)
    ensures StandardEmitted([[]] + blocks) == StandardEmitted(blocks)
  {
    assert ([[]] + blocks)[1..] == blocks;
    assert DataOf([]) == [];
  }

  lemma OneBlock(lines: seq<string>)
    requires FirstBlank(lines) == |lines|
    ensures Interpret(lines) == BlockMessage(lines)
  {
  }

  /** The first block loses its first line, the others nothing. */
  lemma MarkedBlock(first: string, block: seq<string>, later: seq<string>, rest: seq<string>)
    requires first != "" && FirstBlank(rest) < |rest| && block == rest[..FirstBlank(rest)]
    requires later == rest[FirstBlank(rest) + 1..]
    ensures Interpret(rest) == StandardEmitted([[first] + block] + Blocks(later))
      <==> (if !IsData(first) then
              (DataOf(block) == [] || EventOf(block, "message") == StandardName([first] + block)) && Agrees(later)
            else
              DataOf(block) == [] && NamesOk(Blocks(later)) && DataOf(Tail(later)) != []
              && (forall m :: m in StandardEmitted([[first] + block] + Blocks(later)) ==>
                    [m] == BlockMessage(Tail(later))))
  {
    hide DataOf, EventOf, NamesOk, Blocks, Tail, Join, Field, Value;
    var mine, standard := BlockMessage(block), StandardMessage([first] + block);
    var rest1, std1 := Interpret(later), StandardEmitted(Blocks(later));
    assert ([[first] + block] + Blocks(later))[1..] == Blocks(later);
    assert StandardEmitted([[first] + block] + Blocks(later)) == standard + std1;
    assert Interpret(rest) == mine + rest1;
    InterpretExactly(later);
    InterpretByBlocks(later);
    EmittedExactly(Blocks(later));
    FirstData(first, block);
    if !IsData(first) {
      SplitEqual(mine, rest1, standard, std1);
    } else if DataOf(block) != [] {
      LongerFirst(DataOf([first] + block)[0], DataOf(block));
      SplitEqual(mine, rest1, standard, std1);
    } else {
      assert mine + rest1 == rest1;
      ShiftExactly(standard[0], Blocks(later), BlockMessage(Tail(later)));
    }
  }

  lemma FirstData(first: string, block: seq<string>)
    requires first != ""
    ensures if IsData(first) then DataOf([first] + block) == [Value(first)] + DataOf(block)
            else DataOf([first] + block) == DataOf(block)
  {
    assert ([first] + block)[1..] == block;
    assert [] + DataOf(block) == DataOf(block);
  }

  lemma LongerFirst(value: string, values: seq<string>)
    requires values != []
    ensures Join([value] + values) != Join(values)
  {
    assert ([value] + values)[1..] == values;
    assert |Join([value] + values)| > |Join(values)|;
  }

  /** A list with its first message lost and another added at the end is the same list exactly when all
      its messages are that one. */
  lemma ShiftExactly(first: Message, blocks: seq<seq<string>>, tail: seq<Message>)
    requires first.event != "" && |tail| <= 1
    ensures Emitted(blocks) + tail == [first] + StandardEmitted(blocks)
      <==> NamesOk(blocks) && tail != [] && forall m :: m in [first] + StandardEmitted(blocks) ==> [m] == tail
  {
    hide Emitted, StandardEmitted, NamesOk;
    EmittedExactly(blocks);
    var mine, std := Emitted(blocks), StandardEmitted(blocks);
    if mine + tail == [first] + std {
      assert |mine + tail| == |[first] + std|;
      NamesNonEmpty(blocks);
      ShiftForces(mine, std, first, tail);
    }
    if tail != [] && mine == std && forall m :: m in [first] + std ==> [m] == tail {
      ShiftSuffices(std, first, tail);
    }
  }

  lemma ShiftAt(mine: seq<Message>, std: seq<Message>, first: Message, tail: seq<Message>, i: nat)
    requires i < |mine| == |std| && mine + tail == [first] + std && first.event != ""
    requires i > 0 ==> std[i - 1].event != ""
    requires mine[i].event != "" ==> mine[i] == std[i]
    ensures mine[i] == std[i] && ([first] + std)[i] == mine[i]
  {
    assert mine[i] == (mine + tail)[i];
  }

  lemma {:induction false} ShiftedIsTail(mine: seq<Message>, std: seq<Message>, first: Message,
                                         tail: seq<Message>, i: nat)
    requires |tail| == 1 && i <= |mine| == |std| && mine + tail == [first] + std && first.event != ""
    requires forall k :: 0 <= k < |std| ==> std[k].event != ""
    requires forall k :: 0 <= k < |mine| && mine[k].event != "" ==> mine[k] == std[k]
    ensures ([first] + std)[i] == tail[0]
    decreases |mine| - i
  {
    if i < |mine| {
      ShiftAt(mine, std, first, tail, i);
      ShiftedIsTail(mine, std, first, tail, i + 1);
    } else {
      assert (mine + tail)[i] == tail[0];
    }
  }

  lemma ShiftForces(mine: seq<Message>, std: seq<Message>, first: Message, tail: seq<Message>)
    requires |mine| == |std| && |tail| == 1 && mine + tail == [first] + std && first.event != ""
    requires forall i :: 0 <= i < |std| ==> std[i].event != ""
    requires forall i :: 0 <= i < |mine| && mine[i].event != "" ==> mine[i] == std[i]
    ensures mine == std && forall m :: m in [first] + std ==> [m] == tail
  {
    forall i | 0 <= i < |mine| ensures mine[i] == std[i] {
      ShiftAt(mine, std, first, tail, i);
    }
    forall m | m in [first] + std ensures [m] == tail {
      var i :| 0 <= i < |[first] + std| && ([first] + std)[i] == m;
      ShiftedIsTail(mine, std, first, tail, i);
    }
  }

  lemma ShiftSuffices(std: seq<Message>, first: Message, tail: seq<Message>)
    requires |tail| == 1 && forall m :: m in [first] + std ==> [m] == tail
    ensures std + tail == [first] + std
  {
    var all := [first] + std;
    forall i | 0 <= i <= |std| ensures (std + tail)[i] == tail[0] && all[i] == tail[0] {
      assert all[i] in all;
      assert i < |std| ==> std[i] == all[i + 1] && all[i + 1] in all;
    }
  }

  /** Standard names are never empty, and where the parser's name is not empty either the messages are
      the same. */
  lemma {:induction false} NamesNonEmpty(blocks: seq<seq<string>>)
    ensures |Emitted(blocks)| == |StandardEmitted(blocks)|
    ensures forall i :: 0 <= i < |StandardEmitted(blocks)| ==> StandardEmitted(blocks)[i].event != ""
    ensures forall i :: 0 <= i < |Emitted(blocks)| && Emitted(blocks)[i].event != "" ==>
              Emitted(blocks)[i] == StandardEmitted(blocks)[i]
    decreases |blocks|
  {
    hide DataOf, EventOf, Join;
    if blocks != [] {
      NamesNonEmpty(blocks[1..]);
      var k := |BlockMessage(blocks[0])|;
      assert forall i :: k <= i < |Emitted(blocks)| ==> Emitted(blocks)[i] == Emitted(blocks[1..])[i - k];
      assert forall i :: k <= i < |StandardEmitted(blocks)| ==>
               StandardEmitted(blocks)[i] == StandardEmitted(blocks[1..])[i - k];
    }
  }

  // ---------------------------------------------------------------- the theorem

  /** On which streams, in any chunks, the parser gives exactly the standard's events. Without a leading
      mark: exactly when no block with data sets its event to the empty string, and no data follows the
      last blank line. Behind a mark: exactly when losing the first line costs nothing. */
  lemma StandardExactly(chunks: seq<string>)
    ensures var text := Flatten(chunks);
      Flushed(FedAll(INITIAL, chunks)).out == Standard(text)
      <==> (if HasBom(text) then MarkHarmless(LinesOf(text[1..])) else Agrees(LinesOf(text)))
  {
    hide Interpret, LinesOf, Standard, StandardEmitted, Blocks, MarkHarmless, Agrees, Flatten;
    var text := Flatten(chunks);
    ParserMeaning(chunks);
    if HasBom(text) {
      var behind := text[1..];
      assert text == [BOM] + behind;
      MarkedLines(behind);
      MarkExactly(LinesOf(behind));
      StandardBehind(behind);
    } else {
      StandardMeaning(text);
      InterpretExactly(LinesOf(text));
    }
  }

  /** Only the first mark is dropped. */
  lemma StandardBehind(text: string)
    ensures Standard([BOM] + text) == StandardEmitted(Blocks(LinesOf(text)))
  {
    assert ([BOM] + text)[1..] == text;
    StandardByBlocks([], EndedLines(text));
    assert [] + StandardEmitted(Blocks(EndedLines(text))) == StandardEmitted(Blocks(EndedLines(text)));
    LinesAreEnded(text);
    if LinesOf(text) != EndedLines(text) {
      var last :| last != "" && LinesOf(text) == EndedLines(text) + [last];
      LastLineInTail(EndedLines(text), last);
    }
  }
}
