/** The incremental text/event-stream parser of frontend/src/lib/sse.ts. */
module EventStream {
  import opened Prelude

  datatype Message = Message(event: string, data: string)

  /** The three closure variables of the parser, and the messages handed to the callback so far. */
  datatype State = State(buffer: string, event: string, dataLines: seq<string>, out: seq<Message>)

  const INITIAL := State("", "message", [], [])

  // ---------------------------------------------------------------- strings

  predicate IsBreak(c: char) { c == '\r' || c == '\n' }

  /** Position of the first CR or LF, or the length when there is none. */
  function FirstBreak(s: string): (i: nat)
    ensures i <= |s|
    ensures forall j :: 0 <= j < i ==> !IsBreak(s[j])
    ensures i < |s| ==> IsBreak(s[i])
  {
    if s == "" || IsBreak(s[0]) then 0 else 1 + FirstBreak(s[1..])
  }

  predicate OneLine(s: string) { forall j :: 0 <= j < |s| ==> !IsBreak(s[j]) }

  /** JavaScript's indexOf for one character. */
  function IndexOf(s: string, c: char): (i: int)
    ensures -1 <= i < |s|
    ensures i == -1 ==> forall j :: 0 <= j < |s| ==> s[j] != c
    ensures i >= 0 ==> s[i] == c && forall j :: 0 <= j < i ==> s[j] != c
  {
    if s == "" then -1
    else if s[0] == c then 0
    else
      var rest := IndexOf(s[1..], c);
      if rest == -1 then -1 else 1 + rest
  }

  function Join(lines: seq<string>): string {
    if lines == [] then "" else if |lines| == 1 then lines[0] else lines[0] + "\n" + Join(lines[1..])
  }

  // ---------------------------------------------------------------- the parser as a function

  function Dispatched(st: State): State {
    st.(event := "message", dataLines := [],
        out := st.out + if |st.dataLines| > 0 then [Message(st.event, Join(st.dataLines))] else [])
  }

  /** The part of a line before its first colon. */
  function Field(line: string): string {
    var colon := IndexOf(line, ':');
    if colon == -1 then line else line[..colon]
  }

  /** The part after the first colon, without one leading space. */
  function Value(line: string): string {
    var colon := IndexOf(line, ':');
    var value := if colon == -1 then "" else line[colon + 1..];
    if value != "" && value[0] == ' ' then value[1..] else value
  }

  /** How a line is read: name and value are what stands before and after its first colon, less one
      space if the value begins with one; a line without a colon is a name alone. */
  lemma LineParts(name: string, value: string)
    requires ':' !in name
    ensures Field(name + ":" + value) == name && Field(name) == name && Value(name) == ""
    ensures Value(name + ":" + value) == if value != "" && value[0] == ' ' then value[1..] else value
    ensures Value(name + ": " + value) == value
  {
    ColonAt(name, value);
    ColonAt(name, " " + value);
    assert name + ": " + value == name + ":" + (" " + value);
    assert (" " + value)[1..] == value;
  }

  lemma ColonAt(name: string, value: string)
    requires ':' !in name
    ensures var line := name + ":" + value;
      IndexOf(line, ':') == |name| && line[..|name|] == name && line[|name| + 1..] == value
  {
    var line := name + ":" + value;
    assert line[|name|] == ':' && forall j :: 0 <= j < |name| ==> line[j] == name[j];
  }

  function LineProcessed(st: State, line: string): State {
    if line == "" then Dispatched(st)
    else if line[0] == ':' then st
    else if Field(line) == "event" then st.(event := Value(line))
    else if Field(line) == "data" then st.(dataLines := st.dataLines + [Value(line)])
    else st
  }

  /** One step of the feed loop: the first complete line and what follows its terminator.
      A CR that ends the buffer is not yet a terminator. */
  function Cut(buffer: string): (r: Option<(string, string)>)
    ensures r.Some? ==> |r.value.1| < |buffer| && OneLine(r.value.0)
  {
    var i := FirstBreak(buffer);
    if i == |buffer| then None
    else if buffer[i] == '\r' && i == |buffer| - 1 then None
    else if buffer[i] == '\r' && buffer[i + 1] == '\n' then Some((buffer[..i], buffer[i + 2..]))
    else Some((buffer[..i], buffer[i + 1..]))
  }

  function Drained(st: State): State
    decreases |st.buffer|
  {
    match Cut(st.buffer)
    case None => st
    case Some((line, rest)) => Drained(LineProcessed(st.(buffer := rest), line))
  }

  function Fed(st: State, chunk: string): State {
    Drained(st.(buffer := st.buffer + chunk))
  }

  function DropFinalCR(s: string): string {
    if s != "" && s[|s| - 1] == '\r' then s[..|s| - 1] else s
  }

  function Flushed(st: State): State {
    Dispatched(if st.buffer == "" then st else LineProcessed(st, DropFinalCR(st.buffer)).(buffer := ""))
  }

  function FedAll(st: State, chunks: seq<string>): State
    decreases |chunks|
  {
    if chunks == [] then st else FedAll(Fed(st, chunks[0]), chunks[1..])
  }

  // ---------------------------------------------------------------- chunk invariance

  lemma FirstBreakUnique(s: string, i: nat)
    requires i <= |s|
    requires forall j :: 0 <= j < i ==> !IsBreak(s[j])
    requires i < |s| ==> IsBreak(s[i])
    ensures FirstBreak(s) == i
  {
  }

  /** More input never changes a line that is already complete. */
  lemma CutStable(buffer: string, more: string)
    requires Cut(buffer).Some?
    ensures Cut(buffer + more) == Some((Cut(buffer).value.0, Cut(buffer).value.1 + more))
  {
    var i := FirstBreak(buffer);
    var all := buffer + more;
    assert forall j :: 0 <= j < i ==> all[j] == buffer[j];
    assert all[..i] == buffer[..i];
    FirstBreakUnique(all, i);
    if buffer[i] == '\r' && buffer[i + 1] == '\n' {
      assert all[i + 2..] == buffer[i + 2..] + more;
    } else {
      assert all[i + 1..] == buffer[i + 1..] + more;
    }
  }

  lemma DrainStep(st: State, line: string, rest: string)
    requires Cut(st.buffer) == Some((line, rest))
    ensures Drained(st) == Drained(LineProcessed(st.(buffer := rest), line))
    ensures LineProcessed(st.(buffer := rest), line).buffer == rest
  {
    hide Cut;
  }

  lemma {:induction false} DrainedIsDrained(st: State)
    ensures Cut(Drained(st).buffer).None?
    decreases |st.buffer|
  {
    match Cut(st.buffer)
    case None =>
    case Some((line, rest)) => DrainedIsDrained(LineProcessed(st.(buffer := rest), line));
  }

  /** Draining early and then appending is the same as appending and draining once. */
  lemma {:induction false} DrainAppend(st: State, more: string)
    ensures Drained(st.(buffer := st.buffer + more)) == Fed(Drained(st), more)
    decreases |st.buffer|
  {
    match Cut(st.buffer)
    case None =>
    case Some((line, rest)) =>
      CutStable(st.buffer, more);
      DrainAppend(LineProcessed(st.(buffer := rest), line), more);
      var next := LineProcessed(st.(buffer := rest), line);
      assert next.(buffer := next.buffer + more)
          == LineProcessed(st.(buffer := rest + more), line);
  }

  /** Feeding any chunks is feeding their concatenation: same messages, same buffer, same pending
      event and data lines. Holds for every state the parser can be in between calls. */
  lemma {:induction false} ChunkInvariance(st: State, chunks: seq<string>)
    requires Cut(st.buffer).None?
    ensures FedAll(st, chunks) == Fed(st, Flatten(chunks))
    ensures Cut(FedAll(st, chunks).buffer).None?
    decreases |chunks|
  {
    hide LineProcessed, Cut;
    if chunks == [] {
      assert st.buffer + "" == st.buffer;
      assert st.(buffer := st.buffer + "") == st;
    } else {
      var c, rest := chunks[0], Flatten(chunks[1..]);
      DrainedIsDrained(st.(buffer := st.buffer + c));
      ChunkInvariance(Fed(st, c), chunks[1..]);
      DrainAppend(st.(buffer := st.buffer + c), rest);
      assert st.buffer + c + rest == st.buffer + (c + rest);
    }
  }

  /** Two ways of cutting one text into chunks cannot be told apart, before or after a flush. */
  lemma AnyTwoChunkings(a: seq<string>, b: seq<string>)
    requires Flatten(a) == Flatten(b)
    ensures FedAll(INITIAL, a) == FedAll(INITIAL, b)
    ensures Flushed(FedAll(INITIAL, a)) == Flushed(FedAll(INITIAL, b))
  {
    ChunkInvariance(INITIAL, a);
    ChunkInvariance(INITIAL, b);
  }

  // ---------------------------------------------------------------- reference meaning

  /** All lines of a finished text: the terminated ones, then the unterminated rest if any. */
  function LinesOf(text: string): (lines: seq<string>)
    decreases |text|
  {
    match Cut(text)
    case Some((line, rest)) => [line] + LinesOf(rest)
    case None => if text == "" then [] else [DropFinalCR(text)]
  }

  /** Values of the data fields of a block, in order. */
  function DataOf(block: seq<string>): seq<string> {
    if block == [] then []
    else (if block[0] != "" && block[0][0] != ':' && Field(block[0]) == "data" then [Value(block[0])] else [])
         + DataOf(block[1..])
  }

  /** Value of the last event field of a block, or the given default. */
  function EventOf(block: seq<string>, default: string): string {
    if block == [] then default
    else EventOf(block[1..],
                 if block[0] != "" && block[0][0] != ':' && Field(block[0]) == "event" then Value(block[0])
                 else default)
  }

  function BlockMessage(block: seq<string>): seq<Message> {
    if DataOf(block) == [] then [] else [Message(EventOf(block, "message"), Join(DataOf(block)))]
  }

  /** Position of the first empty line, or the number of lines when there is none. */
  function FirstBlank(lines: seq<string>): (i: nat)
    ensures i <= |lines|
    ensures forall j :: 0 <= j < i ==> lines[j] != ""
    ensures i < |lines| ==> lines[i] == ""
  {
    if lines == [] || lines[0] == "" then 0 else 1 + FirstBlank(lines[1..])
  }

  /** The lines read block by block: each maximal run of non-empty lines is one block, the last one
      included, and yields at most one message, under its last event name. */
  function Interpret(lines: seq<string>): seq<Message>
    decreases |lines|
  {
    var i := FirstBlank(lines);
    if i == |lines| then BlockMessage(lines)
    else BlockMessage(lines[..i]) + Interpret(lines[i + 1..])
  }

  function Folded(st: State, lines: seq<string>): State
    decreases |lines|
  {
    if lines == [] then st else Folded(LineProcessed(st, lines[0]), lines[1..])
  }

  lemma {:induction false} FoldBlock(st: State, block: seq<string>)
    requires forall j :: 0 <= j < |block| ==> block[j] != ""
    ensures Folded(st, block)
         == st.(event := EventOf(block, st.event), dataLines := st.dataLines + DataOf(block))
    decreases |block|
  {
    if block != [] {
      hide Folded, LineProcessed, DataOf, EventOf;
      FoldBlock(LineProcessed(st, block[0]), block[1..]);
      FoldLine(st, block);
    } else {
      assert st.dataLines + [] == st.dataLines;
    }
  }

  /** What the first line of a block does to the state is what it adds to the block's name and data. */
  lemma FoldLine(st: State, block: seq<string>)
    requires block != [] && block[0] != ""
    ensures var next := LineProcessed(st, block[0]);
      && Folded(st, block) == Folded(next, block[1..])
      && EventOf(block, st.event) == EventOf(block[1..], next.event)
      && st.dataLines + DataOf(block) == next.dataLines + DataOf(block[1..])
      && next == st.(event := next.event, dataLines := next.dataLines)
  {
    hide Field, Value;
    var later := DataOf(block[1..]);
    assert st.dataLines + ([Value(block[0])] + later) == st.dataLines + [Value(block[0])] + later;
    assert [] + later == later;
  }

  lemma {:induction false} FoldAppend(st: State, a: seq<string>, b: seq<string>)
    ensures Folded(st, a + b) == Folded(Folded(st, a), b)
    decreases |a|
  {
    if a == [] {
      assert a + b == b;
    } else {
      assert (a + b)[1..] == a[1..] + b;
      FoldAppend(LineProcessed(st, a[0]), a[1..], b);
    }
  }

  lemma BlockDispatched(st: State, block: seq<string>)
    requires st.event == "message" && st.dataLines == []
    requires forall j :: 0 <= j < |block| ==> block[j] != ""
    ensures Dispatched(Folded(st, block)) == st.(out := st.out + BlockMessage(block))
  {
    hide Folded, DataOf, EventOf;
    FoldBlock(st, block);
    assert st.dataLines + DataOf(block) == DataOf(block);
  }

  lemma FoldFirstBlock(st: State, lines: seq<string>, i: nat)
    requires st.event == "message" && st.dataLines == []
    requires i < |lines| && lines[i] == "" && forall j :: 0 <= j < i ==> lines[j] != ""
    ensures Folded(st, lines)
         == Folded(st.(out := st.out + BlockMessage(lines[..i])), lines[i + 1..])
  {
    hide BlockMessage;
    BlockDispatched(st, lines[..i]);
    FoldAppend(st, lines[..i], lines[i..]);
    assert lines == lines[..i] + lines[i..];
    assert lines[i..][1..] == lines[i + 1..];
  }

  lemma {:induction false} FoldInterprets(st: State, lines: seq<string>)
    requires st.event == "message" && st.dataLines == []
    ensures Dispatched(Folded(st, lines)) == st.(out := st.out + Interpret(lines))
    decreases |lines|
  {
    hide Folded, Dispatched, BlockMessage;
    var i := FirstBlank(lines);
    if i == |lines| {
      BlockDispatched(st, lines);
    } else {
      FoldFirstBlock(st, lines, i);
      var next := st.(out := st.out + BlockMessage(lines[..i]));
      FoldInterprets(next, lines[i + 1..]);
      assert st.out + BlockMessage(lines[..i]) + Interpret(lines[i + 1..])
          == st.out + (BlockMessage(lines[..i]) + Interpret(lines[i + 1..]));
    }
  }

  lemma {:induction false} DrainThenFlush(st: State)
    ensures Flushed(Drained(st)) == Dispatched(Folded(st.(buffer := ""), LinesOf(st.buffer)))
    decreases |st.buffer|
  {
    match Cut(st.buffer)
    case None =>
      if st.buffer != "" {
        var line := DropFinalCR(st.buffer);
        assert LinesOf(st.buffer) == [line];
        hide LineProcessed, Dispatched;
        assert Folded(st.(buffer := ""), [line]) == LineProcessed(st.(buffer := ""), line);
        BufferAside(st, line);
      } else {
        assert st.(buffer := "") == st;
      }
    case Some((line, rest)) =>
      hide LineProcessed, Flushed, Dispatched;
      var next := LineProcessed(st.(buffer := rest), line);
      BufferAside(st.(buffer := rest), line);
      DrainThenFlush(next);
      assert LinesOf(st.buffer)[1..] == LinesOf(rest);
  }

  /** Processing a line neither reads nor changes the buffer. */
  lemma BufferAside(st: State, line: string)
    ensures LineProcessed(st, line).buffer == st.buffer
    ensures LineProcessed(st, line).(buffer := "") == LineProcessed(st.(buffer := ""), line)
  {
    hide Field, Value;
  }

  /** Correctness against the reference: feeding any chunks and flushing emits exactly the messages
      of the text's blocks, and leaves the parser as new. */
  lemma ParserMeaning(chunks: seq<string>)
    ensures Flushed(FedAll(INITIAL, chunks)) == INITIAL.(out := Interpret(LinesOf(Flatten(chunks))))
  {
    var text := Flatten(chunks);
    ChunkInvariance(INITIAL, chunks);
    var st := INITIAL.(buffer := "" + text);
    assert "" + text == text;
    DrainThenFlush(st);
    assert st.(buffer := "") == INITIAL;
    FoldInterprets(INITIAL, LinesOf(text));
    assert [] + Interpret(LinesOf(text)) == Interpret(LinesOf(text));
  }

  // ---------------------------------------------------------------- the parser object

  /** The object createSseParser returns; `out` records the calls of onMessage in order. */
  class SseParser {
    var buffer: string
    var event: string
    var dataLines: seq<string>
    var out: seq<Message>

    ghost function Now(): State
      reads this
    {
      State(buffer, event, dataLines, out)
    }

    constructor ()
      ensures Now() == INITIAL
    {
      buffer, event, dataLines, out := "", "message", [], [];
    }

    method Dispatch()
      modifies this
      ensures Now() == Dispatched(old(Now()))
    {
      if |dataLines| > 0 {
        out := out + [Message(event, Join(dataLines))];
      }
      event := "message";
      dataLines := [];
    }

    method ProcessLine(line: string)
      modifies this
      ensures Now() == LineProcessed(old(Now()), line)
    {
      if line == "" {
        Dispatch();
        return;
      }
      if line[0] == ':' {
        return;
      }
      var colon := IndexOf(line, ':');
      var field := if colon == -1 then line else line[..colon];
      var value := if colon == -1 then "" else line[colon + 1..];
      if value != "" && value[0] == ' ' {
        value := value[1..];
      }
      if field == "event" {
        event := value;
      } else if field == "data" {
        dataLines := dataLines + [value];
      }
    }

    /** Whatever was fed before, the state afterwards depends only on the text, not on its cuts. */
    method Feed(chunk: string)
      modifies this
      ensures Now() == Fed(old(Now()), chunk)
      ensures Cut(buffer).None?
    {
      buffer := buffer + chunk;
      ghost var start := Now();
      while true
        invariant Drained(Now()) == Drained(start)
        decreases |buffer|
      {
        var i := FirstBreak(buffer);
        if i == |buffer| {
          break;
        }
        var width := if buffer[i] == '\r' && i + 1 < |buffer| && buffer[i + 1] == '\n' then 2 else 1;
        if width == 1 && buffer[i] == '\r' && i == |buffer| - 1 {
          break;
        }
        ghost var before := Now();
        var line, rest := buffer[..i], buffer[i + width..];
        assert Cut(buffer) == Some((line, rest));
        buffer := rest;
        ProcessLine(line);
        assert Now() == LineProcessed(before.(buffer := rest), line);
        DrainStep(before, line, rest);
      }
    }

    method Flush()
      modifies this
      ensures Now() == Flushed(old(Now()))
      ensures buffer == "" && event == "message" && dataLines == []
    {
      if buffer != "" {
        ProcessLine(DropFinalCR(buffer));
        buffer := "";
      }
      Dispatch();
    }
  }
}
