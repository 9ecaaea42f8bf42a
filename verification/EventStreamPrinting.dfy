/** Printing messages as an event stream, and when reading them back returns the same messages. */
module EventStreamPrinting {
  import opened Prelude
  import opened EventStream

  datatype Ending = LF | CR | CRLF

  datatype TextLine = TextLine(text: string, ending: Ending)

  function Mark(e: Ending): (m: string)
    ensures m != "" && IsBreak(m[0])
  {
    match e
    case LF => "\n"
    case CR => "\r"
    case CRLF => "\r\n"
  }

  function Printed(lines: seq<TextLine>): string {
    if lines == [] then "" else lines[0].text + Mark(lines[0].ending) + Printed(lines[1..])
  }

  function Texts(lines: seq<TextLine>): (r: seq<string>)
    ensures |r| == |lines| && forall i :: 0 <= i < |r| ==> r[i] == lines[i].text
  {
    seq(|lines|, i requires 0 <= i < |lines| => lines[i].text)
  }

  predicate Unbroken(lines: seq<TextLine>) { forall i :: 0 <= i < |lines| ==> OneLine(lines[i].text) }

  /** A blank line ended by LF right after a line ended by CR: the two endings read as one CRLF. */
  predicate Fused(lines: seq<TextLine>, i: int) {
    1 <= i < |lines| && lines[i - 1].ending.CR? && lines[i] == TextLine("", LF)
  }

  /** The texts that remain when every fused blank line is dropped. */
  function Survivors(lines: seq<TextLine>): seq<string> {
    if lines == [] then []
    else if Fused(lines, 1) then [lines[0].text] + Survivors(lines[2..])
    else [lines[0].text] + Survivors(lines[1..])
  }

  lemma LeadingBreak(lines: seq<TextLine>)
    requires lines != []
    ensures Printed(lines) != ""
    ensures Unbroken(lines) ==> (Printed(lines)[0] == '\n' <==> lines[0] == TextLine("", LF))
  {
    var t := lines[0].text;
    if t != "" {
      assert Printed(lines)[0] == t[0];
    } else {
      assert Printed(lines)[0] == Mark(lines[0].ending)[0];
    }
  }

  lemma CutFirstLine(text: string, ending: Ending, rest: string)
    requires OneLine(text)
    ensures var all := text + Mark(ending) + rest;
      Cut(all) == if !ending.CR? then Some((text, rest))
                  else if rest == "" then None
                  else if rest[0] == '\n' then Some((text, rest[1..]))
                  else Some((text, rest))
  {
    var all := text + Mark(ending) + rest;
    assert forall j :: 0 <= j < |text| ==> all[j] == text[j];
    assert all[|text|] == Mark(ending)[0];
    FirstBreakUnique(all, |text|);
    assert all[..|text|] == text;
    assert all[|text| + |Mark(ending)|..] == rest;
    if ending.CR? && rest != "" {
      assert all[|text| + 1] == rest[0];
      assert all[|text| + 2..] == rest[1..];
    }
  }

  /** Exactly which lines a mixed-ending text is read as: all of them but the fused blank ones. */
  lemma {:induction false} LinesOfPrinted(lines: seq<TextLine>)
    requires Unbroken(lines)
    ensures LinesOf(Printed(lines)) == Survivors(lines)
    decreases |lines|
  {
    if lines != [] {
      var text, ending, rest := lines[0].text, lines[0].ending, Printed(lines[1..]);
      CutFirstLine(text, ending, rest);
      if |lines| > 1 {
        LeadingBreak(lines[1..]);
        if Fused(lines, 1) {
          assert lines[1..][1..] == lines[2..];
          assert rest == "\n" + Printed(lines[2..]);
          assert rest[1..] == Printed(lines[2..]);
          LinesOfPrinted(lines[2..]);
        } else {
          LinesOfPrinted(lines[1..]);
        }
      } else if ending.CR? {
        assert text + Mark(ending) + rest == text + "\r";
        assert DropFinalCR(text + "\r") == text;
      } else {
        LinesOfPrinted(lines[1..]);
      }
    }
  }

  lemma {:induction false} SurvivorCount(lines: seq<TextLine>)
    ensures |Survivors(lines)| <= |lines|
    ensures |Survivors(lines)| == |lines| <==> forall i :: !Fused(lines, i)
    ensures (forall i :: !Fused(lines, i)) ==> Survivors(lines) == Texts(lines)
    decreases |lines|
  {
    if lines != [] {
      if Fused(lines, 1) {
        SurvivorCount(lines[2..]);
      } else {
        SurvivorCount(lines[1..]);
        assert forall i :: Fused(lines[1..], i) ==> Fused(lines, i + 1);
        assert forall i :: Fused(lines, i) ==> i != 1 && Fused(lines[1..], i - 1);
        if forall i :: !Fused(lines, i) {
          assert [lines[0].text] + Texts(lines[1..]) == Texts(lines);
        }
      }
    }
  }

  /** Lines with any mix of endings are read back unchanged if and only if none of them is fused. */
  lemma LinesReadBack(lines: seq<TextLine>)
    requires Unbroken(lines)
    ensures LinesOf(Printed(lines)) == Texts(lines) <==> forall i :: !Fused(lines, i)
  {
    LinesOfPrinted(lines);
    SurvivorCount(lines);
  }

  // ---------------------------------------------------------------- messages

  function Split(data: string): (r: seq<string>)
    ensures r != []
    decreases |data|
  {
    var i := IndexOf(data, '\n');
    if i == -1 then [data] else [data[..i]] + Split(data[i + 1..])
  }

  lemma JoinCons(line: string, rest: seq<string>)
    requires rest != []
    ensures Join([line] + rest) == line + "\n" + Join(rest)
  {
    assert ([line] + rest)[1..] == rest;
  }

  lemma {:induction false} JoinSplit(data: string)
    ensures Join(Split(data)) == data
    decreases |data|
  {
    var i := IndexOf(data, '\n');
    if i != -1 {
      var line, rest := data[..i], data[i + 1..];
      JoinSplit(rest);
      JoinCons(line, Split(rest));
      assert data == line + [data[i]] + rest;
    }
  }

  function DataFields(values: seq<string>): seq<string> {
    if values == [] then [] else ["data: " + values[0]] + DataFields(values[1..])
  }

  function MessageLines(m: Message): seq<string> {
    ["event: " + m.event] + DataFields(Split(m.data)) + [""]
  }

  function AllLines(messages: seq<Message>): seq<string> {
    if messages == [] then [] else MessageLines(messages[0]) + AllLines(messages[1..])
  }

  predicate IsComment(line: string) { line != "" && line[0] == ':' }

  function Uncommented(lines: seq<string>): seq<string> {
    if lines == [] then []
    else (if IsComment(lines[0]) then [] else [lines[0]]) + Uncommented(lines[1..])
  }

  lemma IndexUnique(s: string, c: char, i: nat)
    requires i < |s| && s[i] == c && forall j :: 0 <= j < i ==> s[j] != c
    ensures IndexOf(s, c) == i
  {
  }

  lemma FieldLine(name: string, value: string)
    requires ':' !in name
    ensures Field(name + ": " + value) == name && Value(name + ": " + value) == value
  {
    var line := name + ": " + value;
    assert line[..|name|] == name;
    assert forall j :: 0 <= j < |name| ==> line[j] == name[j];
    IndexUnique(line, ':', |name|);
    assert line[|name| + 1..] == " " + value;
  }

  lemma EventLine(st: State, value: string)
    ensures LineProcessed(st, "event: " + value) == st.(event := value)
  {
    assert "event" + ": " + value == "event: " + value;
    FieldLine("event", value);
  }

  lemma DataLine(st: State, value: string)
    ensures LineProcessed(st, "data: " + value) == st.(dataLines := st.dataLines + [value])
  {
    assert "data" + ": " + value == "data: " + value;
    FieldLine("data", value);
  }

  lemma FoldNothing(st: State)
    ensures Folded(st, []) == st
  {
  }

  lemma FoldOne(st: State, line: string, rest: seq<string>, next: State)
    requires LineProcessed(st, line) == next
    ensures Folded(st, [line] + rest) == Folded(next, rest)
  {
    assert ([line] + rest)[1..] == rest;
  }

  lemma {:induction false} FoldDataFields(st: State, values: seq<string>, rest: seq<string>)
    ensures Folded(st, DataFields(values) + rest)
         == Folded(st.(dataLines := st.dataLines + values), rest)
    decreases |values|
  {
    hide Folded, LineProcessed;
    if values == [] {
      assert st.dataLines + values == st.dataLines;
      assert DataFields(values) + rest == rest;
    } else {
      var line, tail := "data: " + values[0], DataFields(values[1..]) + rest;
      var next := st.(dataLines := st.dataLines + [values[0]]);
      DataLine(st, values[0]);
      FoldOne(st, line, tail, next);
      assert DataFields(values) + rest == [line] + tail;
      FoldDataFields(next, values[1..], rest);
      assert next.dataLines + values[1..] == st.dataLines + values;
    }
  }

  lemma FoldMessage(st: State, m: Message, rest: seq<string>)
    requires st.event == "message" && st.dataLines == []
    ensures Folded(st, MessageLines(m) + rest) == Folded(st.(out := st.out + [m]), rest)
  {
    var values := Split(m.data);
    var tail := DataFields(values) + ([""] + rest);
    assert MessageLines(m) + rest == ["event: " + m.event] + tail;
    var named := st.(event := m.event);
    EventLine(st, m.event);
    FoldOne(st, "event: " + m.event, tail, named);
    FoldDataFields(named, values, [""] + rest);
    assert named.dataLines + values == values;
    JoinSplit(m.data);
    FoldOne(named.(dataLines := values), "", rest, st.(out := st.out + [m]));
  }

  lemma {:induction false} FoldAllLines(st: State, messages: seq<Message>)
    requires st.event == "message" && st.dataLines == []
    ensures Folded(st, AllLines(messages)) == st.(out := st.out + messages)
    decreases |messages|
  {
    hide MessageLines, Folded;
    if messages == [] {
      assert Folded(st, []) == st by { FoldNothing(st); }
      assert st.out + messages == st.out;
    } else {
      FoldMessage(st, messages[0], AllLines(messages[1..]));
      FoldAllLines(st.(out := st.out + [messages[0]]), messages[1..]);
      assert st.out + [messages[0]] + messages[1..] == st.out + messages;
    }
  }

  lemma {:induction false} FoldUncommented(st: State, lines: seq<string>)
    ensures Folded(st, Uncommented(lines)) == Folded(st, lines)
    decreases |lines|
  {
    if lines != [] {
      FoldUncommented(LineProcessed(st, lines[0]), lines[1..]);
      if IsComment(lines[0]) {
        assert Uncommented(lines) == Uncommented(lines[1..]);
      } else {
        assert Uncommented(lines)[1..] == Uncommented(lines[1..]);
      }
    }
  }

  // ---------------------------------------------------------------- lost separators

  predicate HasField(lines: seq<TextLine>) { exists i :: 0 <= i < |lines| && !IsComment(lines[i].text) }

  /** A fused blank line with more than comments after it: two messages run into one. */
  ghost predicate SeparatorLost(lines: seq<TextLine>) {
    exists i :: Fused(lines, i) && HasField(lines[i + 1..])
  }

  /** At most how many messages lines can yield: one per blank line, and one more when something
      other than a comment follows the last of them. `open` says whether the block has begun. */
  function Yield(lines: seq<string>, open: bool): nat {
    if lines == [] then (if open then 1 else 0)
    else if lines[0] == "" then 1 + Yield(lines[1..], false)
    else Yield(lines[1..], open || !IsComment(lines[0]))
  }

  lemma {:induction false} YieldBounds(st: State, lines: seq<string>, open: bool)
    requires st.dataLines != [] ==> open
    ensures |Dispatched(Folded(st, lines)).out| <= |st.out| + Yield(lines, open)
    decreases |lines|
  {
    if lines != [] {
      YieldBounds(LineProcessed(st, lines[0]), lines[1..],
                  lines[0] != "" && (open || !IsComment(lines[0])));
    }
  }

  lemma {:induction false} YieldUncommented(lines: seq<string>, open: bool)
    ensures Yield(Uncommented(lines), open) == Yield(lines, open)
    decreases |lines|
  {
    if lines != [] {
      YieldUncommented(lines[1..], lines[0] != "" && (open || !IsComment(lines[0])));
      if IsComment(lines[0]) {
        assert Uncommented(lines) == Uncommented(lines[1..]);
      } else {
        assert Uncommented(lines)[1..] == Uncommented(lines[1..]);
      }
    }
  }

  lemma YieldField(line: string, rest: seq<string>)
    requires line != "" && line[0] != ':'
    ensures Yield([line] + rest, true) == Yield(rest, true)
  {
    assert ([line] + rest)[1..] == rest;
  }

  lemma {:induction false} YieldDataFields(values: seq<string>, rest: seq<string>)
    ensures Yield(DataFields(values) + ([""] + rest), true) == 1 + Yield(rest, false)
    decreases |values|
  {
    if values == [] {
      assert DataFields(values) + ([""] + rest) == [""] + rest;
    } else {
      hide Yield;
      YieldDataFields(values[1..], rest);
      YieldField("data: " + values[0], DataFields(values[1..]) + ([""] + rest));
      assert DataFields(values) + ([""] + rest) == ["data: " + values[0]] + (DataFields(values[1..]) + ([""] + rest));
    }
  }

  lemma YieldMessage(m: Message, rest: seq<string>)
    ensures Yield(MessageLines(m) + rest, false) == 1 + Yield(rest, false)
  {
    var first, tail := "event: " + m.event, DataFields(Split(m.data)) + ([""] + rest);
    assert MessageLines(m) + rest == [first] + tail;
    assert ([first] + tail)[1..] == tail;
    assert first[0] == 'e';
    YieldDataFields(Split(m.data), rest);
  }

  lemma {:induction false} YieldAllLines(messages: seq<Message>)
    ensures Yield(AllLines(messages), false) == |messages|
    decreases |messages|
  {
    if messages != [] {
      var m, rest := messages[0], AllLines(messages[1..]);
      YieldAllLines(messages[1..]);
      YieldMessage(m, rest);
    }
  }

  /** Whether a block has begun matters only when nothing but comments follows. */
  lemma {:induction false} YieldOpen(lines: seq<TextLine>)
    ensures HasField(lines) ==> Yield(Texts(lines), true) == Yield(Texts(lines), false)
    ensures !HasField(lines) ==> Yield(Texts(lines), true) == 1 && Yield(Texts(lines), false) == 0
    decreases |lines|
  {
    if lines != [] {
      YieldOpen(lines[1..]);
      assert Texts(lines)[1..] == Texts(lines[1..]);
      if IsComment(lines[0].text) {
        assert HasField(lines[1..]) ==> HasField(lines) by {
          if HasField(lines[1..]) {
            var i :| 0 <= i < |lines[1..]| && !IsComment(lines[1..][i].text);
            assert !IsComment(lines[i + 1].text);
          }
        }
        assert HasField(lines) ==> HasField(lines[1..]) by {
          if HasField(lines) {
            var i :| 0 <= i < |lines| && !IsComment(lines[i].text);
            assert lines[1..][i - 1] == lines[i];
          }
        }
      }
    }
  }

  lemma LostTail(lines: seq<TextLine>)
    requires lines != [] && SeparatorLost(lines)
    ensures (Fused(lines, 1) && HasField(lines[2..])) || SeparatorLost(lines[1..])
    ensures Fused(lines, 1) ==> HasField(lines[2..])
    ensures Fused(lines, 1) && SeparatorLost(lines[1..]) ==> SeparatorLost(lines[2..])
  {
    var i :| Fused(lines, i) && HasField(lines[i + 1..]);
    FirstOrLater(lines, i);
    if Fused(lines, 1) && SeparatorLost(lines[1..]) {
      var k :| Fused(lines[1..], k) && HasField(lines[1..][k + 1..]);
      LaterLoss(lines, k);
    }
  }

  lemma FirstOrLater(lines: seq<TextLine>, i: int)
    requires Fused(lines, i) && HasField(lines[i + 1..])
    ensures i == 1 || SeparatorLost(lines[1..])
    ensures Fused(lines, 1) ==> HasField(lines[2..])
  {
    FusedRange(lines, i);
    hide Fused, HasField;
    if i > 1 {
      FusedShift(lines, 1, i);
      FieldsBefore(lines, 2, i + 1);
    }
  }

  lemma LaterLoss(lines: seq<TextLine>, k: int)
    requires lines != [] && Fused(lines, 1) && Fused(lines[1..], k) && HasField(lines[1..][k + 1..])
    ensures SeparatorLost(lines[2..])
  {
    FusedRange(lines[1..], k);
    hide Fused, HasField;
    FusedUnshift(lines, k);
    NotTwice(lines, k);
    FusedShift(lines, 2, k + 1);
  }

  lemma FusedRange(lines: seq<TextLine>, i: int)
    requires Fused(lines, i)
    ensures 1 <= i < |lines|
  {
  }

  /** Dropping lines before a fused one moves it forward. */
  lemma FusedShift(lines: seq<TextLine>, n: nat, i: int)
    requires Fused(lines, i) && n < i < |lines|
    ensures Fused(lines[n..], i - n) && lines[n..][i - n + 1..] == lines[i + 1..]
  {
  }

  lemma FusedUnshift(lines: seq<TextLine>, k: int)
    requires lines != [] && Fused(lines[1..], k) && 1 <= k < |lines| - 1
    ensures Fused(lines, k + 1) && lines[k + 2..] == lines[1..][k + 1..]
  {
  }

  /** The line after a fused one is not fused: what it follows ended with LF. */
  lemma NotTwice(lines: seq<TextLine>, k: int)
    requires Fused(lines, 1) && Fused(lines, k + 1)
    ensures k != 1
  {
  }

  lemma FieldsBefore(lines: seq<TextLine>, m: nat, n: nat)
    requires m <= n <= |lines| && HasField(lines[n..])
    ensures HasField(lines[m..])
  {
    var k :| 0 <= k < |lines[n..]| && !IsComment(lines[n..][k].text);
    assert lines[m..][k + n - m] == lines[n..][k];
  }

  lemma LostHead(lines: seq<TextLine>, n: nat)
    requires n <= |lines| && SeparatorLost(lines[n..])
    ensures SeparatorLost(lines)
  {
    var i :| Fused(lines[n..], i) && HasField(lines[n..][i + 1..]);
    assert Fused(lines, i + n);
    assert lines[i + n + 1..] == lines[n..][i + 1..];
  }

  lemma {:induction false} LossCosts(lines: seq<TextLine>, open: bool)
    ensures Yield(Survivors(lines), open) <= Yield(Texts(lines), open)
    ensures SeparatorLost(lines) ==> Yield(Survivors(lines), open) < Yield(Texts(lines), open)
    decreases |lines|
  {
    if lines != [] {
      var t := lines[0].text;
      var o := t != "" && (open || !IsComment(t));
      assert Texts(lines)[1..] == Texts(lines[1..]);
      if SeparatorLost(lines) {
        LostTail(lines);
      }
      if Fused(lines, 1) {
        LossCosts(lines[2..], o);
        YieldOpen(lines[2..]);
        assert Texts(lines[1..])[1..] == Texts(lines[2..]);
        assert Survivors(lines)[1..] == Survivors(lines[2..]);
      } else {
        LossCosts(lines[1..], o);
        assert Survivors(lines)[1..] == Survivors(lines[1..]);
      }
    }
  }

  lemma {:induction false} OnlyComments(st: State, lines: seq<TextLine>)
    requires !HasField(lines)
    ensures Folded(st, Survivors(lines)) == st && Folded(st, Texts(lines)) == st
    decreases |lines|
  {
    if lines != [] {
      assert forall i :: 0 <= i < |lines[1..]| ==> lines[1..][i] == lines[i + 1];
      assert IsComment(lines[0].text);
      assert |lines| > 1 ==> IsComment(lines[1].text);
      OnlyComments(st, lines[1..]);
      assert Texts(lines)[1..] == Texts(lines[1..]);
      assert Survivors(lines)[1..] == Survivors(lines[1..]);
    }
  }

  lemma {:induction false} NoLossNoChange(st: State, lines: seq<TextLine>)
    requires !SeparatorLost(lines)
    ensures Dispatched(Folded(st, Survivors(lines))) == Dispatched(Folded(st, Texts(lines)))
    decreases |lines|
  {
    if lines != [] {
      var next := LineProcessed(st, lines[0].text);
      assert Texts(lines)[1..] == Texts(lines[1..]);
      if Fused(lines, 1) {
        assert !HasField(lines[2..]);
        OnlyComments(next, lines[2..]);
        OnlyComments(Dispatched(next), lines[2..]);
        assert Texts(lines[1..])[1..] == Texts(lines[2..]);
        assert Survivors(lines)[1..] == Survivors(lines[2..]);
      } else {
        if SeparatorLost(lines[1..]) { LostHead(lines, 1); }
        NoLossNoChange(next, lines[1..]);
        assert Survivors(lines)[1..] == Survivors(lines[1..]);
      }
    }
  }

  /** The round trip. Print messages with any endings, comments anywhere, in any chunks: reading
      returns exactly the messages if and only if no separator is lost. Event names must not hold CR
      or LF and data must not hold CR, which Unbroken says of the printed lines. */
  lemma RoundTrip(messages: seq<Message>, lines: seq<TextLine>, chunks: seq<string>)
    requires Unbroken(lines)
    requires Uncommented(Texts(lines)) == AllLines(messages)
    requires Flatten(chunks) == Printed(lines)
    ensures Flushed(FedAll(INITIAL, chunks)).out == messages <==> !SeparatorLost(lines)
  {
    ParserMeaning(chunks);
    LinesOfPrinted(lines);
    FoldInterprets(INITIAL, Survivors(lines));
    var out := Flushed(FedAll(INITIAL, chunks)).out;
    assert [] + Interpret(Survivors(lines)) == Interpret(Survivors(lines));
    assert Dispatched(Folded(INITIAL, Survivors(lines))).out == out;
    if SeparatorLost(lines) {
      YieldBounds(INITIAL, Survivors(lines), false);
      LossCosts(lines, false);
      YieldUncommented(Texts(lines), false);
      YieldAllLines(messages);
    } else {
      NoLossNoChange(INITIAL, lines);
      FoldUncommented(INITIAL, Texts(lines));
      FoldAllLines(INITIAL, messages);
      assert [] + messages == messages;
    }
  }

  /** One ending throughout never loses a separator. */
  lemma UniformRoundTrip(messages: seq<Message>, lines: seq<TextLine>, chunks: seq<string>, ending: Ending)
    requires Unbroken(lines)
    requires forall i :: 0 <= i < |lines| ==> lines[i].ending == ending
    requires Uncommented(Texts(lines)) == AllLines(messages)
    requires Flatten(chunks) == Printed(lines)
    ensures Flushed(FedAll(INITIAL, chunks)).out == messages
  {
    RoundTrip(messages, lines, chunks);
  }

  /** The lines a printer with one ending writes. */
  function Plain(texts: seq<string>, ending: Ending): (r: seq<TextLine>)
    ensures Texts(r) == texts && forall i :: 0 <= i < |r| ==> r[i].ending == ending
  {
    seq(|texts|, i requires 0 <= i < |texts| => TextLine(texts[i], ending))
  }

  predicate Printable(m: Message) {
    OneLine(m.event) && NoCR(m.data)
  }

  lemma {:induction false} SplitStep(data: string)
    ensures var i := IndexOf(data, '\n');
      Split(data) == if i == -1 then [data] else [data[..i]] + Split(data[i + 1..])
  {
  }

  predicate NoCR(s: string) { forall j :: 0 <= j < |s| ==> s[j] != '\r' }

  predicate AllOneLine(lines: seq<string>) { forall k :: 0 <= k < |lines| ==> OneLine(lines[k]) }

  lemma LineClean(data: string, i: nat)
    requires NoCR(data) && i <= |data| && forall j :: 0 <= j < i ==> data[j] != '\n'
    ensures OneLine(data[..i]) && NoCR(data[i..])
  {
  }

  lemma AllOneCons(line: string, rest: seq<string>)
    requires OneLine(line) && AllOneLine(rest)
    ensures AllOneLine([line] + rest)
  {
    hide OneLine;
  }

  lemma RestClean(data: string, i: nat)
    requires NoCR(data) && i <= |data|
    ensures NoCR(data[i..])
  {
  }

  lemma {:induction false} SplitUnbroken(data: string)
    requires NoCR(data)
    ensures AllOneLine(Split(data))
    decreases |data|
  {
    SplitStep(data);
    hide Split, OneLine, IndexOf, NoCR, AllOneLine;
    var i := IndexOf(data, '\n');
    if i == -1 {
      LineClean(data, |data|);
      assert data[..|data|] == data;
      NoLines();
      AllOneCons(data, []);
      assert [data] + [] == [data];
    } else {
      LineClean(data, i);
      RestClean(data, i + 1);
      SplitUnbroken(data[i + 1..]);
      AllOneCons(data[..i], Split(data[i + 1..]));
    }
  }

  lemma NoLines()
    ensures AllOneLine([])
  {
  }

  lemma {:induction false} DataFieldsUnbroken(values: seq<string>)
    requires forall value :: value in values ==> OneLine(value)
    ensures forall line :: line in DataFields(values) ==> OneLine(line)
    ensures Uncommented(DataFields(values)) == DataFields(values)
    decreases |values|
  {
    if values != [] {
      assert values[0] in values;
      var prefix := "data: ";
      assert OneLine(prefix + values[0]);
      DataFieldsUnbroken(values[1..]);
    }
  }

  lemma {:induction false} UncommentedAppend(a: seq<string>, b: seq<string>)
    ensures Uncommented(a + b) == Uncommented(a) + Uncommented(b)
    decreases |a|
  {
    if a == [] {
      assert a + b == b;
    } else {
      assert (a + b)[1..] == a[1..] + b;
      UncommentedAppend(a[1..], b);
    }
  }

  lemma MessageUnbroken(m: Message)
    requires Printable(m)
    ensures forall line :: line in MessageLines(m) ==> OneLine(line)
    ensures Uncommented(MessageLines(m)) == MessageLines(m)
  {
    SplitUnbroken(m.data);
    DataFieldsUnbroken(Split(m.data));
    assert OneLine("event: " + m.event);
    assert Uncommented(["event: " + m.event]) == ["event: " + m.event] && Uncommented([""]) == [""];
    hide DataFields, Split, Uncommented, OneLine, IsComment;
    var fields := DataFields(Split(m.data));
    UncommentedAppend(["event: " + m.event], fields);
    UncommentedAppend(["event: " + m.event] + fields, [""]);
    assert OneLine("") by { EmptyLine(); }
  }

  lemma EmptyLine()
    ensures OneLine("")
  {
  }

  lemma {:induction false} AllLinesUnbroken(messages: seq<Message>)
    requires forall m :: m in messages ==> Printable(m)
    ensures forall line :: line in AllLines(messages) ==> OneLine(line)
    ensures Uncommented(AllLines(messages)) == AllLines(messages)
    decreases |messages|
  {
    if messages != [] {
      hide MessageLines, Uncommented, OneLine, Printable;
      assert messages[0] in messages;
      MessageUnbroken(messages[0]);
      AllLinesUnbroken(messages[1..]);
      UncommentedAppend(MessageLines(messages[0]), AllLines(messages[1..]));
    } else {
      assert Uncommented([]) == [];
    }
  }

  /** Any printable messages printed with any single ending survive any chunking. */
  lemma PrintThenParse(messages: seq<Message>, ending: Ending, chunks: seq<string>)
    requires forall m :: m in messages ==> Printable(m)
    requires Flatten(chunks) == Printed(Plain(AllLines(messages), ending))
    ensures Flushed(FedAll(INITIAL, chunks)).out == messages
  {
    AllLinesUnbroken(messages);
    var lines := Plain(AllLines(messages), ending);
    assert forall i :: 0 <= i < |lines| ==> lines[i].text == Texts(lines)[i] && Texts(lines)[i] in AllLines(messages);
    UniformRoundTrip(messages, lines, chunks, ending);
  }

  /** A CR line followed by an LF separator turns two messages into one that holds the data of both. */
  lemma LostSeparatorExample(a: string, b: string, chunks: seq<string>)
    requires OneLine(a) && OneLine(b)
    requires Flatten(chunks) ==
             Printed([TextLine("data: " + a, CR), TextLine("", LF), TextLine("data: " + b, LF), TextLine("", LF)])
    ensures Flushed(FedAll(INITIAL, chunks)).out == [Message("message", a + "\n" + b)]
  {
    var lines := [TextLine("data: " + a, CR), TextLine("", LF), TextLine("data: " + b, LF), TextLine("", LF)];
    hide Printed, LinesOf, Survivors, Folded, Interpret, FedAll, Flushed, Dispatched, Flatten;
    FusedLines(a, b);
    LinesOfPrinted(lines);
    ParserMeaning(chunks);
    FoldInterprets(INITIAL, ["data: " + a, "data: " + b, ""]);
    FusedMeaning(a, b);
    assert [] + Interpret(LinesOf(Printed(lines))) == Interpret(LinesOf(Printed(lines)));
  }

  lemma FusedLines(a: string, b: string)
    requires OneLine(a) && OneLine(b)
    ensures var lines := [TextLine("data: " + a, CR), TextLine("", LF), TextLine("data: " + b, LF), TextLine("", LF)];
      Unbroken(lines) && Survivors(lines) == ["data: " + a, "data: " + b, ""]
  {
    var x, y, e := TextLine("data: " + a, CR), TextLine("data: " + b, LF), TextLine("", LF);
    assert OneLine("data: ");
    assert Unbroken([x, e, y, e]);
    assert [x, e, y, e][1..] == [e, y, e] && [x, e, y, e][2..] == [y, e] && [y, e][1..] == [e] && [e][1..] == [];
    assert Survivors([e]) == [""];
    assert Survivors([y, e]) == [y.text] + Survivors([e]);
    assert Survivors([x, e, y, e]) == [x.text] + Survivors([y, e]);
  }

  lemma FusedMeaning(a: string, b: string)
    ensures Dispatched(Folded(INITIAL, ["data: " + a, "data: " + b, ""])).out == [Message("message", a + "\n" + b)]
  {
    hide Folded, LineProcessed;
    DataLine(INITIAL, a);
    var s1 := INITIAL.(dataLines := [] + [a]);
    DataLine(s1, b);
    var s2 := s1.(dataLines := [a] + [b]);
    var s3 := INITIAL.(out := [Message("message", a + "\n" + b)]);
    FoldOne(INITIAL, "data: " + a, ["data: " + b, ""], s1);
    FoldOne(s1, "data: " + b, [""], s2);
    BlankLine(s2);
    FoldOne(s2, "", [], Dispatched(s2));
    FoldNothing(Dispatched(s2));
    assert ["data: " + a] + ["data: " + b, ""] == ["data: " + a, "data: " + b, ""];
    assert ["data: " + b] + [""] == ["data: " + b, ""] && [""] + [] == [""];
    assert [a] + [b] == [a, b] && [a, b][1..] == [b];
    assert Join([a, b]) == a + "\n" + b;
    assert Dispatched(s2) == s3;
  }

  lemma BlankLine(st: State)
    ensures LineProcessed(st, "") == Dispatched(st)
  {
  }
}
