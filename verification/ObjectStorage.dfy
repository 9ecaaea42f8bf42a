/** Streaming upload of backend/src/ragz/core/storage.py. */
module ObjectStorage {
  import opened Prelude

  type Byte = bv8
  type Bytes = seq<Byte>

  const PART_SIZE := 8 * 1024 * 1024

  /** What one read returned. The stream of a file object is the script of its reads; past the end of
      the script every read is empty. */
  datatype ReadResult = Data(bytes: Bytes) | ReadFault

  function ReadAt(script: seq<ReadResult>, i: nat): ReadResult { if i < |script| then script[i] else Data([]) }

  datatype S3Call =
    | PutObject(body: Bytes)
    | CreateUpload
    | UploadPart(number: nat, body: Bytes)
    | CompleteUpload(numbers: seq<nat>)
    | AbortUpload

  /** Which S3 calls raise. */
  datatype Faults = Faults(put: bool, create: bool, parts: set<nat>, complete: bool, abort: bool)

  datatype Outcome = Done | Raised

  function UpTo(n: nat): (r: seq<nat>)
    ensures |r| == n && forall i :: 0 <= i < n ==> r[i] == i + 1
  {
    seq(n, i => i + 1)
  }

  /** The calls from the top of the loop on, with chunk i at the head of the queue. */
  function Loop(script: seq<ReadResult>, faults: Faults, i: nat): (r: (seq<S3Call>, Outcome))
    requires ReadAt(script, i).Data?
    ensures r.0 != []
    decreases |script| - i
  {
    var chunk := ReadAt(script, i).bytes;
    if chunk == [] then
      if faults.complete then ([CompleteUpload(UpTo(i)), AbortUpload], Raised) else ([CompleteUpload(UpTo(i))], Done)
    else if i + 1 in faults.parts || ReadAt(script, i + 1).ReadFault? then
      ([UploadPart(i + 1, chunk), AbortUpload], Raised)
    else
      var rest := Loop(script, faults, i + 1);
      ([UploadPart(i + 1, chunk)] + rest.0, rest.1)
  }

  /** Every call put_stream makes, and how it ends. */
  function Upload(script: seq<ReadResult>, faults: Faults): (seq<S3Call>, Outcome) {
    if ReadAt(script, 0).ReadFault? || ReadAt(script, 1).ReadFault? then ([], Raised)
    else if ReadAt(script, 1).bytes == [] then
      ([PutObject(ReadAt(script, 0).bytes)], if faults.put then Raised else Done)
    else if faults.create then ([CreateUpload], Raised)
    else ([CreateUpload] + Loop(script, faults, 0).0, Loop(script, faults, 0).1)
  }

  // ---------------------------------------------------------------- the method

  class FileObject {
    const script: seq<ReadResult>
    var taken: nat

    constructor (script: seq<ReadResult>)
      ensures this.script == script && taken == 0
    {
      this.script, taken := script, 0;
    }

    method Read() returns (r: ReadResult)
      modifies this
      ensures r == ReadAt(script, old(taken)) && taken == old(taken) + 1
    {
      r := ReadAt(script, taken);
      taken := taken + 1;
    }
  }

  class Client {
    const faults: Faults
    var calls: seq<S3Call>

    constructor (faults: Faults)
      ensures this.faults == faults && calls == []
    {
      this.faults, calls := faults, [];
    }

    method Send(c: S3Call) returns (raised: bool)
      modifies this
      ensures calls == old(calls) + [c]
      ensures raised <==> match c
                          case PutObject(_) => faults.put
                          case CreateUpload => faults.create
                          case UploadPart(n, _) => n in faults.parts
                          case CompleteUpload(_) => faults.complete
                          case AbortUpload => faults.abort
    {
      calls := calls + [c];
      match c {
        case PutObject(_) => raised := faults.put;
        case CreateUpload => raised := faults.create;
        case UploadPart(n, _) => raised := n in faults.parts;
        case CompleteUpload(_) => raised := faults.complete;
        case AbortUpload => raised := faults.abort;
      }
    }
  }

  // ---------------------------------------------------------------- chunks held at once

  /** Of the reads held by some variable, those with bytes in them. */
  ghost function Resident(script: seq<ReadResult>, held: set<nat>): set<nat> {
    set i | i in held && ReadAt(script, i).Data? && ReadAt(script, i).bytes != []
  }

  /** How many of the first n reads brought bytes. */
  function Filled(script: seq<ReadResult>, n: nat): nat {
    if n == 0 then 0
    else Filled(script, n - 1) + if ReadAt(script, n - 1).Data? && ReadAt(script, n - 1).bytes != [] then 1 else 0
  }

  function AtMostFour(n: nat): nat { if n <= 4 then n else 4 }

  ghost function Most(a: nat, b: nat): nat { if a >= b then a else b }

  predicate AllFilled(script: seq<ReadResult>, n: nat) {
    forall k :: 0 <= k < n ==> ReadAt(script, k).Data? && ReadAt(script, k).bytes != []
  }

  lemma {:induction false} FilledAll(script: seq<ReadResult>, n: nat)
    requires AllFilled(script, n)
    ensures Filled(script, n) == n
  {
    if n > 0 { FilledAll(script, n - 1); }
  }

  lemma FirstTwo(script: seq<ReadResult>)
    ensures |Resident(script, {0})| == Filled(script, 1) && |Resident(script, {0, 1})| == Filled(script, 2)
    ensures Filled(script, 1) <= Filled(script, 2) <= 2
  {
    var first := if ReadAt(script, 0).Data? && ReadAt(script, 0).bytes != [] then 1 else 0;
    var second := if ReadAt(script, 1).Data? && ReadAt(script, 1).bytes != [] then 1 else 0;
    assert Filled(script, 2) == Filled(script, 1) + second && Filled(script, 1) == Filled(script, 0) + first;
    assert Resident(script, {0}) == if Filled(script, 1) == 1 then {0} else {};
    assert Resident(script, {0, 1})
        == Resident(script, {0}) + if Filled(script, 2) > Filled(script, 1) then {1} else {};
  }

  /** While chunk i is uploaded and the next one read, the first two are still held: the peak is brought
      to the number of chunks read so far, or to four. */
  lemma PeakStep(script: seq<ReadResult>, i: nat, peak: nat)
    requires i >= 1 && AllFilled(script, i + 1) && peak == AtMostFour(i + 1)
    ensures Most(peak, |Resident(script, {0, 1, i, i + 1})|) == AtMostFour(Filled(script, i + 2))
    ensures AtMostFour(Filled(script, i + 1)) == peak
  {
    FilledAll(script, i + 1);
    var added: set<nat> := if ReadAt(script, i + 1).Data? && ReadAt(script, i + 1).bytes != [] then {i + 1} else {};
    assert Resident(script, {0, 1, i, i + 1}) == {0, 1, i} + added;
    assert |{0, 1, i}| == if i == 1 then 2 else 3 by {
      if i == 1 { assert {0, 1, i} == {0, 1}; }
    }
    assert {0, 1, i} !! added;
    assert Filled(script, i + 2) == i + 1 + |added|;
  }

  /** The calls so far, continued by the loop from chunk i, are the whole upload. */
  ghost predicate OnTrack(script: seq<ReadResult>, faults: Faults, calls: seq<S3Call>, i: nat) {
    ReadAt(script, i).Data?
    && Upload(script, faults) == (calls + Loop(script, faults, i).0, Loop(script, faults, i).1)
  }

  lemma NextChunk(script: seq<ReadResult>, faults: Faults, calls: seq<S3Call>, i: nat)
    requires OnTrack(script, faults, calls, i) && ReadAt(script, i).bytes != []
    ensures var sent := calls + [UploadPart(i + 1, ReadAt(script, i).bytes)];
      if i + 1 in faults.parts || ReadAt(script, i + 1).ReadFault?
      then Upload(script, faults) == (sent + [AbortUpload], Raised)
      else OnTrack(script, faults, sent, i + 1)
  {
    hide Upload;
    var part := UploadPart(i + 1, ReadAt(script, i).bytes);
    assert calls + [part, AbortUpload] == calls + [part] + [AbortUpload];
    if i + 1 !in faults.parts && ReadAt(script, i + 1).Data? {
      assert calls + ([part] + Loop(script, faults, i + 1).0) == calls + [part] + Loop(script, faults, i + 1).0;
    }
  }

  lemma LastChunk(script: seq<ReadResult>, faults: Faults, calls: seq<S3Call>, i: nat)
    requires OnTrack(script, faults, calls, i) && ReadAt(script, i).bytes == []
    ensures var sent := calls + [CompleteUpload(UpTo(i))];
      Upload(script, faults) == if faults.complete then (sent + [AbortUpload], Raised) else (sent, Done)
  {
    hide Upload;
    assert calls + [CompleteUpload(UpTo(i)), AbortUpload] == calls + [CompleteUpload(UpTo(i))] + [AbortUpload];
  }

  /** `peak` is the greatest number of non-empty chunks held at once by head, nxt, chunk and the queue:
      the number read, but never more than four. */
  method PutStream(file: FileObject, s3: Client) returns (outcome: Outcome, ghost peak: nat)
    requires file.taken == 0 && s3.calls == []
    modifies file, s3
    ensures (s3.calls, outcome) == Upload(file.script, s3.faults)
    ensures peak == AtMostFour(Filled(file.script, file.taken))
    ensures (outcome.Done? && (ReadAt(file.script, 1) == Data([]) || ReadAt(file.script, 0) != Data([]))) ==>
              peak == AtMostFour(|Chunks(file.script, 0)|)
  {
    hide Resident, Most, Filled, Chunks;
    var script := file.script;
    FirstTwo(script);
    var head := file.Read();
    peak := |Resident(script, {0})|;
    if head.ReadFault? {
      return Raised, peak;
    }
    var nxt := file.Read();
    peak := |Resident(script, {0, 1})|;
    if nxt.ReadFault? {
      return Raised, peak;
    }
    if nxt.bytes == [] {
      SingleChunk(script);
      var putFailed := s3.Send(PutObject(head.bytes));
      assert s3.calls == [PutObject(head.bytes)];
      return if putFailed then Raised else Done, peak;
    }
    var createFailed := s3.Send(CreateUpload);
    assert s3.calls == [CreateUpload];
    if createFailed {
      return Raised, peak;
    }
    var parts: seq<nat> := [];
    var pending := [head.bytes, nxt.bytes];
    var failed := false;
    hide Upload, Loop, OnTrack;
    Started(script, s3.faults);
    while pending != []
      invariant file.script == script && 1 <= |pending| <= 2
      invariant parts == UpTo(|parts|) && AllFilled(script, |parts|)
      invariant ReadAt(script, |parts|) == Data(pending[0])
      invariant |pending| == 2 ==> |parts| == 0 && ReadAt(script, 1) == Data(pending[1])
      invariant |pending| == 1 ==> |parts| >= 1
      invariant file.taken == |parts| + |pending|
      invariant OnTrack(script, s3.faults, s3.calls, |parts|)
      invariant peak == AtMostFour(Filled(script, file.taken))
      decreases |script| - |parts|, |pending|
    {
      ghost var i := |parts|;
      var chunk := pending[0];
      pending := pending[1..];
      if chunk == [] {
        break;
      }
      NextChunk(script, s3.faults, s3.calls, i);
      var partFailed := s3.Send(UploadPart(|parts| + 1, chunk));
      if partFailed {
        failed := true;
        break;
      }
      parts := parts + [|parts| + 1];
      if pending == [] {
        FilledAll(script, i + 1);
        PeakStep(script, i, peak);
        var more := file.Read();
        peak := Most(peak, |Resident(script, {0, 1, i, i + 1})|);
        if more.ReadFault? {
          failed := true;
          break;
        }
        pending := pending + [more.bytes];
      }
    }
    if !failed {
      LastChunk(script, s3.faults, s3.calls, |parts|);
      failed := s3.Send(CompleteUpload(parts));
    }
    if failed {
      var _ := s3.Send(AbortUpload);
      return Raised, peak;
    }
    outcome := Done;
    if |parts| > 0 {
      FilledAll(script, |parts|);
      ChunksEnd(script, |parts|);
    }
  }

  lemma Started(script: seq<ReadResult>, faults: Faults)
    requires ReadAt(script, 0).Data? && ReadAt(script, 1).Data? && ReadAt(script, 1).bytes != [] && !faults.create
    ensures OnTrack(script, faults, [CreateUpload], 0)
  {
  }

  lemma SingleChunk(script: seq<ReadResult>)
    requires ReadAt(script, 0).Data? && ReadAt(script, 1) == Data([])
    ensures |Chunks(script, 0)| == Filled(script, 2)
  {
    assert Chunks(script, 1) == [];
    assert Filled(script, 2) == Filled(script, 1);
    assert Filled(script, 1) == Filled(script, 0) + if ReadAt(script, 0).bytes != [] then 1 else 0;
  }

  lemma {:induction false} ChunksFrom(script: seq<ReadResult>, i: nat, n: nat)
    requires i <= n && AllFilled(script, n) && ReadAt(script, n) == Data([])
    ensures |Chunks(script, i)| == n - i
    decreases n - i
  {
    if i < n { ChunksFrom(script, i + 1, n); }
  }

  lemma ChunksEnd(script: seq<ReadResult>, n: nat)
    requires AllFilled(script, n) && ReadAt(script, n) == Data([])
    ensures |Chunks(script, 0)| == n && Filled(script, n + 1) == Filled(script, n)
  {
    ChunksFrom(script, 0, n);
  }

  // ---------------------------------------------------------------- what is stored

  /** The non-empty reads from i up to the first empty one or fault. */
  function Chunks(script: seq<ReadResult>, i: nat): seq<Bytes>
    decreases |script| - i
  {
    var r := ReadAt(script, i);
    if r.ReadFault? || r.bytes == [] then [] else [r.bytes] + Chunks(script, i + 1)
  }

  function Bodies(calls: seq<S3Call>): seq<Bytes> {
    if calls == [] then []
    else (match calls[0] case PutObject(b) => [b] case UploadPart(_, b) => [b] case _ => []) + Bodies(calls[1..])
  }

  function Numbers(calls: seq<S3Call>): seq<nat> {
    if calls == [] then [] else (if calls[0].UploadPart? then [calls[0].number] else []) + Numbers(calls[1..])
  }

  function Aborts(calls: seq<S3Call>): nat {
    if calls == [] then 0 else (if calls[0].AbortUpload? then 1 else 0) + Aborts(calls[1..])
  }

  predicate CountsFrom(numbers: seq<nat>, first: nat) {
    forall k :: 0 <= k < |numbers| ==> numbers[k] == first + k
  }

  /** Calls that store these chunks under the numbers i + 1, i + 2, ..: a run that ends well completes
      exactly those numbers and aborts nothing, one that fails ends in its one abort. */
  predicate Stores(chunks: seq<Bytes>, i: nat, calls: seq<S3Call>, outcome: Outcome) {
    calls != [] && if outcome == Done then StoresAll(chunks, i, calls) else StoresSome(chunks, calls)
  }

  predicate StoresAll(chunks: seq<Bytes>, i: nat, calls: seq<S3Call>) {
    && calls != [] && Bodies(calls) == chunks && Aborts(calls) == 0
    && |Numbers(calls)| == |chunks| && CountsFrom(Numbers(calls), i + 1) && Completes(calls, i + |chunks|)
  }

  /** The last call completes the upload with the parts 1 to n. */
  predicate Completes(calls: seq<S3Call>, n: nat) { calls != [] && calls[|calls| - 1] == CompleteUpload(UpTo(n)) }

  predicate StoresSome(chunks: seq<Bytes>, calls: seq<S3Call>) {
    calls != [] && Bodies(calls) <= chunks && Aborts(calls) == 1 && calls[|calls| - 1] == AbortUpload
  }

  lemma {:induction false} LoopStores(script: seq<ReadResult>, faults: Faults, i: nat)
    requires ReadAt(script, i).Data?
    ensures Stores(Chunks(script, i), i, Loop(script, faults, i).0, Loop(script, faults, i).1)
    decreases |script| - i
  {
    var chunk := ReadAt(script, i).bytes;
    if chunk == [] || i + 1 in faults.parts || ReadAt(script, i + 1).ReadFault? {
      ShortRuns(i, chunk);
    } else {
      hide Loop, StoresAll, StoresSome;
      LoopStores(script, faults, i + 1);
      LoopStep(script, faults, i);
      ChunksStep(script, i);
      var (rest, outcome) := Loop(script, faults, i + 1);
      if outcome == Done {
        AllStep(Chunks(script, i + 1), i, chunk, rest);
      } else {
        SomeStep(Chunks(script, i + 1), i, chunk, rest);
      }
    }
  }

  lemma {:induction false} AllStep(chunks: seq<Bytes>, i: nat, chunk: Bytes, rest: seq<S3Call>)
    requires StoresAll(chunks, i + 1, rest)
    ensures StoresAll([chunk] + chunks, i, [UploadPart(i + 1, chunk)] + rest)
  {
    PartFirst(i + 1, chunk, rest);
    CompletesOn(UploadPart(i + 1, chunk), rest, i + 1 + |chunks|);
    hide Bodies, Numbers, Aborts, CountsFrom, Completes;
    CountsOn(Numbers(rest), i + 1);
    assert i + |[chunk] + chunks| == i + 1 + |chunks|;
  }

  lemma {:induction false} CompletesOn(first: S3Call, rest: seq<S3Call>, n: nat)
    requires Completes(rest, n)
    ensures Completes([first] + rest, n)
  {
  }

  lemma {:induction false} SomeStep(chunks: seq<Bytes>, i: nat, chunk: Bytes, rest: seq<S3Call>)
    requires StoresSome(chunks, rest)
    ensures StoresSome([chunk] + chunks, [UploadPart(i + 1, chunk)] + rest)
  {
    PartFirst(i + 1, chunk, rest);
    hide Bodies, Numbers, Aborts;
    PrefixOn(chunk, Bodies(rest), chunks);
  }

  lemma {:induction false} CountsOn(later: seq<nat>, first: nat)
    requires CountsFrom(later, first + 1)
    ensures CountsFrom([first] + later, first)
  {
  }

  lemma {:induction false} PrefixOn(chunk: Bytes, a: seq<Bytes>, b: seq<Bytes>)
    requires a <= b
    ensures [chunk] + a <= [chunk] + b
  {
  }

  lemma {:induction false} LoopStep(script: seq<ReadResult>, faults: Faults, i: nat)
    requires ReadAt(script, i).Data? && ReadAt(script, i).bytes != []
    requires i + 1 !in faults.parts && ReadAt(script, i + 1).Data?
    ensures var rest := Loop(script, faults, i + 1);
      Loop(script, faults, i) == ([UploadPart(i + 1, ReadAt(script, i).bytes)] + rest.0, rest.1)
  {
  }

  lemma {:induction false} ChunksStep(script: seq<ReadResult>, i: nat)
    requires ReadAt(script, i).Data? && ReadAt(script, i).bytes != []
    ensures Chunks(script, i) == [ReadAt(script, i).bytes] + Chunks(script, i + 1)
  {
  }

  lemma {:induction false} PartFirst(number: nat, chunk: Bytes, rest: seq<S3Call>)
    ensures var c := [UploadPart(number, chunk)] + rest;
      Bodies(c) == [chunk] + Bodies(rest) && Numbers(c) == [number] + Numbers(rest) && Aborts(c) == Aborts(rest)
  {
    assert ([UploadPart(number, chunk)] + rest)[1..] == rest;
  }

  lemma ShortRuns(i: nat, chunk: Bytes)
    ensures var c := [CompleteUpload(UpTo(i))];
      Bodies(c) == [] && Numbers(c) == [] && Aborts(c) == 0
    ensures var c := [CompleteUpload(UpTo(i)), AbortUpload];
      Bodies(c) == [] && Aborts(c) == 1
    ensures var c := [UploadPart(i + 1, chunk), AbortUpload];
      Bodies(c) == [chunk] && Aborts(c) == 1
  {
    assert [CompleteUpload(UpTo(i)), AbortUpload][1..] == [AbortUpload];
    assert [UploadPart(i + 1, chunk), AbortUpload][1..] == [AbortUpload];
    assert [AbortUpload][1..] == [];
  }

  /** For every pattern of short reads: an upload that ends well stored, in order, exactly the bytes
      read up to the first empty read, as one object or as parts numbered from 1. */
  lemma StoresWhatWasRead(script: seq<ReadResult>, faults: Faults)
    requires Upload(script, faults).1 == Done
    ensures var calls := Upload(script, faults).0;
      Flatten(Bodies(calls)) == Flatten(Chunks(script, 0)) && Aborts(calls) == 0
      && (calls[0].CreateUpload? ==>
            Numbers(calls) == UpTo(|Chunks(script, 0)|)
            && calls[|calls| - 1] == CompleteUpload(UpTo(|Chunks(script, 0)|)))
      && (!calls[0].CreateUpload? ==> |calls| == 1 && calls[0].PutObject?)
  {
    hide Flatten, Loop, Chunks;
    var calls := Upload(script, faults).0;
    if ReadAt(script, 1).bytes == [] {
      SinglePut(script, ReadAt(script, 0).bytes);
    } else {
      hide Bodies, Numbers, Aborts;
      LoopStores(script, faults, 0);
      CreateFirst(Loop(script, faults, 0).0);
    }
  }

  lemma {:induction false} CreateFirst(rest: seq<S3Call>)
    ensures var c := [CreateUpload] + rest;
      Bodies(c) == Bodies(rest) && Numbers(c) == Numbers(rest) && Aborts(c) == Aborts(rest)
  {
    assert ([CreateUpload] + rest)[1..] == rest;
    assert [] + Bodies(rest) == Bodies(rest) && [] + Numbers(rest) == Numbers(rest);
  }

  lemma SinglePut(script: seq<ReadResult>, head: Bytes)
    requires ReadAt(script, 0) == Data(head) && ReadAt(script, 1) == Data([])
    ensures Flatten(Bodies([PutObject(head)])) == Flatten(Chunks(script, 0)) && Aborts([PutObject(head)]) == 0
  {
    assert [PutObject(head)][1..] == [] && [head][1..] == [];
    assert Bodies([PutObject(head)]) == [head];
    assert Flatten([head]) == head + Flatten([head][1..]);
    assert Chunks(script, 1) == [];
    assert Chunks(script, 0) == if head == [] then [] else [head];
  }

  /** A fault after the upload was created leads to exactly one abort, as the last call, and a raise;
      a fault before that leaves nothing to abort. */
  lemma FaultAbortsOnce(script: seq<ReadResult>, faults: Faults)
    requires Upload(script, faults).1 == Raised
    ensures var calls := Upload(script, faults).0;
      if |calls| > 1
      then calls[0].CreateUpload? && !faults.create && Aborts(calls) == 1 && calls[|calls| - 1] == AbortUpload
      else Aborts(calls) == 0
  {
    var calls := Upload(script, faults).0;
    if |calls| > 1 {
      LoopStores(script, faults, 0);
      assert calls[1..] == Loop(script, faults, 0).0;
    } else if |calls| == 1 {
      assert calls[1..] == [];
    }
  }

  lemma {:induction false} LoopDone(script: seq<ReadResult>, faults: Faults, i: nat)
    requires ReadAt(script, i).Data?
    ensures var end := i + |Chunks(script, i)|;
      Loop(script, faults, i).1 == Done
      <==> ReadAt(script, end).Data? && !faults.complete && forall k :: i < k <= end ==> k !in faults.parts
    decreases |script| - i
  {
    var chunk := ReadAt(script, i).bytes;
    if chunk != [] && i + 1 !in faults.parts && ReadAt(script, i + 1).Data? {
      LoopDone(script, faults, i + 1);
    }
  }

  /** Exactly when an upload ends well: every read up to the end succeeds, and so does the single put, or
      the creation, every part and the completion. */
  lemma DoneExactly(script: seq<ReadResult>, faults: Faults)
    ensures var n := |Chunks(script, 0)|;
      Upload(script, faults).1 == Done
      <==> && ReadAt(script, 0).Data? && ReadAt(script, 1).Data?
           && if ReadAt(script, 1).bytes == [] then !faults.put
              else && !faults.create && !faults.complete && ReadAt(script, n).Data?
                   && forall k :: 1 <= k <= n ==> k !in faults.parts
  {
    hide Loop, Chunks;
    if ReadAt(script, 0).Data? && ReadAt(script, 1).Data? {
      LoopDone(script, faults, 0);
    }
  }

  // ---------------------------------------------------------------- empty reads before the end

  function Whole(script: seq<ReadResult>, i: nat): seq<Bytes>
    decreases |script| - i
  {
    if i >= |script| then []
    else (if script[i].Data? && script[i].bytes != [] then [script[i].bytes] else []) + Whole(script, i + 1)
  }

  predicate NothingFrom(script: seq<ReadResult>, i: nat) {
    forall k :: i <= k < |script| ==> script[k].Data? && script[k].bytes == []
  }

  lemma {:induction false} WholeNothing(script: seq<ReadResult>, i: nat)
    requires forall k :: 0 <= k < |script| ==> script[k].Data?
    ensures Whole(script, i) == [] <==> NothingFrom(script, i)
    decreases |script| - i
  {
    if i < |script| { WholeNothing(script, i + 1); }
  }

  /** An empty read ends the upload, so everything a reader would still return is lost: the stored
      reads are all reads exactly when nothing but empty reads follows the first empty one. */
  lemma {:induction false} CompleteExactly(script: seq<ReadResult>, i: nat)
    requires forall k :: 0 <= k < |script| ==> script[k].Data?
    ensures Chunks(script, i) == Whole(script, i) <==> NothingFrom(script, i + |Chunks(script, i)|)
    decreases |script| - i
  {
    if i < |script| {
      if script[i].bytes == [] {
        WholeNothing(script, i);
      } else {
        CompleteExactly(script, i + 1);
        assert Chunks(script, i)[1..] == Chunks(script, i + 1);
        assert Whole(script, i)[1..] == Whole(script, i + 1);
      }
    }
  }

  // ---------------------------------------------------------------- full reads

  function FullReads(stream: Bytes): seq<ReadResult>
    decreases |stream|
  {
    if |stream| <= PART_SIZE then (if stream == [] then [] else [Data(stream)])
    else [Data(stream[..PART_SIZE])] + FullReads(stream[PART_SIZE..])
  }

  function PartCount(length: nat): nat { (length + PART_SIZE - 1) / PART_SIZE }

  /** Full reads are parts of exactly the part size, but for the last; their number is the length over
      the part size, rounded up. */
  lemma {:induction false} FullChunks(script: seq<ReadResult>, i: nat, stream: Bytes)
    requires i <= |script| && script[i..] == FullReads(stream)
    ensures Flatten(Chunks(script, i)) == stream && |Chunks(script, i)| == PartCount(|stream|)
    ensures forall k :: 0 <= k < |Chunks(script, i)| - 1 ==> |Chunks(script, i)[k]| == PART_SIZE
    ensures forall k :: 0 <= k < |Chunks(script, i)| ==> 1 <= |Chunks(script, i)[k]| <= PART_SIZE
    decreases |stream|
  {
    if stream == [] {
      assert i == |script|;
    } else {
      assert script[i] == script[i..][0];
      assert script[i + 1..] == script[i..][1..];
      if |stream| <= PART_SIZE {
        assert script[i + 1..] == [];
        assert Chunks(script, i + 1) == [];
        assert Flatten([stream]) == stream + Flatten([stream][1..]);
      } else {
        var rest := stream[PART_SIZE..];
        FullChunks(script, i + 1, rest);
        assert Chunks(script, i)[1..] == Chunks(script, i + 1);
        assert PartCount(|stream|) == 1 + PartCount(|rest|);
      }
    }
  }

  const NO_FAULTS := Faults(false, false, {}, false, false)

  lemma {:induction false} NoFaultsDone(script: seq<ReadResult>, i: nat)
    requires forall k :: 0 <= k < |script| ==> script[k].Data?
    ensures Loop(script, NO_FAULTS, i).1 == Done
    decreases |script| - i
  {
    if ReadAt(script, i).bytes != [] { NoFaultsDone(script, i + 1); }
  }

  lemma {:induction false} FullReadsData(stream: Bytes)
    ensures forall k :: 0 <= k < |FullReads(stream)| ==> FullReads(stream)[k].Data?
    ensures |FullReads(stream)| >= 2 <==> |stream| > PART_SIZE
    ensures |FullReads(stream)| >= 2 ==> FullReads(stream)[1].bytes != []
    decreases |stream|
  {
    if |stream| > PART_SIZE { FullReadsData(stream[PART_SIZE..]); }
  }

  /** With full reads and no fault the stored bytes are the stream; multipart is used exactly when the
      stream is longer than one part, with every part but the last of exactly the part size. */
  lemma FullUpload(stream: Bytes)
    ensures var (calls, outcome) := Upload(FullReads(stream), NO_FAULTS);
      outcome == Done && Flatten(Bodies(calls)) == stream
      && (calls[0].CreateUpload? <==> |stream| > 8_388_608)
      && (calls[0].CreateUpload? ==>
            Numbers(calls) == UpTo(PartCount(|stream|)) && |Bodies(calls)| == PartCount(|stream|)
            && forall k :: 0 <= k < |Bodies(calls)| - 1 ==> |Bodies(calls)[k]| == 8_388_608)
  {
    hide FullReads, Loop, Chunks, PartCount;
    var script := FullReads(stream);
    FullReadsData(stream);
    assert script[0..] == script;
    FullChunks(script, 0, stream);
    NoFaultsDone(script, 0);
    StoresWhatWasRead(script, NO_FAULTS);
    LoopStores(script, NO_FAULTS, 0);
    var calls := Upload(script, NO_FAULTS).0;
    if |stream| > PART_SIZE {
      assert calls[1..] == Loop(script, NO_FAULTS, 0).0;
    }
  }
}
