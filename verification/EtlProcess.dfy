/** Reading a trace file: the buffers of every processor form a chain of events, and the chains are merged. */
module EtlProcess {

  import opened Wrappers
  import opened Merging

  /** An event takes `size` bytes in its buffer. */
  datatype Trace = Trace(size: nat)

  /** The payload of a buffer: traces one behind the other, each at an aligned offset. */
  datatype Buffer = Buffer(payloadSize: nat, traces: seq<Timed<Trace>>)

  datatype FileBuffer = FileBuffer(processor: nat, sequenceNumber: nat, bufferSize: nat, buffer: Buffer)

  datatype FileHeader = FileHeader(numberOfBuffers: nat, numberOfProcessors: nat, bufferSize: nat)

  // ----- One buffer --------------------------------------------------------------------

  const ALIGNMENT := 8

  function Aligned(size: nat): (r: nat)
    ensures r % ALIGNMENT == 0 && size <= r < size + ALIGNMENT
  {
    if size % ALIGNMENT > 0 then size + (ALIGNMENT - size % ALIGNMENT) else size
  }

  function OffsetOf(traces: seq<Timed<Trace>>, k: nat): nat
    requires k <= |traces|
  {
    if k == 0 then 0 else OffsetOf(traces, k - 1) + Aligned(traces[k - 1].value.size)
  }

  /** There is a trace, and the payload ends with the last one, before or behind the padding. */
  ghost predicate WellLaid(b: Buffer) {
    && b.traces != []
    && (forall k :: 0 <= k < |b.traces| ==> b.traces[k].value.size > 0)
    && OffsetOf(b.traces, |b.traces| - 1) < b.payloadSize <= OffsetOf(b.traces, |b.traces|)
  }

  /** The trace that starts at the offset. */
  function TraceAt(traces: seq<Timed<Trace>>, offset: nat): Option<Timed<Trace>> {
    if traces == [] then None
    else if offset == 0 then Some(traces[0])
    else if offset < Aligned(traces[0].value.size) then None
    else TraceAt(traces[1..], offset - Aligned(traces[0].value.size))
  }

  lemma {:induction false} OffsetBehindFirst(traces: seq<Timed<Trace>>, k: nat)
    requires 0 < k <= |traces|
    ensures OffsetOf(traces, k) == Aligned(traces[0].value.size) + OffsetOf(traces[1..], k - 1)
  {
    if k > 1 { OffsetBehindFirst(traces, k - 1); }
  }

  lemma {:induction false} TraceAtOffset(traces: seq<Timed<Trace>>, k: nat)
    requires k < |traces| && forall i :: 0 <= i < |traces| ==> traces[i].value.size > 0
    ensures TraceAt(traces, OffsetOf(traces, k)) == Some(traces[k])
    decreases k
  {
    if k > 0 {
      OffsetBehindFirst(traces, k);
      TraceAtOffset(traces[1..], k - 1);
    }
  }

  lemma {:induction false} OffsetsGrow(traces: seq<Timed<Trace>>, j: nat, k: nat)
    requires j <= k <= |traces|
    ensures OffsetOf(traces, j) <= OffsetOf(traces, k)
    decreases k
  {
    if j < k { OffsetsGrow(traces, j, k - 1); }
  }

  // ----- One processor -----------------------------------------------------------------

  /** The buffer being read, the offset of its next trace, and the buffers to be read, the next one at the end. */
  datatype Processor = Processor(current: Buffer, offset: nat, remaining: seq<FileBuffer>)

  /** The traces of buffers, one buffer behind the other. */
  function TracesOf(chain: seq<FileBuffer>): seq<Timed<Trace>> {
    if chain == [] then [] else chain[0].buffer.traces + TracesOf(chain[1..])
  }

  function Reversed(buffers: seq<FileBuffer>): seq<FileBuffer> {
    if buffers == [] then [] else [buffers[|buffers| - 1]] + Reversed(buffers[..|buffers| - 1])
  }

  /** The events of buffers that are read from the end. */
  function EventsOf(remaining: seq<FileBuffer>): seq<Timed<Trace>> {
    TracesOf(Reversed(remaining))
  }

  lemma {:induction false} NextBuffer(remaining: seq<FileBuffer>)
    requires remaining != []
    ensures EventsOf(remaining) == remaining[|remaining| - 1].buffer.traces + EventsOf(remaining[..|remaining| - 1])
  {
    assert Reversed(remaining)[1..] == Reversed(remaining[..|remaining| - 1]);
  }

  ghost predicate AllWellLaid(buffers: seq<FileBuffer>) {
    forall i :: 0 <= i < |buffers| ==> WellLaid(buffers[i].buffer)
  }

  /** The processor stands at trace `k` of its buffer, and `rest` is to come. */
  ghost predicate StandsAt(p: Processor, k: nat, rest: seq<Timed<Trace>>) {
    && WellLaid(p.current) && k < |p.current.traces| && p.offset == OffsetOf(p.current.traces, k)
    && AllWellLaid(p.remaining)
    && rest == p.current.traces[k..] + EventsOf(p.remaining)
  }

  lemma {:induction false} NextTrace(p: Processor, k: nat, rest: seq<Timed<Trace>>)
    requires StandsAt(p, k, rest)
    ensures rest != [] && TraceAt(p.current.traces, p.offset) == Some(rest[0])
  {
    TraceAtOffset(p.current.traces, k);
  }

  /** The buffer is exhausted exactly behind its last trace. */
  lemma {:induction false} ExhaustedAtEnd(p: Processor, k: nat, rest: seq<Timed<Trace>>)
    requires StandsAt(p, k, rest)
    ensures p.offset + Aligned(p.current.traces[k].value.size) == OffsetOf(p.current.traces, k + 1)
    ensures OffsetOf(p.current.traces, k + 1) >= p.current.payloadSize <==> k + 1 == |p.current.traces|
    ensures k + 1 < |p.current.traces| ==> rest[1..] == p.current.traces[k + 1..] + EventsOf(p.remaining)
    ensures k + 1 == |p.current.traces| ==> rest[1..] == EventsOf(p.remaining)
  {
    if k + 1 < |p.current.traces| { OffsetsGrow(p.current.traces, k + 1, |p.current.traces| - 1); }
  }

  method ReadBuffer(remaining: seq<FileBuffer>) returns (p: Processor)
    requires remaining != [] && AllWellLaid(remaining)
    ensures StandsAt(p, 0, EventsOf(remaining))
  {
    p := Processor(remaining[|remaining| - 1].buffer, 0, remaining[..|remaining| - 1]);
    NextBuffer(remaining);
    assert p.current.traces[0..] == p.current.traces;
  }

  method PeekTime(p: Processor, ghost k: nat, ghost rest: seq<Timed<Trace>>) returns (time: nat)
    requires StandsAt(p, k, rest)
    ensures rest != [] && time == rest[0].time
  {
    NextTrace(p, k, rest);
    time := TraceAt(p.current.traces, p.offset).value.time;
  }

  /** Processes one trace; an exhausted buffer is replaced by the next one of the processor, if there is one. */
  method Advance(p0: Processor, ghost k0: nat, ghost rest: seq<Timed<Trace>>)
    returns (e: Timed<Trace>, more: bool, p: Processor, ghost k: nat)
    requires StandsAt(p0, k0, rest)
    ensures rest != [] && e == rest[0] && (more <==> |rest| > 1)
    ensures more ==> StandsAt(p, k, rest[1..])
  {
    NextTrace(p0, k0, rest);
    ExhaustedAtEnd(p0, k0, rest);
    e := TraceAt(p0.current.traces, p0.offset).value;
    p, k := p0.(offset := p0.offset + Aligned(e.value.size)), k0 + 1;
    more := true;
    if p.offset >= p.current.payloadSize {
      if p.remaining == [] {
        more := false;
        return;
      }
      p := ReadBuffer(p.remaining);
      k := 0;
    }
  }

  // ----- The buffers of a file ---------------------------------------------------------

  /** `BehindTable` stands for the write behind the table of processors that the one index let through by the test leads
      to. */
  datatype Error = MissingBuffer | BadSequenceNumber | BadBufferSize | BadProcessor | BehindTable

  datatype Result<T> = Success(value: T) | Failure(error: Error)

  function ErrorIn(b: FileBuffer, header: FileHeader): Option<Error> {
    if b.sequenceNumber > header.numberOfBuffers then Some(BadSequenceNumber)
    else if b.bufferSize > header.bufferSize then Some(BadBufferSize)
    else if b.processor > header.numberOfProcessors then Some(BadProcessor)
    else if b.processor == header.numberOfProcessors then Some(BehindTable)
    else None
  }

  /** The first thing wrong with the buffers that the header announces. */
  function FirstError(file: seq<FileBuffer>, header: FileHeader, i: nat): Option<Error>
    requires i <= header.numberOfBuffers
    decreases header.numberOfBuffers - i
  {
    if i == header.numberOfBuffers then None
    else if i >= |file| then Some(MissingBuffer)
    else if ErrorIn(file[i], header).Some? then ErrorIn(file[i], header)
    else FirstError(file, header, i + 1)
  }

  function OfProcessor(file: seq<FileBuffer>, p: nat): seq<FileBuffer> {
    if file == [] then []
    else OfProcessor(file[..|file| - 1], p) + if file[|file| - 1].processor == p then [file[|file| - 1]] else []
  }

  /** A processor's buffers are those that name it, each as often as in the file. */
  lemma {:induction false} OfProcessorCounts(file: seq<FileBuffer>, p: nat, b: FileBuffer)
    ensures multiset(OfProcessor(file, p))[b] == if b.processor == p then multiset(file)[b] else 0
  {
    if file != [] {
      var before, last := file[..|file| - 1], file[|file| - 1];
      OfProcessorCounts(before, p, b);
      assert file == before + [last];
    }
  }

  /** The buffer that the program meets first among the bad ones. */
  ghost predicate IsFirstBad(file: seq<FileBuffer>, header: FileHeader, i: nat) {
    && i < header.numberOfBuffers && i < |file| && ErrorIn(file[i], header).Some?
    && forall j :: 0 <= j < i ==> ErrorIn(file[j], header).None?
  }

  /** The first error is that of the first bad buffer, or else that there are too few. */
  lemma {:induction false} FirstErrorIs(file: seq<FileBuffer>, header: FileHeader, k: nat)
    requires k <= header.numberOfBuffers && k <= |file| && forall j :: 0 <= j < k ==> ErrorIn(file[j], header).None?
    ensures forall i: nat :: IsFirstBad(file, header, i) ==> FirstError(file, header, k) == ErrorIn(file[i], header)
    ensures (forall i: nat :: !IsFirstBad(file, header, i)) ==>
              FirstError(file, header, k) == if |file| < header.numberOfBuffers then Some(MissingBuffer) else None
    decreases header.numberOfBuffers - k
  {
    if k < header.numberOfBuffers && k < |file| {
      if ErrorIn(file[k], header).Some? {
        assert IsFirstBad(file, header, k);
      } else {
        FirstErrorIs(file, header, k + 1);
      }
    }
  }

  /** The program writes behind its table exactly when the first bad header names the processor whose index is the
      number of processors, and nothing else is wrong with it. */
  lemma {:induction false} WritesBehindTableExactlyWhen(file: seq<FileBuffer>, header: FileHeader)
    ensures FirstError(file, header, 0) == Some(BehindTable) <==>
              exists i: nat :: IsFirstBad(file, header, i) && file[i].processor == header.numberOfProcessors
                && file[i].sequenceNumber <= header.numberOfBuffers && file[i].bufferSize <= header.bufferSize
  {
    FirstErrorIs(file, header, 0);
    if FirstError(file, header, 0) == Some(BehindTable) {
      var i: nat :| IsFirstBad(file, header, i);
    }
  }

  /** One processor, one buffer, and the buffer says processor one, the first being zero. */
  lemma {:induction false} BehindTableExample()
    ensures FirstError([FileBuffer(1, 1, 64, Buffer(0, []))], FileHeader(1, 1, 64), 0) == Some(BehindTable)
  {
    var file, header := [FileBuffer(1, 1, 64, Buffer(0, []))], FileHeader(1, 1, 64);
    assert IsFirstBad(file, header, 0);
    FirstErrorIs(file, header, 0);
  }

  /** The limits themselves are let through; the sequence number is checked first, the processor last. */
  lemma {:induction false} HeaderLimits(b: Buffer)
    ensures var header := FileHeader(1, 1, 64);
            && FirstError([FileBuffer(0, 1, 64, b)], header, 0) == None
            && FirstError([FileBuffer(2, 2, 65, b)], header, 0) == Some(BadSequenceNumber)
            && FirstError([FileBuffer(2, 1, 65, b)], header, 0) == Some(BadBufferSize)
            && FirstError([FileBuffer(2, 1, 64, b)], header, 0) == Some(BadProcessor)
            && FirstError([], header, 0) == Some(MissingBuffer)
  {
    var header := FileHeader(1, 1, 64);
    assert FirstError([FileBuffer(0, 1, 64, b)], header, 1) == None;
  }

  /** Distributes the buffers of the file over their processors. */
  method ReadHeaders(file: seq<FileBuffer>, header: FileHeader) returns (r: Result<seq<seq<FileBuffer>>>)
    ensures r.Failure? ==> FirstError(file, header, 0) == Some(r.error)
    ensures r.Success? ==> FirstError(file, header, 0) == None && header.numberOfBuffers <= |file|
    ensures r.Success? ==> |r.value| == header.numberOfProcessors
                           && forall p :: 0 <= p < |r.value| ==>
                                r.value[p] == OfProcessor(file[..header.numberOfBuffers], p)
  {
    var perProcessor: seq<seq<FileBuffer>> := seq(header.numberOfProcessors, i => []);
    for i := 0 to header.numberOfBuffers
      invariant i <= |file| && FirstError(file, header, 0) == FirstError(file, header, i)
      invariant |perProcessor| == header.numberOfProcessors
      invariant forall p :: 0 <= p < |perProcessor| ==> perProcessor[p] == OfProcessor(file[..i], p)
    {
      if i >= |file| { return Failure(MissingBuffer); }
      var b := file[i];
      if b.sequenceNumber > header.numberOfBuffers { return Failure(BadSequenceNumber); }
      if b.bufferSize > header.bufferSize { return Failure(BadBufferSize); }
      if b.processor > header.numberOfProcessors { return Failure(BadProcessor); }
      if b.processor == |perProcessor| { return Failure(BehindTable); }
      assert file[..i + 1][..i] == file[..i];
      perProcessor := perProcessor[b.processor := perProcessor[b.processor] + [b]];
    }
    r := Success(perProcessor);
  }

  ghost predicate Descending(buffers: seq<FileBuffer>) {
    forall i, j :: 0 <= i < j < |buffers| ==> buffers[i].sequenceNumber >= buffers[j].sequenceNumber
  }

  /** The same buffers, by falling sequence number; the order of equal numbers is open. */
  ghost predicate IsArrangement(buffers: seq<FileBuffer>, sorted: seq<FileBuffer>) {
    multiset(sorted) == multiset(buffers) && Descending(sorted)
  }

  predicate IsHighest(buffers: seq<FileBuffer>, k: nat)
    requires k < |buffers|
  {
    forall i :: 0 <= i < |buffers| ==> buffers[i].sequenceNumber <= buffers[k].sequenceNumber
  }

  lemma {:induction false} HighestExists(buffers: seq<FileBuffer>) returns (k: nat)
    requires buffers != []
    ensures k < |buffers| && IsHighest(buffers, k)
  {
    k := 0;
    for i := 1 to |buffers|
      invariant k < i && forall j :: 0 <= j < i ==> buffers[j].sequenceNumber <= buffers[k].sequenceNumber
    {
      if buffers[i].sequenceNumber > buffers[k].sequenceNumber { k := i; }
    }
  }

  lemma {:induction false} HighestComesFirst(buffers: seq<FileBuffer>, k: nat, rest: seq<FileBuffer>)
    requires k < |buffers| && IsHighest(buffers, k) && IsArrangement(buffers[..k] + buffers[k + 1..], rest)
    ensures IsArrangement(buffers, [buffers[k]] + rest)
  {
    var others := buffers[..k] + buffers[k + 1..];
    assert buffers == buffers[..k] + [buffers[k]] + buffers[k + 1..];
    forall i | 0 <= i < |rest| ensures rest[i].sequenceNumber <= buffers[k].sequenceNumber {
      assert rest[i] in multiset(rest);
      assert rest[i] in others;
      var j :| 0 <= j < |others| && others[j] == rest[i];
      assert others[j] == if j < k then buffers[j] else buffers[j + 1];
    }
  }

  method SortBySequenceNumber(buffers: seq<FileBuffer>) returns (sorted: seq<FileBuffer>)
    ensures IsArrangement(buffers, sorted)
    decreases |buffers|
  {
    if buffers == [] { return []; }
    ghost var highest := HighestExists(buffers);
    var k: nat :| k < |buffers| && IsHighest(buffers, k);
    var rest := SortBySequenceNumber(buffers[..k] + buffers[k + 1..]);
    HighestComesFirst(buffers, k, rest);
    sorted := [buffers[k]] + rest;
  }

  // ----- The merge ---------------------------------------------------------------------

  /** Every processor with something left stands at its next event. */
  ghost predicate Standing(processors: seq<Processor>, ks: seq<nat>, sources: seq<seq<Timed<Trace>>>, next: seq<nat>) {
    && |processors| == |ks| == |sources| == |next|
    && forall i: nat :: IsOpen(sources, next, i) ==> StandsAt(processors[i], ks[i], sources[i][next[i]..])
  }

  lemma {:induction false} StandingAfter(processors: seq<Processor>, ks: seq<nat>, sources: seq<seq<Timed<Trace>>>,
                                         next: seq<nat>, c: nat, p: Processor, k: nat)
    requires Standing(processors, ks, sources, next) && IsOpen(sources, next, c)
    requires |sources[c][next[c]..]| > 1 ==> StandsAt(p, k, sources[c][next[c]..][1..])
    ensures Standing(processors[c := p], ks[c := k], sources, next[c := next[c] + 1])
  {
    var next1 := next[c := next[c] + 1];
    forall i: nat | IsOpen(sources, next1, i)
      ensures StandsAt(processors[c := p][i], ks[c := k][i], sources[i][next1[i]..])
    {
      if i == c {
        assert sources[c][next[c]..][1..] == sources[c][next[c] + 1..];
      } else {
        assert IsOpen(sources, next, i);
      }
    }
  }


  /** Processes events of processor `c` as long as no other processor has an earlier one. */
  method TakeFrom(ghost sources: seq<seq<Timed<Trace>>>, ghost next0: seq<nat>, c: nat, queue0: seq<Entry>,
                  processors0: seq<Processor>, ghost ks0: seq<nat>, out0: seq<Timed<Trace>>, ghost from0: seq<nat>)
    returns (ghost next: seq<nat>, queue: seq<Entry>, processors: seq<Processor>, ghost ks: seq<nat>,
             out: seq<Timed<Trace>>, ghost from: seq<nat>)
    requires AllOrdered(sources) && PartlyMerged(sources, next0, out0, from0)
    requires Queued(queue0, sources, next0, c) && IsEarliest(sources, next0, c)
    requires Standing(processors0, ks0, sources, next0)
    ensures PartlyMerged(sources, next, out, from) && Queued(queue, sources, next, -1)
    ensures Standing(processors, ks, sources, next)
    ensures Left(sources, next) < Left(sources, next0)
  {
    next, queue, processors, ks, out, from := next0, queue0, processors0, ks0, out0, from0;
    while true
      invariant PartlyMerged(sources, next, out, from) && Queued(queue, sources, next, c)
      invariant IsEarliest(sources, next, c)
      invariant Standing(processors, ks, sources, next) && Left(sources, next) <= Left(sources, next0)
      decreases Left(sources, next)
    {
      var e, more, p;
      ghost var k;
      ghost var rest := sources[c][next[c]..];
      e, more, p, k := Advance(processors[c], ks[c], rest);
      StandingAfter(processors, ks, sources, next, c, p, k);
      TakeEarliest(sources, next, out, from, c);
      TakingLeavesLess(sources, next, c);
      QueueKept(queue, sources, next, next[c := next[c] + 1], c);
      out, from := out + [e], from + [c];
      processors, ks := processors[c := p], ks[c := k];
      next := next[c := next[c] + 1];
      if !more {
        ClosedIsQueued(queue, sources, next, c);
        return;
      }
      var nextTime := PeekTime(p, k, sources[c][next[c]..]);
      if queue != [] {
        var top := PeekFirst(queue);
        if top.time < nextTime {
          PushedIsQueued(queue, sources, next, c);
          queue := queue + [Entry(nextTime, c)];
          return;
        }
      }
      StaysEarliest(queue, sources, next, c);
    }
  }

  ghost predicate Ascending(buffers: seq<FileBuffer>) {
    forall i, j :: 0 <= i < j < |buffers| ==> buffers[i].sequenceNumber <= buffers[j].sequenceNumber
  }

  /** The same buffers, by rising sequence number. */
  ghost predicate IsChain(buffers: seq<FileBuffer>, chain: seq<FileBuffer>) {
    multiset(chain) == multiset(buffers) && Ascending(chain)
  }

  lemma {:induction false} ReversedAt(buffers: seq<FileBuffer>, k: nat)
    requires k < |buffers|
    ensures |Reversed(buffers)| == |buffers| && Reversed(buffers)[k] == buffers[|buffers| - 1 - k]
  {
    if k > 0 {
      ReversedAt(buffers[..|buffers| - 1], k - 1);
    } else if |buffers| > 1 {
      ReversedAt(buffers[..|buffers| - 1], 0);
    } else {
      assert buffers[..0] == [];
    }
  }

  lemma {:induction false} ReversedMultiset(buffers: seq<FileBuffer>)
    ensures multiset(Reversed(buffers)) == multiset(buffers)
  {
    if buffers != [] {
      ReversedMultiset(buffers[..|buffers| - 1]);
      assert buffers == buffers[..|buffers| - 1] + [buffers[|buffers| - 1]];
    }
  }

  /** Buffers that are sorted to fall, and are read from the end, are read by rising sequence number. */
  lemma {:induction false} ReversedIsChain(buffers: seq<FileBuffer>, sorted: seq<FileBuffer>)
    requires IsArrangement(buffers, sorted)
    ensures IsChain(buffers, Reversed(sorted))
  {
    ReversedMultiset(sorted);
    var chain := Reversed(sorted);
    assert |multiset(chain)| == |multiset(sorted)|;
    forall i, j | 0 <= i < j < |chain| ensures chain[i].sequenceNumber <= chain[j].sequenceNumber {
      ReversedAt(sorted, i);
      ReversedAt(sorted, j);
    }
  }

  predicate NotLater(b: FileBuffer, c: FileBuffer) {
    forall i, j :: 0 <= i < |b.buffer.traces| && 0 <= j < |c.buffer.traces| ==>
      b.buffer.traces[i].time <= c.buffer.traces[j].time
  }

  /** The traces of every buffer come in the order of time, and of two buffers of one processor no trace of the one
      with the lower sequence number is later than one of the other. */
  ghost predicate ChainsOrdered(file: seq<FileBuffer>) {
    && AllWellLaid(file)
    && (forall i :: 0 <= i < |file| ==> TimeOrdered(file[i].buffer.traces))
    && forall p: nat, b, c :: multiset{b, c} <= multiset(OfProcessor(file, p)) && b.sequenceNumber <= c.sequenceNumber
         ==> NotLater(b, c)
  }

  lemma {:induction false} TracesAreOfBuffers(chain: seq<FileBuffer>, k: nat)
    requires k < |TracesOf(chain)|
    ensures exists i :: 0 <= i < |chain| && TracesOf(chain)[k] in chain[i].buffer.traces
  {
    if k < |chain[0].buffer.traces| {
      assert TracesOf(chain)[k] in chain[0].buffer.traces;
    } else {
      var rest := chain[1..];
      TracesAreOfBuffers(rest, k - |chain[0].buffer.traces|);
      var i :| 0 <= i < |rest| && TracesOf(rest)[k - |chain[0].buffer.traces|] in rest[i].buffer.traces;
      assert chain[i + 1] == rest[i];
    }
  }

  lemma {:induction false} TracesTimeOrdered(chain: seq<FileBuffer>)
    requires forall i :: 0 <= i < |chain| ==> TimeOrdered(chain[i].buffer.traces)
    requires forall i, j :: 0 <= i < j < |chain| ==> NotLater(chain[i], chain[j])
    ensures TimeOrdered(TracesOf(chain))
  {
    if chain != [] {
      var first, rest := chain[0].buffer.traces, TracesOf(chain[1..]);
      TracesTimeOrdered(chain[1..]);
      forall i, j | 0 <= i < |first| && 0 <= j < |rest| ensures first[i].time <= rest[j].time {
        TracesAreOfBuffers(chain[1..], j);
        var k :| 0 <= k < |chain[1..]| && rest[j] in chain[1..][k].buffer.traces;
        assert NotLater(chain[0], chain[k + 1]);
      }
      assert TimeOrdered(first);
    }
  }

  lemma {:induction false} TwoOf(buffers: seq<FileBuffer>, i: nat, j: nat)
    requires i < j < |buffers|
    ensures multiset{buffers[i], buffers[j]} <= multiset(buffers)
  {
    assert buffers == buffers[..i] + [buffers[i]] + buffers[i + 1..j] + [buffers[j]] + buffers[j + 1..];
  }

  lemma {:induction false} ChainIsOrdered(file: seq<FileBuffer>, p: nat, chain: seq<FileBuffer>)
    requires ChainsOrdered(file) && IsChain(OfProcessor(file, p), chain)
    ensures TimeOrdered(TracesOf(chain))
  {
    forall i | 0 <= i < |chain| ensures TimeOrdered(chain[i].buffer.traces) {
      assert chain[i] in multiset(chain);
      OfProcessorCounts(file, p, chain[i]);
    }
    forall i, j | 0 <= i < j < |chain| ensures NotLater(chain[i], chain[j]) {
      TwoOf(chain, i, j);
    }
    TracesTimeOrdered(chain);
  }

  function TracesOfAll(chains: seq<seq<FileBuffer>>): (r: seq<seq<Timed<Trace>>>)
    ensures |r| == |chains| && forall i :: 0 <= i < |chains| ==> r[i] == TracesOf(chains[i])
  {
    seq(|chains|, i requires 0 <= i < |chains| => TracesOf(chains[i]))
  }

  lemma {:induction false} ArrangementWellLaid(file: seq<FileBuffer>, p: nat, sorted: seq<FileBuffer>)
    requires AllWellLaid(file) && IsArrangement(OfProcessor(file, p), sorted)
    ensures AllWellLaid(sorted)
  {
    forall i | 0 <= i < |sorted| ensures WellLaid(sorted[i].buffer) {
      assert sorted[i] in multiset(sorted);
      OfProcessorCounts(file, p, sorted[i]);
    }
  }

  /** Sorts the buffers of a processor and reads the first. */
  method OpenChain(buffers: seq<FileBuffer>, ghost file: seq<FileBuffer>, ghost i: nat)
    returns (isEmpty: bool, p: Processor, first: nat, ghost chain: seq<FileBuffer>)
    requires ChainsOrdered(file) && buffers == OfProcessor(file, i)
    ensures IsChain(buffers, chain) && TimeOrdered(TracesOf(chain))
    ensures isEmpty ==> TracesOf(chain) == []
    ensures !isEmpty ==>
              StandsAt(p, 0, TracesOf(chain)) && TracesOf(chain) != [] && first == TracesOf(chain)[0].time
  {
    var sorted := SortBySequenceNumber(buffers);
    ArrangementWellLaid(file, i, sorted);
    chain := Reversed(sorted);
    ReversedIsChain(buffers, sorted);
    ChainIsOrdered(file, i, chain);
    isEmpty, p, first := sorted == [], Processor(Buffer(0, []), 0, []), 0;
    if !isEmpty {
      p := ReadBuffer(sorted);
      first := PeekTime(p, 0, TracesOf(chain));
    }
  }

  lemma {:induction false} NothingOpened()
    ensures Queued<Trace>([], [], [], -1) && Standing([], [], [], []) && TracesOfAll([]) == []
  {
  }

  lemma {:induction false} OneMoreChain(queue: seq<Entry>, sources: seq<seq<Timed<Trace>>>, next: seq<nat>,
                                        processors: seq<Processor>, ks: seq<nat>, isEmpty: bool,
                                        traces: seq<Timed<Trace>>, p: Processor, first: nat)
    requires |next| == |sources| && Queued(queue, sources, next, -1) && Standing(processors, ks, sources, next)
    requires isEmpty ==> traces == []
    requires !isEmpty ==> StandsAt(p, 0, traces) && traces != [] && first == traces[0].time
    ensures Queued(if isEmpty then queue else queue + [Entry(first, |sources|)], sources + [traces], next + [0], -1)
    ensures Standing(processors + [p], ks + [0], sources + [traces], next + [0])
  {
    hide StandsAt;
    OneMoreStanding(processors, ks, sources, next, traces, p);
    hide Queued, Standing;
    if isEmpty {
      EmptySourceQueued(queue, sources, next);
    } else {
      SourceQueued(queue, sources, next, traces);
    }
  }

  /** Opens all chains and queues the times of their first events. */
  method OpenChains(perProcessor: seq<seq<FileBuffer>>, ghost file: seq<FileBuffer>)
    returns (queue: seq<Entry>, processors: seq<Processor>, ghost ks: seq<nat>, ghost next: seq<nat>,
             ghost chains: seq<seq<FileBuffer>>)
    requires ChainsOrdered(file) && forall p :: 0 <= p < |perProcessor| ==> perProcessor[p] == OfProcessor(file, p)
    ensures |chains| == |perProcessor| && forall p :: 0 <= p < |chains| ==> IsChain(perProcessor[p], chains[p])
    ensures |next| == |chains| && forall i :: 0 <= i < |next| ==> next[i] == 0
    ensures AllOrdered(TracesOfAll(chains)) && Queued(queue, TracesOfAll(chains), next, -1)
    ensures Standing(processors, ks, TracesOfAll(chains), next)
  {
    hide TracesOf, OfProcessor, Queued, Standing, IsChain, ChainsOrdered, StandsAt, TimeOrdered;
    queue, processors, ks, next, chains := [], [], [], [], [];
    ghost var sources: seq<seq<Timed<Trace>>> := [];
    NothingOpened();
    for i := 0 to |perProcessor|
      invariant |chains| == i && forall p :: 0 <= p < |chains| ==> IsChain(perProcessor[p], chains[p])
      invariant |next| == i && forall j :: 0 <= j < |next| ==> next[j] == 0
      invariant sources == TracesOfAll(chains) && AllOrdered(sources)
      invariant Queued(queue, sources, next, -1) && Standing(processors, ks, sources, next)
    {
      var isEmpty, p, first;
      ghost var chain;
      isEmpty, p, first, chain := OpenChain(perProcessor[i], file, i);
      OneMoreChain(queue, sources, next, processors, ks, isEmpty, TracesOf(chain), p, first);
      if !isEmpty { queue := queue + [Entry(first, i)]; }
      sources := sources + [TracesOf(chain)];
      processors, ks, next, chains := processors + [p], ks + [0], next + [0], chains + [chain];
    }
  }

  lemma {:induction false} OneMoreStanding(processors: seq<Processor>, ks: seq<nat>, sources: seq<seq<Timed<Trace>>>,
                                           next: seq<nat>, events: seq<Timed<Trace>>, p: Processor)
    requires Standing(processors, ks, sources, next) && (events != [] ==> StandsAt(p, 0, events))
    ensures Standing(processors + [p], ks + [0], sources + [events], next + [0])
  {
    forall i: nat | IsOpen(sources + [events], next + [0], i)
      ensures StandsAt((processors + [p])[i], (ks + [0])[i], (sources + [events])[i][(next + [0])[i]..])
    {
      if i < |sources| {
        assert IsOpen(sources, next, i);
      } else {
        assert events[0..] == events;
      }
    }
  }

  /** Processes all events of the file: or reports the first thing wrong with its buffer headers. */
  method Process(file: seq<FileBuffer>, header: FileHeader)
    returns (r: Result<seq<Timed<Trace>>>, ghost from: seq<nat>, ghost chains: seq<seq<FileBuffer>>)
    requires FirstError(file, header, 0) == None ==>
               header.numberOfBuffers <= |file| && ChainsOrdered(file[..header.numberOfBuffers])
    ensures r.Failure? ==> FirstError(file, header, 0) == Some(r.error)
    ensures r.Success? ==> FirstError(file, header, 0) == None && |chains| == header.numberOfProcessors
    ensures r.Success? ==> forall p :: 0 <= p < |chains| ==>
            IsChain(OfProcessor(file[..header.numberOfBuffers], p), chains[p])
    ensures r.Success? ==> IsMerge(TracesOfAll(chains), r.value, from)
  {
    hide TracesOf, OfProcessor, Queued, Standing, FirstError, IsMerge, ChainsOrdered, IsChain;
    var headers := ReadHeaders(file, header);
    from, chains := [], [];
    if headers.Failure? { return Failure(headers.error), from, chains; }
    var queue, processors;
    ghost var ks, next;
    queue, processors, ks, next, chains := OpenChains(headers.value, file[..header.numberOfBuffers]);
    var out;
    out, from := DrainChains(TracesOfAll(chains), next, queue, processors, ks);
    r := Success(out);
  }

  method DrainChains(ghost sources: seq<seq<Timed<Trace>>>, ghost next0: seq<nat>, queue0: seq<Entry>,
                     processors0: seq<Processor>, ghost ks0: seq<nat>)
    returns (out: seq<Timed<Trace>>, ghost from: seq<nat>)
    requires |next0| == |sources| && forall i :: 0 <= i < |next0| ==> next0[i] == 0
    requires AllOrdered(sources) && Queued(queue0, sources, next0, -1) && Standing(processors0, ks0, sources, next0)
    ensures IsMerge(sources, out, from)
  {
    var queue, processors := queue0, processors0;
    ghost var next, ks := next0, ks0;
    out, from := [], [];
    NothingMerged(sources, next);
    while queue != []
      invariant PartlyMerged(sources, next, out, from) && Queued(queue, sources, next, -1)
      invariant Standing(processors, ks, sources, next)
      decreases Left(sources, next)
    {
      var e, rest := PopFirst(queue);
      ghost var k: nat :| k < |queue| && e == queue[k] && rest == Without(queue, k);
      PoppedIsEarliest(queue, sources, next, k);
      next, queue, processors, ks, out, from := TakeFrom(sources, next, e.source, rest, processors, ks, out, from);
    }
    AllMerged(sources, next, out, from);
  }

  // ----- What a processor's part of the output is --------------------------------------

  /** `part` has the traces of the buffer, in their order, from position `u` on. */
  predicate StandAt(part: seq<Timed<Trace>>, b: FileBuffer, u: nat) {
    u + |b.buffer.traces| <= |part| && part[u..u + |b.buffer.traces|] == b.buffer.traces
  }

  lemma {:induction false} BufferStandsIn(chain: seq<FileBuffer>, i: nat)
    requires i < |chain|
    ensures var u := |TracesOf(chain[..i])|;
            StandAt(TracesOf(chain), chain[i], u) && u + |chain[i].buffer.traces| == |TracesOf(chain[..i + 1])|
  {
    if i == 0 {
      assert chain[..0] == [] && chain[..1][1..] == [];
    } else {
      BufferStandsIn(chain[1..], i - 1);
      assert chain[..i][1..] == chain[1..][..i - 1] && chain[..i + 1][1..] == chain[1..][..i];
      var n, u := |chain[0].buffer.traces|, |TracesOf(chain[1..][..i - 1])|;
      var m := |chain[i].buffer.traces|;
      assert TracesOf(chain)[n + u..n + u + m] == TracesOf(chain[1..])[u..u + m];
    }
  }

  lemma {:induction false} MoreTraces(chain: seq<FileBuffer>, i: nat, j: nat)
    requires i <= j <= |chain|
    ensures |TracesOf(chain[..i])| <= |TracesOf(chain[..j])|
  {
    if i < j {
      MoreTraces(chain, i, j - 1);
      BufferStandsIn(chain, j - 1);
    }
  }

  lemma {:induction false} ChainInSequence(chain: seq<FileBuffer>, b: FileBuffer, c: FileBuffer)
    returns (u: nat, v: nat)
    requires Ascending(chain) && b in chain && c in chain && b.sequenceNumber < c.sequenceNumber
    ensures StandAt(TracesOf(chain), b, u) && StandAt(TracesOf(chain), c, v) && u + |b.buffer.traces| <= v
  {
    hide TracesOf, StandAt;
    var i :| 0 <= i < |chain| && chain[i] == b;
    var j :| 0 <= j < |chain| && chain[j] == c;
    u, v := |TracesOf(chain[..i])|, |TracesOf(chain[..j])|;
    BufferStandsIn(chain, i);
    BufferStandsIn(chain, j);
    MoreTraces(chain, i + 1, j);
  }

  /** Of two buffers of one processor, all traces of the one with the lower sequence number stand before all traces of
      the other in the processor's part of the output, and the traces of one buffer keep their order. */
  lemma {:induction false} BuffersComeInSequence(file: seq<FileBuffer>, chains: seq<seq<FileBuffer>>,
                                                 out: seq<Timed<Trace>>, from: seq<nat>, p: nat, b: FileBuffer,
                                                 c: FileBuffer)
    returns (u: nat, v: nat)
    requires p < |chains| && IsChain(OfProcessor(file, p), chains[p]) && IsMerge(TracesOfAll(chains), out, from)
    requires b in file && c in file && b.processor == c.processor == p && b.sequenceNumber < c.sequenceNumber
    ensures var part := Project(out, from, p);
            StandAt(part, b, u) && StandAt(part, c, v) && u + |b.buffer.traces| <= v
  {
    hide TracesOf, OfProcessor, StandAt, TimeOrdered, Project;
    OfProcessorCounts(file, p, b);
    OfProcessorCounts(file, p, c);
    assert b in multiset(file) && c in multiset(file);
    assert b in multiset(chains[p]) && c in multiset(chains[p]);
    u, v := ChainInSequence(chains[p], b, c);
    assert Project(out, from, p) == TracesOfAll(chains)[p];
  }
}
