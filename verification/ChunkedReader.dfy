/** Reading records through a window of fixed size that slides over a byte stream. */
module ChunkedReading {

  import opened Wrappers

  const HEADER_SIZE := 8

  datatype ByteOrder = LittleEndian | BigEndian

  /** The size field of a record header: 16 bits at offset 6. */
  function RecordSize(header: seq<byte>, order: ByteOrder): (n: nat)
    requires |header| >= HEADER_SIZE
    ensures n < 0x1_0000
  {
    if order.LittleEndian? then (header[6] as nat) + 256 * (header[7] as nat)
    else 256 * (header[6] as nat) + (header[7] as nat)
  }

  /** The header says the size: its low byte comes first in little-endian data, its high byte in big-endian data. */
  predicate SaysSize(header: seq<byte>, order: ByteOrder, n: nat) {
    && |header| >= HEADER_SIZE
    && match order
       case LittleEndian => header[6] as nat == n % 256 && header[7] as nat == n / 256
       case BigEndian => header[6] as nat == n / 256 && header[7] as nat == n % 256
  }

  /** A written size is read back, and no other one is. */
  lemma {:induction false} SizeReadsBack(header: seq<byte>, order: ByteOrder, n: nat)
    requires |header| >= HEADER_SIZE && n < 0x1_0000
    ensures RecordSize(header, order) == n <==> SaysSize(header, order, n)
  {
    var low, high := n % 256, n / 256;
    assert n == low + 256 * high;
    if order.LittleEndian? {
      SameDigits(header[6] as nat, header[7] as nat, low, high);
    } else {
      SameDigits(header[7] as nat, header[6] as nat, low, high);
    }
  }

  lemma {:induction false} SameDigits(low: nat, high: nat, low': nat, high': nat)
    requires low < 256 && low' < 256
    ensures low + 256 * high == low' + 256 * high' <==> low == low' && high == high'
  {
  }

  // ----- Reference: the records of a flat byte string ----------------------------------

  datatype End = Complete | BadHeader | Truncated

  datatype Parse = Parse(records: seq<seq<byte>>, end: End)

  function FlatParse(data: seq<byte>, order: ByteOrder): Parse {
    if data == [] then Parse([], Complete)
    else if |data| < HEADER_SIZE then Parse([], Truncated)
    else if RecordSize(data, order) < HEADER_SIZE then Parse([], BadHeader)
    else if |data| < RecordSize(data, order) then Parse([], Truncated)
    else
      var n := RecordSize(data, order);
      var rest := FlatParse(data[n..], order);
      Parse([data[..n]] + rest.records, rest.end)
  }

  /** The section is cut into whole records up to its end, or up to a header with an impossible size,
      and the window holds every record. */
  predicate Readable(data: seq<byte>, order: ByteOrder, window: nat) {
    && window >= HEADER_SIZE
    && !FlatParse(data, order).end.Truncated?
    && forall i :: 0 <= i < |FlatParse(data, order).records| ==> |FlatParse(data, order).records[i]| <= window
  }

  function Concat(records: seq<seq<byte>>): seq<byte> {
    if records == [] then [] else records[0] + Concat(records[1..])
  }

  /** The reference only cuts: its records, put together again, are the section, and each says its own size. */
  lemma {:induction false} FlatParseOnlyCuts(data: seq<byte>, order: ByteOrder)
    ensures var p := FlatParse(data, order);
            && Concat(p.records) <= data && (p.end.Complete? <==> Concat(p.records) == data)
            && (p.end.BadHeader? <==>
                  var rest := data[|Concat(p.records)|..];
                  |rest| >= HEADER_SIZE && RecordSize(rest, order) < HEADER_SIZE)
            && forall i :: 0 <= i < |p.records| ==>
                 |p.records[i]| >= HEADER_SIZE && |p.records[i]| == RecordSize(p.records[i], order)
  {
    var p := FlatParse(data, order);
    if p.records != [] {
      var n := RecordSize(data, order);
      FlatParseOnlyCuts(data[n..], order);
      var rest := FlatParse(data[n..], order);
      assert p.records[1..] == rest.records;
      assert data == data[..n] + data[n..];
      assert Concat(p.records) == data[..n] + Concat(rest.records);
      assert Concat(p.records)[n..] == Concat(rest.records);
    }
  }

  /** And it is the only way to cut: a concatenation of records that say their own size parses into these records. */
  lemma {:induction false} FlatParseOfRecords(records: seq<seq<byte>>, order: ByteOrder)
    requires forall i :: 0 <= i < |records| ==>
             |records[i]| >= HEADER_SIZE && |records[i]| == RecordSize(records[i], order)
    ensures FlatParse(Concat(records), order) == Parse(records, Complete)
  {
    if records != [] {
      var data := Concat(records);
      var n := |records[0]|;
      assert data[..n] == records[0] && data[n..] == Concat(records[1..]);
      FlatParseOfRecords(records[1..], order);
      assert records == [records[0]] + records[1..];
    }
  }

  /** A record that was written with its size. */
  predicate IsWritten(record: seq<byte>, order: ByteOrder) {
    |record| < 0x1_0000 && SaysSize(record, order, |record|)
  }

  /** Written records, put together, can be read, and are what the section is cut into. */
  lemma {:induction false} WrittenRecordsParse(records: seq<seq<byte>>, order: ByteOrder, window: nat)
    requires window >= HEADER_SIZE
    requires forall i :: 0 <= i < |records| ==> IsWritten(records[i], order) && |records[i]| <= window
    ensures FlatParse(Concat(records), order) == Parse(records, Complete) && Readable(Concat(records), order, window)
  {
    forall i | 0 <= i < |records| ensures |records[i]| == RecordSize(records[i], order) {
      SizeReadsBack(records[i], order, |records[i]|);
    }
    FlatParseOfRecords(records, order);
  }

  // ----- The reader --------------------------------------------------------------------

  datatype ReadStatus = More | NoMore | Failed

  class ChunkedReader {
    const file: seq<byte>
    const totalSize: nat
    const chunkBuffer: array<byte>
    /** How many bytes of the section the file does not have. */
    ghost const missing: nat
    /** The bytes of the section that were not handed out yet, as far as the file has them. */
    ghost var rest: seq<byte>

    var position: nat
    var totalProcessed: nat
    /** How many bytes at the front of the buffer are the current chunk. */
    var chunkDataSize: nat
    var chunkProcessed: nat
    var isChunkExhausted: bool

    /** The unprocessed part of the chunk is the front of `rest`, and the stream continues with what follows. */
    ghost predicate Valid()
      reads this, chunkBuffer
    {
      && chunkProcessed <= chunkDataSize <= chunkBuffer.Length
      && totalProcessed + chunkProcessed + |rest| + missing == totalSize
      && Visible() <= |rest| && position + |rest| - Visible() <= |file|
      && (forall k :: 0 <= k < Visible() ==> rest[k] == chunkBuffer[chunkProcessed + k])
      && (forall k :: Visible() <= k < |rest| ==> rest[k] == file[position + k - Visible()])
      && (missing > 0 ==> position + |rest| - Visible() == |file|)
      && (0 < chunkDataSize < chunkBuffer.Length ==> Visible() == |rest| && missing == 0)
    }

    function Visible(): int
      reads this
    {
      chunkDataSize - chunkProcessed
    }

    /** Left-over bytes are taken from the end of the buffer, so they must reach up to it. */
    predicate CanSlide()
      reads this
    {
      chunkProcessed == chunkDataSize || chunkDataSize == chunkBuffer.Length
    }

    /** The window shows all that it has room for. */
    ghost predicate ShowsAll()
      reads this
    {
      Visible() == if |rest| < chunkBuffer.Length then |rest| else chunkBuffer.Length
    }

    constructor (file: seq<byte>, offset: nat, desiredSize: nat, chunkSize: nat)
      requires offset <= |file|
      ensures Valid() && fresh(chunkBuffer) && chunkBuffer.Length == chunkSize
      ensures offset + desiredSize <= |file| ==> rest == file[offset..offset + desiredSize] && missing == 0
      ensures offset + desiredSize > |file| ==> rest == file[offset..] && missing > 0
      ensures isChunkExhausted && CanSlide()
    {
      this.file, totalSize := file, desiredSize;
      missing := if offset + desiredSize <= |file| then 0 else offset + desiredSize - |file|;
      rest := if offset + desiredSize <= |file| then file[offset..offset + desiredSize] else file[offset..];
      chunkBuffer := new byte[chunkSize];
      position, totalProcessed, chunkDataSize, chunkProcessed := offset, 0, 0, 0;
      isChunkExhausted := true;
    }

    /** Moves the left-over bytes, which end the buffer, to its front. */
    method MoveLeftOver(count: nat)
      requires count <= chunkBuffer.Length
      modifies chunkBuffer
      ensures forall k :: 0 <= k < count ==> chunkBuffer[k] == old(chunkBuffer[chunkBuffer.Length - count + k])
    {
      for i := 0 to count
        invariant forall k :: 0 <= k < i ==> chunkBuffer[k] == old(chunkBuffer[chunkBuffer.Length - count + k])
        invariant forall k :: i <= k < chunkBuffer.Length ==> chunkBuffer[k] == old(chunkBuffer[k])
      {
        chunkBuffer[i] := chunkBuffer[chunkBuffer.Length - count + i];
      }
    }

    /** Reads `count` bytes from the stream into the buffer at `at`. */
    method ReadInto(at: nat, count: nat)
      requires at + count <= chunkBuffer.Length && position + count <= |file|
      modifies chunkBuffer, this`position
      ensures position == old(position) + count
      ensures forall k :: 0 <= k < at ==> chunkBuffer[k] == old(chunkBuffer[k])
      ensures forall k :: at <= k < at + count ==> chunkBuffer[k] == file[old(position) + k - at]
    {
      for i := 0 to count
        invariant forall k :: 0 <= k < at ==> chunkBuffer[k] == old(chunkBuffer[k])
        invariant position == old(position)
        invariant forall k :: at <= k < at + i ==> chunkBuffer[k] == file[position + k - at]
      {
        chunkBuffer[at + i] := file[position + i];
      }
      position := position + count;
    }

    /** The bytes left over end the buffer, and the stream continues behind them. */
    ghost predicate LeftOverFits(leftOver: nat)
      reads this, chunkBuffer
    {
      && leftOver <= chunkBuffer.Length && leftOver <= |rest| && position + |rest| - leftOver <= |file|
      && (forall k :: 0 <= k < leftOver ==> rest[k] == chunkBuffer[chunkBuffer.Length - leftOver + k])
      && (forall k :: leftOver <= k < |rest| ==> rest[k] == file[position + k - leftOver])
    }

    /** The first `n` bytes of the buffer are what comes next, and the stream continues behind them. */
    ghost predicate Shown(n: nat)
      reads this, chunkBuffer
    {
      && n <= chunkBuffer.Length && n <= |rest| && position + |rest| - n <= |file|
      && (forall k :: 0 <= k < n ==> rest[k] == chunkBuffer[k])
      && (forall k :: n <= k < |rest| ==> rest[k] == file[position + k - n])
    }

    lemma {:induction false} LeftOverEndsBuffer()
      requires Valid() && CanSlide()
      ensures 0 <= Visible() && LeftOverFits(Visible())
      ensures Visible() <= chunkBuffer.Length && Visible() <= |rest| && position + |rest| - Visible() <= |file|
      ensures totalProcessed + chunkProcessed + |rest| + missing == totalSize
      ensures missing > 0 ==> position + |rest| - Visible() == |file|
    {
    }

    lemma {:induction false} ShownIsValid()
      requires chunkProcessed == 0 && Shown(chunkDataSize) && totalProcessed + |rest| + missing == totalSize
      requires missing > 0 ==> position + |rest| - chunkDataSize == |file|
      requires 0 < chunkDataSize < chunkBuffer.Length ==> chunkDataSize == |rest| && missing == 0
      ensures Valid()
    {
    }

    method ReadNextChunk() returns (status: ReadStatus)
      requires Valid() && CanSlide()
      modifies this, chunkBuffer
      ensures rest == old(rest)
      ensures status.NoMore? <==> rest == [] && missing == 0
      ensures status.Failed? ==> missing > 0
      ensures status.More? ==> Valid() && !isChunkExhausted
      ensures status.More? && missing == 0 ==> ShowsAll()
    {
      LeftOverEndsBuffer();
      hide LeftOverFits, Shown, Valid, CanSlide;
      var leftOver := chunkDataSize - chunkProcessed;
      totalProcessed := totalProcessed + chunkProcessed;
      var remaining := totalSize - totalProcessed;
      if remaining == 0 { return NoMore; }
      var toRead := remaining - leftOver;
      var room := chunkBuffer.Length - leftOver;
      var count := if toRead > room then room else toRead;
      if position + count > |file| { return Failed; }
      SlideAndRead(leftOver, count);
      status := More;
    }

    method SlideAndRead(leftOver: nat, count: nat)
      requires LeftOverFits(leftOver) && leftOver + count <= chunkBuffer.Length && leftOver + count <= |rest|
      requires totalProcessed + |rest| + missing == totalSize
      requires missing > 0 ==> position + |rest| - leftOver == |file|
      requires 0 < leftOver + count < chunkBuffer.Length ==> leftOver + count == |rest| && missing == 0
      modifies chunkBuffer, this`position, this`chunkDataSize, this`chunkProcessed, this`isChunkExhausted
      ensures Valid() && !isChunkExhausted && chunkProcessed == 0 && chunkDataSize == leftOver + count
    {
      hide Valid;
      MoveLeftOver(leftOver);
      ReadInto(leftOver, count);
      chunkDataSize, chunkProcessed, isChunkExhausted := leftOver + count, 0, false;
      ShownIsValid();
    }

    method Consume(size: nat)
      requires Valid() && size <= Visible()
      modifies this`chunkProcessed, this`rest
      ensures Valid() && chunkProcessed == old(chunkProcessed) + size
      ensures size <= |old(rest)| && rest == old(rest)[size..]
    {
      chunkProcessed := chunkProcessed + size;
      rest := rest[size..];
    }

    lemma {:induction false} WindowShowsRest(size: nat)
      requires Valid() && size <= Visible()
      ensures chunkProcessed + size <= chunkBuffer.Length && size <= |rest|
      ensures chunkBuffer[chunkProcessed..chunkProcessed + size] == rest[..size]
    {
    }

    method RetrieveData(size: nat, peek: bool := false) returns (data: seq<byte>)
      requires Valid()
      modifies this`chunkProcessed, this`isChunkExhausted, this`rest
      ensures Valid()
      ensures old(Visible()) < size ==>
              data == [] && isChunkExhausted && chunkProcessed == old(chunkProcessed) && rest == old(rest)
      ensures old(Visible()) >= size ==>
                && data == old(rest)[..size] && isChunkExhausted == old(isChunkExhausted)
                && chunkProcessed == old(chunkProcessed) + (if peek then 0 else size)
                && rest == old(rest)[if peek then 0 else size..]
    {
      if chunkDataSize - chunkProcessed < size {
        isChunkExhausted := true;
        return [];
      }
      WindowShowsRest(size);
      data := chunkBuffer[chunkProcessed..chunkProcessed + size];
      if !peek { Consume(size); }
    }

    predicate Done()
      reads this
    {
      totalProcessed == totalSize
    }

    predicate ChunkHasMoreData()
      reads this
    {
      chunkProcessed < chunkDataSize
    }

    method KeepGoing() returns (status: ReadStatus)
      requires Valid() && (isChunkExhausted ==> CanSlide())
      modifies this, chunkBuffer
      ensures rest == old(rest)
      ensures status.NoMore? <==> rest == [] && missing == 0
      ensures status.Failed? ==> missing > 0
      ensures status.More? ==> Valid() && !isChunkExhausted
      ensures status.More? && missing == 0 && old(isChunkExhausted || !ChunkHasMoreData()) ==> ShowsAll()
      ensures old(!isChunkExhausted && ChunkHasMoreData()) ==> Visible() == old(Visible())
    {
      if Done() { return NoMore; }
      if isChunkExhausted || !ChunkHasMoreData() {
        status := ReadNextChunk();
        return;
      }
      status := More;
    }
  }

  // ----- Reading all events ------------------------------------------------------------

  datatype EventsStatus = Finished | Invalid

  datatype Fetched = Event(data: seq<byte>) | BadSize | NotVisible

  /** Peeks at the next header and takes the record it announces, as far as the window shows them. */
  method FetchEvent(reader: ChunkedReader, order: ByteOrder) returns (r: Fetched)
    requires reader.Valid() && !reader.isChunkExhausted && reader.missing == 0
    requires Readable(reader.rest, order, reader.chunkBuffer.Length) && reader.rest != []
    modifies reader
    ensures reader.Valid() && (reader.isChunkExhausted ==> reader.CanSlide())
    ensures var data := old(reader.rest);
            var n := RecordSize(data, order);
            match r
            case BadSize => FlatParse(data, order) == Parse([], BadHeader)
            case Event(event) =>
              && n <= |data| && event == data[..n]
              && reader.rest == data[n..] && n > 0 && !reader.isChunkExhausted && FlatParse(data, order).records != []
            case NotVisible =>
              && reader.rest == data && reader.isChunkExhausted && !old(reader.ShowsAll())
  {
    ghost var data := reader.rest;
    assert |data| >= HEADER_SIZE;
    var header := reader.RetrieveData(HEADER_SIZE, true);
    if |header| != HEADER_SIZE { return NotVisible; }
    assert header == data[..HEADER_SIZE];
    var n := RecordSize(header, order);
    assert n == RecordSize(data, order);
    if n < HEADER_SIZE { return BadSize; }
    assert FlatParse(data, order).records[0] == data[..n];
    var event := reader.RetrieveData(n);
    if |event| != n { return NotVisible; }
    assert event == data[..n];
    r := Event(event);
  }

  /** What was delivered, followed by the records of what is left, makes up the whole. */
  ghost predicate Delivered(whole: Parse, events: seq<seq<byte>>, rest: seq<byte>, order: ByteOrder) {
    whole == Parse(events + FlatParse(rest, order).records, FlatParse(rest, order).end)
  }

  lemma {:induction false} DeliverOne(whole: Parse, events: seq<seq<byte>>, rest: seq<byte>, order: ByteOrder,
                                      window: nat)
    requires Delivered(whole, events, rest, order) && Readable(rest, order, window)
    requires FlatParse(rest, order).records != []
    ensures var n := RecordSize(rest, order);
            n <= |rest| && Delivered(whole, events + [rest[..n]], rest[n..], order)
  {
    ReadableRest(rest, order, window);
    var n := RecordSize(rest, order);
    var more := FlatParse(rest[n..], order).records;
    assert events + ([rest[..n]] + more) == events + [rest[..n]] + more;
  }

  /** The records handed to the callback, in order. */
  method ReadEvents(file: seq<byte>, offset: nat, size: nat, order: ByteOrder, chunkSize: nat)
    returns (events: seq<seq<byte>>, status: EventsStatus)
    requires offset + size <= |file|
    requires Readable(file[offset..offset + size], order, chunkSize)
    ensures events == FlatParse(file[offset..offset + size], order).records
    ensures status == if FlatParse(file[offset..offset + size], order).end.BadHeader? then Invalid else Finished
  {
    events := [];
    ghost var whole := FlatParse(file[offset..offset + size], order);
    ghost var rest := file[offset..offset + size];
    var reader := new ChunkedReader(file, offset, size, chunkSize);
    var going := reader.KeepGoing();
    while going.More?
      invariant fresh(reader) && fresh(reader.chunkBuffer) && reader.chunkBuffer.Length == chunkSize
      invariant reader.missing == 0 && rest == reader.rest
      invariant !going.Failed?
      invariant going.NoMore? ==> rest == []
      invariant going.More? ==> reader.Valid() && !reader.isChunkExhausted && rest != []
      invariant Readable(rest, order, chunkSize)
      invariant Delivered(whole, events, rest, order)
      decreases |rest|, if reader.ShowsAll() then 0 else 1
    {
      var fetched := FetchEvent(reader, order);
      match fetched {
        case BadSize =>
          return events, Invalid;
        case Event(event) =>
          ReadableRest(rest, order, chunkSize);
          DeliverOne(whole, events, rest, order, chunkSize);
          events := events + [event];
          rest := rest[RecordSize(rest, order)..];
        case NotVisible =>
      }
      going := reader.KeepGoing();
    }
    status := Finished;
  }

  lemma {:induction false} ReadableRest(data: seq<byte>, order: ByteOrder, window: nat)
    requires Readable(data, order, window) && FlatParse(data, order).records != []
    ensures var n := RecordSize(data, order);
            && 0 < n <= |data| && Readable(data[n..], order, window)
            && FlatParse(data, order)
                 == Parse([data[..n]] + FlatParse(data[n..], order).records, FlatParse(data[n..], order).end)
  {
    var n := RecordSize(data, order);
    var rest := FlatParse(data[n..], order).records;
    var records := FlatParse(data, order).records;
    forall i | 0 <= i < |rest| ensures |rest[i]| <= window {
      assert rest[i] == records[i + 1];
    }
  }

  /** Records that were written into a file in its byte order are handed out as they were written, in order. */
  method ReadWrittenEvents(before: seq<byte>, records: seq<seq<byte>>, after: seq<byte>, order: ByteOrder,
                           chunkSize: nat)
    returns (events: seq<seq<byte>>, status: EventsStatus)
    requires chunkSize >= HEADER_SIZE
    requires forall i :: 0 <= i < |records| ==> IsWritten(records[i], order) && |records[i]| <= chunkSize
    ensures events == records && status == Finished
  {
    var section := Concat(records);
    var file := before + section + after;
    assert file[|before|..|before| + |section|] == section;
    WrittenRecordsParse(records, order, chunkSize);
    events, status := ReadEvents(file, |before|, |section|, order, chunkSize);
  }
}
