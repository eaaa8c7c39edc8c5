/** The in-memory stream and the stream pump of the device agent's stream
    layer.

    A `MemoryStream` completes its reads and writes through callbacks posted
    on the task runner with zero delay; a `StreamCopier` runs its final
    success callback directly. Here every completion is the return value of
    the method: `Succeeded(v)` stands for the success callback run with `v`,
    `Failed(message)` for the error callback. */
module Streams {
  import opened CopySpec

  datatype Completion<T> = Succeeded(value: T) | Failed(message: string)

  /** Size of the copier's scratch buffer, and so the largest read it asks for. */
  const CopierBufferSize: nat := 4096

  /** A byte buffer with a read cursor: reads consume from the cursor,
      writes append at the end. */
  class MemoryStream {
    var data: seq<bv8>
    var readPosition: nat

    /** The cursor never passes the end of the data. */
    ghost predicate Valid()
      reads this
    {
      readPosition <= |data|
    }

    /** The bytes a reader has not consumed yet. */
    function Unread(): seq<bv8>
      reads this
      requires Valid()
    {
      data[readPosition..]
    }

    constructor (data: seq<bv8>)
      ensures Valid()
      ensures this.data == data && readPosition == 0
    {
      this.data := data;
      readPosition := 0;
    }

    /** Copies up to `sizeToRead` bytes from the cursor into the front of
        `buffer` and advances the cursor past them. A read at the end of the
        data delivers 0 bytes. */
    method Read(buffer: array<bv8>, sizeToRead: nat) returns (r: Completion<nat>)
      requires Valid()
      requires sizeToRead <= buffer.Length
      modifies this`readPosition, buffer
      ensures Valid()
      ensures r.Succeeded?
      ensures r.value == ReadSize(sizeToRead, |old(Unread())|)
      ensures data == old(data)
      ensures readPosition == old(readPosition) + r.value
      ensures buffer[..r.value] == old(Unread())[..r.value]
      ensures buffer[r.value..] == old(buffer[r.value..])
    {
      var sizeRead := ReadSize(sizeToRead, |data| - readPosition);
      if sizeRead > 0 {
        forall i | 0 <= i < sizeRead {
          buffer[i] := data[readPosition + i];
        }
      }
      readPosition := readPosition + sizeRead;
      r := Succeeded(sizeRead);
    }

    /** Appends the first `sizeToWrite` bytes of `buffer` to the data; the
        cursor stays where it is. */
    method Write(buffer: array<bv8>, sizeToWrite: nat) returns (r: Completion<()>)
      requires sizeToWrite <= buffer.Length
      modifies this`data
      ensures r.Succeeded?
      ensures data == old(data) + buffer[..sizeToWrite]
      ensures old(Valid()) ==> Valid() && Unread() == old(Unread()) + buffer[..sizeToWrite]
    {
      data := data + buffer[..sizeToWrite];
      r := Succeeded(());
    }
  }

  /** Pumps everything a source stream yields into a destination stream
      through a fixed scratch buffer, keeping a running total. */
  class StreamCopier {
    const source: MemoryStream
    const destination: MemoryStream
    const buffer: array<bv8>
    var sizeDone: nat

    /** The scratch buffer keeps its fixed size. */
    ghost predicate Valid()
      reads this
    {
      buffer.Length == CopierBufferSize
    }

    /** What a copy needs to finish: the source's cursor is in range, and the
        two streams are distinct objects. A stream with unread bytes copied
        onto itself would get every byte it yields appended back, and the copy
        would never end. */
    ghost predicate ReadyToCopy()
      reads this, source
    {
      Valid() && source != destination && source.Valid()
    }

    constructor (source: MemoryStream, destination: MemoryStream)
      ensures Valid() && fresh(buffer)
      ensures this.source == source && this.destination == destination
      ensures sizeDone == 0
    {
      this.source := source;
      this.destination := destination;
      buffer := new bv8[CopierBufferSize];
      sizeDone := 0;
    }

    /** The completion of one read: adds its size to the running total; a
        non-empty read is written to the destination in full, and a read of 0
        bytes ends the job. */
    method OnSuccessRead(size: nat) returns (finished: bool)
      requires size <= buffer.Length
      modifies this`sizeDone, destination`data
      ensures sizeDone == old(sizeDone) + size
      ensures finished == (size == 0)
      ensures destination.data == old(destination.data) + buffer[..size]
    {
      sizeDone := sizeDone + size;
      if size != 0 {
        var written := destination.Write(buffer, size);
      }
      finished := size == 0;
    }

    /** One turn of the pump: reads a buffer's worth from the source and
        hands the completion to `OnSuccessRead`. `events` are the read
        completion and, for a non-empty read, the write that follows it. */
    method CopyStep() returns (finished: bool, ghost events: seq<Event>)
      requires ReadyToCopy()
      modifies this`sizeDone, buffer, source`readPosition, destination`data
      ensures ReadyToCopy() && source.data == old(source.data)
      ensures var size := ReadSize(CopierBufferSize, |old(source.Unread())|);
        var requested := CopierBufferSize;
        var chunk := old(source.Unread())[..size];
        && source.readPosition == old(source.readPosition) + size
        && sizeDone == old(sizeDone) + size
        && destination.data == old(destination.data) + chunk
        && finished == (size == 0)
        && events == if size == 0 then [ReadDone(requested, 0)] else [ReadDone(requested, size), Wrote(chunk)]
    {
      var read := source.Read(buffer, buffer.Length);
      var size := read.value;
      events := if size == 0 then [ReadDone(buffer.Length, 0)]
                else [ReadDone(buffer.Length, size), Wrote(buffer[..size])];
      finished := OnSuccessRead(size);
    }

    /** Turns the pump until a read delivers 0 bytes, then completes the job
        with the running total. `log` records the read completions and writes
        in the order they happen. */
    method Copy() returns (r: Completion<nat>, ghost log: seq<Event>)
      requires ReadyToCopy()
      modifies this`sizeDone, buffer, source`readPosition, destination`data
      ensures ReadyToCopy()
      ensures r == Succeeded(old(sizeDone) + |old(source.Unread())|)
      ensures sizeDone == r.value
      ensures destination.data == old(destination.data) + old(source.Unread())
      ensures source.data == old(source.data) && source.Unread() == []
      ensures log == CopyLog(old(source.Unread()), CopierBufferSize)
    {
      ghost var data, start := source.data, source.readPosition;
      ghost var written, total := destination.data, sizeDone;
      log := [];
      var finished := false;
      while !finished
        invariant ReadyToCopy()
        invariant source.data == data
        invariant start <= source.readPosition
        invariant destination.data == written + data[start..source.readPosition]
        invariant sizeDone == total + (source.readPosition - start)
        invariant LogSoFar(log, data, start, source.readPosition, finished, CopierBufferSize)
        decreases |data| - source.readPosition, !finished
      {
        ghost var position := source.readPosition;
        ghost var events;
        finished, events := CopyStep();
        StepKeepsLog(data, CopierBufferSize, start, position, log);
        log := log + events;
      }
      assert data[start..source.readPosition] == data[start..];
      r := Succeeded(sizeDone);
    }
  }

  /** A fresh copier over two fresh in-memory streams, the way a caller pumps
      `src` onto the end of `dst`: the job reports every byte of `src`, the
      destination ends as `dst` followed by `src`, and the reads and writes
      alternate as the pump promises. */
  method CopyBetween(src: seq<bv8>, dst: seq<bv8>)
    returns (r: Completion<nat>, result: seq<bv8>, ghost log: seq<Event>)
    ensures r == Succeeded(|src|)
    ensures result == dst + src
    ensures Written(log) == src && ReadTotal(log) == |src|
    ensures Alternating(log, CopierBufferSize)
  {
    var source := new MemoryStream(src);
    var destination := new MemoryStream(dst);
    var copier := new StreamCopier(source, destination);
    assert source.Unread() == src;
    r, log := copier.Copy();
    result := destination.data;
    CopyLogWritesAll(src, CopierBufferSize);
    CopyLogTotal(src, CopierBufferSize);
    CopyLogAlternates(src, CopierBufferSize);
  }
}
