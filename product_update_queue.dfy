/** ProductUpdateQueue: a bounded channel of commands. The channel is modelled by
    its buffer, oldest command first. An operation that would suspend its caller
    returns a WouldBlock result and changes nothing; a cancellation token that is
    already cancelled is an input flag, checked before anything else, as the
    channel's writer and reader do. */
module ProductUpdateQueue {
  import opened Domain
  import opened QuantityCommand

  /** BoundedChannelFullMode: what a write to a full channel does. */
  datatype FullMode = Wait | DropNewest | DropOldest | DropWrite

  datatype BoundedChannelOptions = BoundedChannelOptions(capacity: int, fullMode: FullMode)

  /** The capacity the queue gets when none is given. */
  const DefaultCapacity: int := 100

  datatype EnqueueResult = Enqueued | EnqueueWouldBlock | EnqueueCancelled

  datatype DequeueResult = Dequeued(item: Command) | DequeueWouldBlock | DequeueCancelled

  datatype WriteStep = WriteStep(buffer: seq<Command>, result: EnqueueResult)

  datatype ReadStep = ReadStep(buffer: seq<Command>, result: DequeueResult)

  /** The buffer of a channel with room for `capacity` commands. */
  predicate Bounded(buffer: seq<Command>, capacity: int) {
    1 <= capacity && |buffer| <= capacity
  }

  /** ChannelWriter.WriteAsync on a bounded channel. */
  function Write(buffer: seq<Command>, capacity: int, mode: FullMode, item: Command, cancelled: bool): (s: WriteStep)
    requires Bounded(buffer, capacity)
    ensures Bounded(s.buffer, capacity)
    ensures s.result == EnqueueCancelled <==> cancelled
    ensures s.result == EnqueueWouldBlock <==> !cancelled && |buffer| == capacity && mode == Wait
    ensures s.result != Enqueued ==> s.buffer == buffer
    ensures !cancelled && |buffer| < capacity ==> s.result == Enqueued && s.buffer == buffer + [item]
    ensures !cancelled && |buffer| == capacity && mode == DropNewest ==>
      s.result == Enqueued && s.buffer == buffer[..capacity - 1] + [item]
    ensures !cancelled && |buffer| == capacity && mode == DropOldest ==>
      s.result == Enqueued && s.buffer == buffer[1..] + [item]
    ensures !cancelled && |buffer| == capacity && mode == DropWrite ==>
      s.result == Enqueued && s.buffer == buffer
  {
    if cancelled then WriteStep(buffer, EnqueueCancelled)
    else if |buffer| < capacity then WriteStep(buffer + [item], Enqueued)
    else match mode
      case Wait => WriteStep(buffer, EnqueueWouldBlock)
      case DropNewest => WriteStep(buffer[..|buffer| - 1] + [item], Enqueued)
      case DropOldest => WriteStep(buffer[1..] + [item], Enqueued)
      case DropWrite => WriteStep(buffer, Enqueued)
  }

  /** ChannelReader.ReadAsync: the oldest command, which leaves the buffer. */
  function Read(buffer: seq<Command>, cancelled: bool): (s: ReadStep)
    ensures s.result == DequeueCancelled <==> cancelled
    ensures s.result == DequeueWouldBlock <==> !cancelled && buffer == []
    ensures !s.result.Dequeued? ==> s.buffer == buffer
    ensures s.result.Dequeued? ==> [s.result.item] + s.buffer == buffer
  {
    if cancelled then ReadStep(buffer, DequeueCancelled)
    else if buffer == [] then ReadStep(buffer, DequeueWouldBlock)
    else ReadStep(buffer[1..], Dequeued(buffer[0]))
  }

  /** The buffer after writing `items` one after another, none of them cancelled. */
  function WriteAll(buffer: seq<Command>, capacity: int, mode: FullMode, items: seq<Command>): (b: seq<Command>)
    requires Bounded(buffer, capacity)
    ensures Bounded(b, capacity)
    decreases |items|
  {
    if items == [] then buffer
    else WriteAll(Write(buffer, capacity, mode, items[0], false).buffer, capacity, mode, items[1..])
  }

  /** The commands that reading until the buffer is empty yields, in order. */
  function ReadAll(buffer: seq<Command>): (items: seq<Command>)
    decreases |buffer|
  {
    var s := Read(buffer, false);
    if s.result.Dequeued? then [s.result.item] + ReadAll(s.buffer) else []
  }

  /** While there is room, writes append: nothing is dropped or reordered. */
  lemma {:induction false} WriteAllAppends(buffer: seq<Command>, capacity: int, mode: FullMode, items: seq<Command>)
    requires Bounded(buffer, capacity) && |buffer| + |items| <= capacity
    ensures WriteAll(buffer, capacity, mode, items) == buffer + items
    decreases |items|
  {
    if items != [] {
      WriteAllAppends(buffer + [items[0]], capacity, mode, items[1..]);
      assert buffer + [items[0]] + items[1..] == buffer + items;
    }
  }

  /** Reading drains the buffer oldest first. */
  lemma {:induction false} ReadAllDrains(buffer: seq<Command>)
    ensures ReadAll(buffer) == buffer
    decreases |buffer|
  {
    if buffer != [] {
      ReadAllDrains(buffer[1..]);
      assert [buffer[0]] + buffer[1..] == buffer;
    }
  }

  /** FIFO: commands written to an empty queue come out in the order they went in. */
  lemma {:induction false} Fifo(capacity: int, mode: FullMode, items: seq<Command>)
    requires 1 <= capacity && |items| <= capacity
    ensures ReadAll(WriteAll([], capacity, mode, items)) == items
  {
    WriteAllAppends([], capacity, mode, items);
    assert [] + items == items;
    ReadAllDrains(items);
  }

  /** Backpressure: after `capacity` writes in Wait mode the next write suspends and
      admits nothing; once a read frees a slot, the same write is admitted. */
  lemma {:induction false} Backpressure(capacity: int, items: seq<Command>, next: Command)
    requires 1 <= capacity && |items| == capacity
    ensures var full := WriteAll([], capacity, Wait, items);
      && full == items
      && Write(full, capacity, Wait, next, false) == WriteStep(full, EnqueueWouldBlock)
      && var r := Read(full, false);
         && r.result == Dequeued(items[0])
         && Write(r.buffer, capacity, Wait, next, false) == WriteStep(items[1..] + [next], Enqueued)
  {
    WriteAllAppends([], capacity, Wait, items);
    assert [] + items == items;
  }

  /** Capacity 2 in Wait mode: A and B are admitted at once, C waits, and once a
      read has taken A, C is admitted behind B. */
  lemma {:induction false} CapacityTwoAdmission(a: Command, b: Command, c: Command)
    ensures Write([], 2, Wait, a, false) == WriteStep([a], Enqueued)
    ensures Write([a], 2, Wait, b, false) == WriteStep([a, b], Enqueued)
    ensures Write([a, b], 2, Wait, c, false) == WriteStep([a, b], EnqueueWouldBlock)
    ensures Read([a, b], false) == ReadStep([b], Dequeued(a))
    ensures Write([b], 2, Wait, c, false) == WriteStep([b, c], Enqueued)
    ensures ReadAll([b, c]) == [b, c]
  {
    assert [a, b][1..] == [b];
    ReadAllDrains([b, c]);
  }

  /** A queue and the mode it was built with; the buffer is the only state that
      changes. */
  class ProductUpdateQueue {
    const capacity: int
    const fullMode: FullMode
    var buffer: seq<Command>

    ghost predicate Valid()
      reads this
    {
      Bounded(buffer, capacity)
    }

    /** ProductUpdateQueue(int capacity = 100): a Wait-mode channel. */
    constructor (capacity: int := DefaultCapacity)
      requires 1 <= capacity
      ensures Valid()
      ensures this.capacity == capacity && fullMode == Wait && buffer == []
    {
      this.capacity := capacity;
      fullMode := Wait;
      buffer := [];
    }

    /** ProductUpdateQueue(BoundedChannelOptions options). */
    constructor WithOptions(options: BoundedChannelOptions)
      requires 1 <= options.capacity
      ensures Valid()
      ensures capacity == options.capacity && fullMode == options.fullMode && buffer == []
    {
      capacity := options.capacity;
      fullMode := options.fullMode;
      buffer := [];
    }

    method EnqueueAsync(job: Command, cancelled: bool) returns (r: EnqueueResult)
      requires Valid()
      modifies this`buffer
      ensures Valid()
      ensures var s := Write(old(buffer), capacity, fullMode, job, cancelled);
        buffer == s.buffer && r == s.result
    {
      var s := Write(buffer, capacity, fullMode, job, cancelled);
      buffer := s.buffer;
      r := s.result;
    }

    method DequeueAsync(cancelled: bool) returns (r: DequeueResult)
      requires Valid()
      modifies this`buffer
      ensures Valid()
      ensures var s := Read(old(buffer), cancelled);
        buffer == s.buffer && r == s.result
    {
      if cancelled {
        return DequeueCancelled;
      }
      if buffer == [] {
        return DequeueWouldBlock;
      }
      r := Dequeued(buffer[0]);
      buffer := buffer[1..];
    }
  }
}
