/**
 The byte buffer: one flat array, a reader and a writer index, eight reserved
 bytes in front, in-place compaction and growth.

 `Layout` is the buffer as a value.  Class `Buffer` is the code that moves bytes
 inside an array; each of its methods is proved to change the layout exactly as
 the corresponding function does.  What holds over every run is proved of layouts.
 */
module Buffers {
  import opened Text

  const CHEAP_PREPEND: nat := 8
  const INITIAL_SIZE: nat := 1024
  // Size of the stack area `read_fd` scatters into.
  const EXTRA_SIZE: nat := 65535

  /** Array size, reader index, and the bytes between reader and writer. */
  datatype Layout = Layout(capacity: nat, reader: nat, contents: string) {
    predicate Valid() {
      reader + |contents| <= capacity && CHEAP_PREPEND <= capacity
    }

    function Writable(): int {
      capacity - reader - |contents|
    }

    function MakeSpace(count: nat): Layout {
      if Writable() + reader < count + CHEAP_PREPEND
      then this.(capacity := reader + |contents| + count)
      else this.(reader := CHEAP_PREPEND)
    }

    function EnsureWritable(count: nat): Layout {
      if Writable() < count then MakeSpace(count) else this
    }

    function Append(data: string): Layout {
      var room := EnsureWritable(|data|);
      room.(contents := contents + data)
    }

    function Prepend(data: string): Layout
      requires |data| <= reader
    {
      this.(reader := reader - |data|, contents := data + contents)
    }

    function Retrieve(count: nat): Layout
      requires count <= |contents|
    {
      if count == |contents| then RetrieveAll()
      else this.(reader := reader + count, contents := contents[count..])
    }

    function RetrieveAll(): Layout {
      this.(reader := CHEAP_PREPEND, contents := "")
    }

    function Unwrite(count: nat): Layout
      requires count <= |contents|
    {
      this.(contents := contents[..|contents| - count])
    }

    /** `readv` filled the tail of the array, then the overflow area. */
    function ReadFd(got: string): Layout
      requires Valid()
    {
      if |got| <= Writable()
      then this.(contents := contents + got)
      else this.(contents := contents + got[..Writable()]).Append(got[Writable()..])
    }
  }

  function NewLayout(initialSize: nat): (l: Layout)
    ensures l.Valid() && l.contents == ""
    ensures l.reader == 8 && l.Writable() == initialSize
  {
    Layout(CHEAP_PREPEND + initialSize, CHEAP_PREPEND, "")
  }

  /** One call on the buffer; a failed `readv` leaves it alone and is not listed. */
  datatype Op =
    | Append(data: string)
    | Prepend(data: string)
    | Retrieve(count: nat)
    | RetrieveAll
    | Unwrite(count: nat)
    | EnsureWritable(count: nat)
    | ReadFd(got: string)

  /** The asserts of the source: what a caller owes each operation. */
  predicate Legal(l: Layout, op: Op) {
    match op
    case Prepend(data) => |data| <= l.reader
    case Retrieve(count) => count <= |l.contents|
    case Unwrite(count) => count <= |l.contents|
    case ReadFd(got) => |got| <= l.Writable() + EXTRA_SIZE
    case _ => true
  }

  function Step(l: Layout, op: Op): (l': Layout)
    requires l.Valid() && Legal(l, op)
    ensures l'.Valid()
  {
    match op
    case Append(data) => l.Append(data)
    case Prepend(data) => l.Prepend(data)
    case Retrieve(count) => l.Retrieve(count)
    case RetrieveAll => l.RetrieveAll()
    case Unwrite(count) => l.Unwrite(count)
    case EnsureWritable(count) => l.EnsureWritable(count)
    case ReadFd(got) => l.ReadFd(got)
  }

  /** The abstract byte queue the buffer stands for: no indices, no capacity. */
  function QueueStep(q: string, op: Op): string {
    match op
    case Append(data) => q + data
    case Prepend(data) => data + q
    case Retrieve(count) => if count <= |q| then q[count..] else q
    case RetrieveAll => ""
    case Unwrite(count) => if count <= |q| then q[..|q| - count] else q
    case EnsureWritable(_) => q
    case ReadFd(got) => q + got
  }

  function QueueRun(q: string, ops: seq<Op>): string
    decreases |ops|
  {
    if ops == [] then q else QueueRun(QueueStep(q, ops[0]), ops[1..])
  }

  /** A run in which every call is legal when it is made. */
  ghost predicate LegalRun(l: Layout, ops: seq<Op>)
    requires l.Valid()
    decreases |ops|
  {
    ops != [] ==> Legal(l, ops[0]) && LegalRun(Step(l, ops[0]), ops[1..])
  }

  function Run(l: Layout, ops: seq<Op>): Layout
    requires l.Valid() && LegalRun(l, ops)
    decreases |ops|
  {
    if ops == [] then l else Run(Step(l, ops[0]), ops[1..])
  }

  /** Readable bytes plus the bytes a call asks room for. */
  function Demand(l: Layout, op: Op): nat {
    |l.contents| +
    match op
    case Append(data) => |data|
    case EnsureWritable(count) => count
    case ReadFd(got) => |got|
    case _ => 0
  }

  function Max(a: nat, b: nat): nat {
    if a < b then b else a
  }

  function PeakDemand(l: Layout, ops: seq<Op>): nat
    requires l.Valid() && LegalRun(l, ops)
    decreases |ops|
  {
    if ops == [] then 0 else Max(Demand(l, ops[0]), PeakDemand(Step(l, ops[0]), ops[1..]))
  }

  // ---- What make_space guarantees -------------------------------------------------

  /** The rotate branch is taken only when the bytes really move towards the front,
      so its overlapping forward copy is safe, and it always yields enough room. */
  lemma CompactionIsSafe(l: Layout, count: nat)
    requires l.Valid() && l.Writable() < count
    requires l.MakeSpace(count).capacity == l.capacity
    ensures CHEAP_PREPEND < l.reader
    ensures l.MakeSpace(count).Valid() && l.MakeSpace(count).Writable() >= count
    ensures l.MakeSpace(count).contents == l.contents
  {
  }

  /** Making room never loses a byte, always gives what was asked for, and grows
      the array exactly when neither the free tail nor compaction would do. */
  lemma EnsureWritableExact(l: Layout, count: nat)
    requires l.Valid()
    ensures var r := l.EnsureWritable(count);
            && r.Valid() && r.Writable() >= count && r.contents == l.contents
            && l.capacity <= r.capacity
            && (l.capacity < r.capacity <==>
                  count > l.Writable() && count > l.capacity - CHEAP_PREPEND - |l.contents|)
  {
  }

  /** One legal call keeps the layout valid, acts on the contents as the queue does,
      never shrinks the array, and outgrows it only up to twice the demand. */
  lemma StepRefinesQueue(l: Layout, op: Op)
    requires l.Valid() && Legal(l, op)
    ensures Step(l, op).Valid()
    ensures Step(l, op).contents == QueueStep(l.contents, op)
    ensures l.capacity <= Step(l, op).capacity <= Max(l.capacity, CHEAP_PREPEND + 2 * Demand(l, op))
  {
    match op
    case ReadFd(got) =>
      if |got| > l.Writable() {
        var filled := l.(contents := l.contents + got[..l.Writable()]);
        EnsureWritableExact(filled, |got[l.Writable()..]|);
        assert l.contents + got[..l.Writable()] + got[l.Writable()..] == l.contents + got;
      }
    case _ =>
  }

  /** A buffer that is emptied starts over: everything behind the reserved prefix is free. */
  lemma EmptiedIsReset(l: Layout, op: Op)
    requires l.Valid() && Legal(l, op) && (op.RetrieveAll? || (op.Retrieve? && op.count == |l.contents|))
    ensures Step(l, op).reader == CHEAP_PREPEND && Step(l, op).Writable() == l.capacity - CHEAP_PREPEND
  {
  }

  /** Which bytes move: only prepending takes from the room in front, and only making space
      while there is too little behind moves the contents, back to the reserved prefix. */
  lemma ReaderExactly(l: Layout, op: Op)
    requires l.Valid() && Legal(l, op) && !op.RetrieveAll? && !op.Retrieve?
    ensures Step(l, op).reader ==
              if op.Prepend? then l.reader - |op.data|
              else if op.Unwrite? || Demand(l, op) <= l.capacity - l.reader then l.reader
              else if Step(l, op).capacity == l.capacity then CHEAP_PREPEND
              else l.reader
  {
  }

  /** Up to eight bytes can be prepended at any time, as long as nothing else was. */
  lemma {:induction false} PrependAlwaysFits(l: Layout, ops: seq<Op>)
    requires l.Valid() && CHEAP_PREPEND <= l.reader && LegalRun(l, ops)
    requires forall i :: 0 <= i < |ops| ==> !ops[i].Prepend?
    ensures CHEAP_PREPEND <= Run(l, ops).reader
    decreases |ops|
  {
    if ops != [] {
      PrependAlwaysFits(Step(l, ops[0]), ops[1..]);
    }
  }

  /** Every run of the buffer computes what the byte queue computes. */
  lemma {:induction false} RunRefinesQueue(l: Layout, ops: seq<Op>)
    requires l.Valid() && LegalRun(l, ops)
    ensures Run(l, ops).Valid()
    ensures Run(l, ops).contents == QueueRun(l.contents, ops)
    decreases |ops|
  {
    if ops != [] {
      StepRefinesQueue(l, ops[0]);
      RunRefinesQueue(Step(l, ops[0]), ops[1..]);
    }
  }

  lemma StepWithin(l: Layout, op: Op, bound: nat)
    requires l.Valid() && Legal(l, op)
    requires l.capacity <= bound && CHEAP_PREPEND + 2 * Demand(l, op) <= bound
    ensures l.capacity <= Step(l, op).capacity <= bound
  {
    StepRefinesQueue(l, op);
  }

  /** A bound that holds at the start and covers every demand holds at the end. */
  lemma {:induction false} RunWithin(l: Layout, ops: seq<Op>, bound: nat)
    requires l.Valid() && LegalRun(l, ops)
    requires l.capacity <= bound && CHEAP_PREPEND + 2 * PeakDemand(l, ops) <= bound
    ensures l.capacity <= Run(l, ops).capacity <= bound
    decreases |ops|
  {
    if ops != [] {
      StepWithin(l, ops[0], bound);
      RunWithin(Step(l, ops[0]), ops[1..], bound);
    }
  }

  /** Over a whole run the array never gets larger than it started or than the
      reserved prefix plus twice the largest demand ever made. */
  lemma CapacityBound(l: Layout, ops: seq<Op>)
    requires l.Valid() && LegalRun(l, ops)
    ensures l.capacity <= Run(l, ops).capacity
    ensures Run(l, ops).capacity <= Max(l.capacity, CHEAP_PREPEND + 2 * PeakDemand(l, ops))
  {
    RunWithin(l, ops, Max(l.capacity, CHEAP_PREPEND + 2 * PeakDemand(l, ops)));
  }

  /** A step that changes the size of the array had no alternative. */
  lemma GrowsOnlyWhenNeeded(l: Layout, op: Op)
    requires l.Valid() && Legal(l, op)
    requires Step(l, op).capacity != l.capacity
    ensures Demand(l, op) > l.capacity - CHEAP_PREPEND
    ensures Demand(l, op) > l.capacity - l.reader
  {
    match op
    case ReadFd(got) =>
      var filled := l.(contents := l.contents + got[..l.Writable()]);
      EnsureWritableExact(filled, |got[l.Writable()..]|);
    case _ =>
  }

  // ---- The code --------------------------------------------------------------------

  /** `std::copy` towards the front of the same array: ascending order makes the
      overlap harmless. */
  method CopyForward(a: array<char>, src: nat, dst: nat, n: nat)
    requires dst <= src && src + n <= a.Length
    modifies a
    ensures a[dst..dst + n] == old(a[src..src + n])
    ensures forall k :: 0 <= k < a.Length && !(dst <= k < dst + n) ==> a[k] == old(a[k])
  {
    ghost var was := a[..];
    for i := 0 to n
      invariant forall k :: dst <= k < dst + i ==> a[k] == was[k + (src - dst)]
      invariant forall k :: 0 <= k < a.Length && !(dst <= k < dst + i) ==> a[k] == was[k]
    {
      a[dst + i] := a[src + i];
    }
  }

  /** `std::copy_n` from outside the array. */
  method CopyIn(a: array<char>, data: string, dst: nat)
    requires dst + |data| <= a.Length
    modifies a
    ensures a[dst..dst + |data|] == data
    ensures forall k :: 0 <= k < a.Length && !(dst <= k < dst + |data|) ==> a[k] == old(a[k])
  {
    for i := 0 to |data|
      invariant a[dst..dst + i] == data[..i]
      invariant forall k :: 0 <= k < a.Length && !(dst <= k < dst + i) ==> a[k] == old(a[k])
    {
      a[dst + i] := data[i];
    }
  }

  lemma SameSlice(longer: string, shorter: string, lo: nat, hi: nat)
    requires |shorter| <= |longer| && longer[0..|shorter|] == shorter && lo <= hi <= |shorter|
    ensures longer[lo..hi] == shorter[lo..hi]
  {
    forall i | lo <= i < hi
      ensures longer[i] == shorter[i]
    {
      assert longer[i] == longer[0..|shorter|][i];
    }
  }

  class Buffer {
    var data: array<char>
    var readerIndex: nat
    var writerIndex: nat

    ghost predicate Valid()
      reads this
    {
      readerIndex <= writerIndex <= data.Length && CHEAP_PREPEND <= data.Length
    }

    ghost function Model(): (l: Layout)
      requires Valid()
      reads this, data
      ensures l.Valid()
    {
      Layout(data.Length, readerIndex, data[readerIndex..writerIndex])
    }

    ghost function Contents(): string
      requires Valid()
      reads this, data
    {
      data[readerIndex..writerIndex]
    }

    constructor (initialSize: nat)
      ensures Valid() && fresh(data)
      ensures Model() == NewLayout(initialSize)
    {
      data := new char[CHEAP_PREPEND + initialSize](_ => '\0');
      readerIndex := CHEAP_PREPEND;
      writerIndex := CHEAP_PREPEND;
    }

    method Peek() returns (s: string)
      requires Valid()
      ensures s == Contents()
    {
      s := data[readerIndex..writerIndex];
    }

    function ReadableBytes(): (n: nat)
      requires Valid()
      reads this, data
      ensures n == |Contents()|
    {
      writerIndex - readerIndex
    }

    method MakeSpace(count: nat)
      requires Valid() && data.Length - writerIndex < count
      modifies this, data
      ensures Valid() && (data == old(data) || fresh(data))
      ensures Model() == old(Model()).MakeSpace(count)
    {
      if data.Length - writerIndex + readerIndex < count + CHEAP_PREPEND {
        // std::string::resize keeps the old bytes and zero-fills the rest.
        var bigger := new char[writerIndex + count](_ => '\0');
        CopyIn(bigger, data[..], 0);
        SameSlice(bigger[..], data[..], readerIndex, writerIndex);
        data := bigger;
        return;
      }
      CompactionIsSafe(Model(), count);
      var readable := writerIndex - readerIndex;
      CopyForward(data, readerIndex, CHEAP_PREPEND, readable);
      readerIndex := CHEAP_PREPEND;
      writerIndex := CHEAP_PREPEND + readable;
    }

    method EnsureWritableBytes(count: nat)
      requires Valid()
      modifies this, data
      ensures Valid() && (data == old(data) || fresh(data))
      ensures Model() == old(Model()).EnsureWritable(count)
    {
      EnsureWritableExact(Model(), count);
      if data.Length - writerIndex < count {
        MakeSpace(count);
      }
    }

    /** Bytes copied to `begin_write()`, then `has_written`. */
    method Fill(str: string)
      requires Valid() && |str| <= data.Length - writerIndex
      modifies this`writerIndex, data
      ensures Valid()
      ensures Model() == old(Model()).(contents := old(Contents()) + str)
    {
      ghost var before := data[readerIndex..writerIndex];
      CopyIn(data, str, writerIndex);
      assert data[readerIndex..writerIndex + |str|]
          == data[readerIndex..writerIndex] + data[writerIndex..writerIndex + |str|];
      assert data[readerIndex..writerIndex] == before;
      writerIndex := writerIndex + |str|;
    }

    method Append(str: string)
      requires Valid()
      modifies this, data
      ensures Valid() && (data == old(data) || fresh(data))
      ensures Model() == old(Model()).Append(str)
      ensures Contents() == old(Contents()) + str
    {
      EnsureWritableExact(Model(), |str|);
      EnsureWritableBytes(|str|);
      Fill(str);
    }

    method Prepend(str: string)
      requires Valid() && |str| <= readerIndex
      modifies this, data
      ensures Valid() && data == old(data)
      ensures Model() == old(Model()).Prepend(str)
    {
      ghost var before := data[readerIndex..writerIndex];
      var middle := readerIndex;
      readerIndex := readerIndex - |str|;
      CopyIn(data, str, readerIndex);
      assert data[readerIndex..writerIndex] == data[readerIndex..middle] + data[middle..writerIndex];
      assert data[middle..writerIndex] == before;
    }

    method Retrieve(count: nat)
      requires Valid() && count <= |Contents()|
      modifies this`readerIndex, this`writerIndex
      ensures Valid()
      ensures Model() == old(Model()).Retrieve(count)
      ensures Contents() == old(Contents())[count..]
    {
      if count == ReadableBytes() {
        RetrieveAll();
      } else {
        readerIndex := readerIndex + count;
      }
    }

    method RetrieveAll()
      requires Valid()
      modifies this`readerIndex, this`writerIndex
      ensures Valid()
      ensures Model() == old(Model()).RetrieveAll()
      ensures Contents() == ""
    {
      readerIndex := CHEAP_PREPEND;
      writerIndex := CHEAP_PREPEND;
    }

    method Unwrite(count: nat)
      requires Valid() && count <= |Contents()|
      modifies this`writerIndex
      ensures Valid()
      ensures Model() == old(Model()).Unwrite(count)
    {
      writerIndex := writerIndex - count;
    }

    /** `got` is what `readv` delivered, tail of the array first; `None` is its -1. */
    method ReadFd(got: Option<string>) returns (n: int)
      requires Valid()
      requires got.Some? ==> |got.value| <= data.Length - writerIndex + EXTRA_SIZE
      modifies this, data
      ensures Valid() && (data == old(data) || fresh(data))
      ensures n == if got.None? then -1 else |got.value|
      ensures Model() == if got.None? then old(Model()) else old(Model()).ReadFd(got.value)
      ensures Contents() == old(Contents()) + if got.None? then "" else got.value
    {
      if got.None? {
        return -1;
      }
      var bytes := got.value;
      n := |bytes|;
      StepRefinesQueue(Model(), Op.ReadFd(bytes));
      var writable := data.Length - writerIndex;
      if n <= writable {
        Fill(bytes);
      } else {
        Fill(bytes[..writable]);
        Append(bytes[writable..]);
      }
    }

    /** `swap` exchanges two buffers wholesale. */
    method Swap(other: Buffer)
      requires Valid() && other.Valid()
      modifies this, other
      ensures Valid() && other.Valid()
      ensures Model() == old(other.Model()) && other.Model() == old(Model())
    {
      data, other.data := other.data, data;
      readerIndex, other.readerIndex := other.readerIndex, readerIndex;
      writerIndex, other.writerIndex := other.writerIndex, writerIndex;
    }
  }
}
