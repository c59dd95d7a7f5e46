/** The growing, compacting receive and send buffer of a connection. */
module TcpBuffers {
  import opened Bytes

  /** A buffer as a value: the whole vector and the two indices into it. */
  datatype View = View(data: seq<byte>, read: nat, write: nat) {

    predicate Shape() {
      read <= write <= |data|
    }

    /** What every operation keeps: the indices are ordered, the read index is 0 or in the
        lower half, and no stale byte survives past the write index. */
    ghost predicate Ok() {
      && Shape()
      && (read == 0 || read < |data| / 2)
      && ZeroFrom(data, write)
    }

    function Unread(): seq<byte>
      requires Shape()
    {
      data[read..write]
    }

    function WriteAble(): nat
      requires Shape()
    {
      |data| - write
    }
  }

  ghost predicate ZeroFrom(data: seq<byte>, at: nat) {
    forall k :: at <= k < |data| ==> data[k] == 0
  }

  // ---------------------------------------------------------------- operations on views

  /** Moves the unread bytes to the front of a zeroed vector of the given size. */
  function Rebased(v: View, size: nat): (w: View)
    requires v.Shape() && |v.Unread()| <= size
    ensures w.Shape()
  {
    View(v.Unread() + Zeros(size - |v.Unread()|), 0, |v.Unread()|)
  }

  function Adjusted(v: View): (w: View)
    requires v.Shape()
    ensures w.Shape()
  {
    if v.read < |v.data| / 2 then v else Rebased(v, |v.data|)
  }

  function Resized(v: View, newSize: nat): (w: View)
    requires v.Shape()
    ensures w.Shape()
  {
    if newSize < |v.data| then v else Rebased(v, newSize)
  }

  function MovedRead(v: View, size: nat): (w: View)
    requires v.Shape()
    ensures w.Shape()
  {
    if v.read + size > v.write then v else Adjusted(v.(read := v.read + size))
  }

  function MovedWrite(v: View, size: nat): (w: View)
    requires v.Shape()
    ensures w.Shape()
  {
    if v.write + size > |v.data| then v else Adjusted(v.(write := v.write + size))
  }

  /** Bytes placed behind the write index, which has not moved yet. */
  function Stored(v: View, bytes: seq<byte>): View
    requires v.Shape() && |bytes| <= v.WriteAble()
  {
    v.(data := v.data[..v.write] + bytes + v.data[v.write + |bytes|..])
  }

  function Filled(v: View, bytes: seq<byte>): View
    requires v.Shape() && |bytes| <= v.WriteAble()
  {
    MovedWrite(Stored(v, bytes), |bytes|)
  }

  /** `1.5 * k` truncated to an integer. */
  function Half(k: nat): nat { k + k / 2 }

  function Grown(v: View, size: nat): View
    requires v.Shape()
  {
    if size > v.WriteAble() then Resized(v, Half(v.write + size)) else v
  }

  function Written(v: View, bytes: seq<byte>): View
    requires v.Shape()
  {
    Filled(Grown(v, |bytes|), bytes)
  }

  /** `size` bytes have been placed behind the write index, so the zero tail may start late. */
  ghost predicate Movable(v: View, size: nat) {
    && v.Shape()
    && (v.read == 0 || v.read < |v.data| / 2)
    && ZeroFrom(v.data, if v.write + size <= |v.data| then v.write + size else v.write)
  }

  // ---------------------------------------------------------------- the FIFO refinement

  lemma {:induction false} RebasedIsFaithful(v: View, size: nat)
    requires v.Shape() && |v.Unread()| <= size
    ensures Rebased(v, size).Ok() && Rebased(v, size).Unread() == v.Unread()
    ensures Rebased(v, size).read == 0 && |Rebased(v, size).data| == size
  {
  }

  lemma {:induction false} AdjustedIsFaithful(v: View)
    requires v.Shape() && ZeroFrom(v.data, v.write)
    ensures Adjusted(v).Ok() && Adjusted(v).Unread() == v.Unread()
    ensures |Adjusted(v).data| == |v.data| && Adjusted(v).write <= v.write && Adjusted(v).read <= v.read
  {
    if v.read >= |v.data| / 2 {
      RebasedIsFaithful(v, |v.data|);
    }
  }

  /** Compaction, exactly: nothing happens while the read index is in the lower half; otherwise the unread
      bytes move to the front, the rest is zeroed, and the capacity stays. */
  lemma {:induction false} CompactionStartsAtHalf(v: View)
    requires v.Shape()
    ensures v.read < |v.data| / 2 ==> Adjusted(v) == v
    ensures v.read >= |v.data| / 2 ==>
              Adjusted(v) == View(v.data[v.read..v.write] + Zeros(|v.data| - (v.write - v.read)), 0, v.write - v.read)
  {
  }

  lemma {:induction false} ResizeKeepsUnread(v: View, newSize: nat)
    requires v.Ok()
    ensures Resized(v, newSize).Ok() && Resized(v, newSize).Unread() == v.Unread()
    ensures |Resized(v, newSize).data| == if newSize < |v.data| then |v.data| else newSize
    ensures Resized(v, newSize).write <= v.write
    ensures if newSize < |v.data| then Resized(v, newSize) == v else Resized(v, newSize).read == 0
  {
    if newSize >= |v.data| {
      RebasedIsFaithful(v, newSize);
    }
  }

  /** Moving the read index drops a prefix, and is refused exactly when that prefix is not there. */
  lemma {:induction false} MoveReadDropsPrefix(v: View, size: nat)
    requires v.Ok()
    ensures MovedRead(v, size).Ok() && |MovedRead(v, size).data| == |v.data|
    ensures size <= |v.Unread()| ==> MovedRead(v, size).Unread() == v.Unread()[size..]
    ensures size > |v.Unread()| ==> MovedRead(v, size) == v
    ensures MovedRead(v, size).read <= v.read + size && MovedRead(v, size).write <= v.write
  {
    if size <= |v.Unread()| {
      var moved := v.(read := v.read + size);
      AdjustedIsFaithful(moved);
      assert moved.Unread() == v.Unread()[size..];
    }
  }

  /** A received chunk is appended; a buffer that keeps its invariant is not compacted by it. */
  lemma {:induction false} FillAppends(v: View, bytes: seq<byte>)
    requires v.Ok() && |bytes| <= v.WriteAble()
    ensures Filled(v, bytes).Ok() && Filled(v, bytes).Unread() == v.Unread() + bytes
    ensures Filled(v, bytes) == Stored(v, bytes).(write := v.write + |bytes|)
  {
    var s := Stored(v, bytes);
    assert s.data[v.read..v.write + |bytes|] == v.data[v.read..v.write] + bytes;
    forall k | v.write + |bytes| <= k < |s.data| ensures s.data[k] == 0 {
      assert s.data[k] == v.data[k];
    }
    var moved := s.(write := s.write + |bytes|);
    if v.read >= |v.data| / 2 {
      assert v.read == 0;
      assert Rebased(moved, |v.data|).data == moved.data;
    }
  }

  lemma {:induction false} GrowthMakesRoom(v: View, size: nat)
    requires v.Ok()
    ensures Grown(v, size).Ok() && Grown(v, size).Unread() == v.Unread()
    ensures Grown(v, size).write <= v.write && size <= Grown(v, size).WriteAble()
    ensures |Grown(v, size).data| == if size > v.WriteAble() then Half(v.write + size) else |v.data|
  {
    if size > v.WriteAble() {
      ResizeKeepsUnread(v, Half(v.write + size));
    }
  }

  lemma {:induction false} StoredIsMovable(v: View, bytes: seq<byte>)
    requires v.Ok() && |bytes| <= v.WriteAble()
    ensures Movable(Stored(v, bytes), |bytes|)
  {
    var s := Stored(v, bytes);
    forall k | v.write + |bytes| <= k < |s.data| ensures s.data[k] == 0 {
      assert s.data[k] == v.data[k];
    }
  }

  lemma {:induction false} FillsCompose(v: View, a: seq<byte>, b: seq<byte>)
    requires v.Ok() && |a| + |b| <= v.WriteAble()
    ensures Filled(v, a).Ok() && Filled(v, a).WriteAble() == v.WriteAble() - |a|
    ensures Filled(Filled(v, a), b) == Filled(v, a + b)
  {
    FillAppends(v, a);
    FillAppends(v, a + b);
    var f := Filled(v, a);
    FillAppends(f, b);
    assert Stored(f, b).data == Stored(v, a + b).data;
  }

  /** Writing appends, whatever growing and compacting it takes. */
  lemma {:induction false} WriteAppends(v: View, bytes: seq<byte>)
    requires v.Ok()
    ensures Written(v, bytes).Ok() && Written(v, bytes).Unread() == v.Unread() + bytes
    ensures Written(v, bytes).write <= v.write + |bytes|
    ensures |Written(v, bytes).data|
            == if |bytes| > v.WriteAble() then Half(v.write + |bytes|) else |v.data|
  {
    GrowthMakesRoom(v, |bytes|);
    FillAppends(Grown(v, |bytes|), bytes);
  }

  /** A write that does not fit makes the capacity one and a half times what is needed, rounded down. */
  lemma {:induction false} WritingGrowsByHalf(v: View, bytes: seq<byte>)
    requires v.Ok()
    ensures var size, needed := |Written(v, bytes).data|, v.write + |bytes|;
            if needed <= |v.data| then size == |v.data| else 3 * needed - 1 <= 2 * size <= 3 * needed
  {
    hide Written;
    WriteAppends(v, bytes);
  }

  // ---------------------------------------------------------------- reading from the kernel

  /** The top of the read loop: a full buffer is doubled before the kernel is asked for bytes. */
  function Roomy(v: View): View
    requires v.Shape()
  {
    if v.WriteAble() == 0 then Resized(v, 2 * |v.data|) else v
  }

  function Least(a: nat, b: nat): nat { if a < b then a else b }

  lemma {:induction false} RoomyOffersSpace(v: View)
    requires v.Ok()
    ensures Roomy(v).Ok() && Roomy(v).Unread() == v.Unread() && |v.data| <= |Roomy(v).data|
    ensures Roomy(v).WriteAble() > 0 <==> |v.data| > 0
    ensures |Roomy(v).data| == |v.data| || |Roomy(v).data| <= 4 * |v.Unread()|
  {
    if v.WriteAble() == 0 {
      ResizeKeepsUnread(v, 2 * |v.data|);
    }
  }

  /** Before a read a full buffer is doubled and any other one left alone. */
  lemma {:induction false} FullBufferDoubles(v: View)
    requires v.Ok()
    ensures if v.write == |v.data| then |Roomy(v).data| == 2 * |v.data| && Roomy(v).Unread() == v.Unread()
            else Roomy(v) == v
  {
    ResizeKeepsUnread(v, 2 * |v.data|);
  }

  /** How many bytes of a non-empty input a read takes when the kernel hands over all it can. */
  function GulpSize(v: View, input: seq<byte>): (n: nat)
    requires v.Ok() && |v.data| > 0 && input != []
    ensures 0 < n <= |input|
  {
    RoomyOffersSpace(v);
    Least(Roomy(v).WriteAble(), |input|)
  }

  /** One turn of the read loop. */
  function Gulped(v: View, chunk: seq<byte>): (g: View)
    requires v.Ok() && |v.data| > 0 && |chunk| <= Roomy(v).WriteAble()
    ensures g.Ok() && |g.data| == |Roomy(v).data|
    ensures g.Unread() == v.Unread() + chunk
    ensures g.WriteAble() == Roomy(v).WriteAble() - |chunk|
  {
    RoomyOffersSpace(v);
    FillAppends(Roomy(v), chunk);
    Filled(Roomy(v), chunk)
  }

  /** What the read loop makes of a finite input. */
  function Absorb(v: View, input: seq<byte>): View
    requires v.Ok() && |v.data| > 0
    decreases |input|
  {
    if input == [] then Roomy(v) else
      var n := GulpSize(v, input);
      Absorb(Gulped(v, input[..n]), input[n..])
  }

  lemma {:induction false} AbsorbAppends(v: View, input: seq<byte>)
    requires v.Ok() && |v.data| > 0
    ensures Absorb(v, input).Ok() && Absorb(v, input).Unread() == v.Unread() + input
    ensures |Absorb(v, input).data| == |v.data| || |Absorb(v, input).data| <= 4 * (|v.Unread()| + |input|)
    ensures |v.data| <= |Roomy(v).data| <= |Absorb(v, input).data|
    decreases |input|
  {
    hide Filled, Resized;
    RoomyOffersSpace(v);
    if input != [] {
      var n := GulpSize(v, input);
      AbsorbAppends(Gulped(v, input[..n]), input[n..]);
      assert v.Unread() + input == v.Unread() + input[..n] + input[n..];
    }
  }

  lemma {:induction false} GulpsCompose(v: View, a: seq<byte>, b: seq<byte>)
    requires v.Ok() && |v.data| > 0 && b != [] && |a| + |b| <= Roomy(v).WriteAble()
    ensures Gulped(Gulped(v, a), b) == Gulped(v, a + b)
  {
    RoomyOffersSpace(v);
    FillsCompose(Roomy(v), a, b);
  }

  /** The result does not depend on how the kernel splits the input: taking any first chunk that
      fits and absorbing the rest gives the very same buffer, layout included. */
  lemma {:induction false} ChunkingIsIrrelevant(v: View, chunk: seq<byte>, rest: seq<byte>)
    requires v.Ok() && |v.data| > 0
    requires 0 < |chunk| <= Roomy(v).WriteAble()
    ensures Absorb(Gulped(v, chunk), rest) == Absorb(v, chunk + rest)
  {
    var input := chunk + rest;
    var n := GulpSize(v, input);
    if n == |chunk| {
      assert input[..n] == chunk && input[n..] == rest;
    } else {
      var g := Gulped(v, chunk);
      var m := GulpSize(g, rest);
      assert n == |chunk| + m;
      assert input[..n] == chunk + rest[..m] && input[n..] == rest[m..];
      GulpsCompose(v, chunk, rest[..m]);
    }
  }

  // ---------------------------------------------------------------- space over whole runs

  datatype Step =
    | Write(bytes: seq<byte>)
    | Read(size: nat)
    | MoveRead(size: nat)
    | MoveWrite(size: nat)
    | Receive(input: seq<byte>)

  function Stepped(v: View, step: Step): View
    requires v.Ok() && |v.data| > 0
  {
    match step
    case Write(bytes) => Written(v, bytes)
    case Read(size) => MovedRead(v, Least(size, |v.Unread()|))
    case MoveRead(size) => MovedRead(v, size)
    case MoveWrite(size) => MovedWrite(v, size)
    case Receive(input) => Absorb(v, input)
  }

  lemma {:induction false} StepKeepsInvariant(v: View, step: Step)
    requires v.Ok() && |v.data| > 0
    ensures Stepped(v, step).Ok() && |v.data| <= |Stepped(v, step).data|
    ensures |Stepped(v, step).data| == |v.data|
         || |Stepped(v, step).data| <= (if step.Receive? then 4 else 3) * |Stepped(v, step).Unread()|
  {
    match step
    case Write(bytes) => WriteAppends(v, bytes);
    case Read(size) => MoveReadDropsPrefix(v, Least(size, |v.Unread()|));
    case MoveRead(size) => MoveReadDropsPrefix(v, size);
    case MoveWrite(size) =>
      if size <= v.WriteAble() {
        AdjustedIsFaithful(v.(write := v.write + size));
      }
    case Receive(input) => AbsorbAppends(v, input);
  }

  /** The views a run goes through, the first one included. */
  ghost function Run(v: View, steps: seq<Step>): (views: seq<View>)
    requires v.Ok() && |v.data| > 0
    ensures |views| == |steps| + 1 && views[0] == v
    ensures forall w <- views :: w.Ok()
    decreases |steps|
  {
    if steps == [] then [v] else
      StepKeepsInvariant(v, steps[0]);
      [v] + Run(Stepped(v, steps[0]), steps[1..])
  }

  /** What a step does to a plain queue of bytes. Moving the write index is refused, or makes bytes
      unread that nothing has been written to. */
  ghost predicate FifoStep(q: seq<byte>, step: Step, q': seq<byte>) {
    match step
    case Write(bytes) => q' == q + bytes
    case Read(size) => q' == q[Least(size, |q|)..]
    case MoveRead(size) => q' == if size <= |q| then q[size..] else q
    case MoveWrite(size) => q' == q || q' == q + Zeros(size)
    case Receive(input) => q' == q + input
  }

  ghost predicate Follows(v: View, step: Step, w: View) {
    v.Shape() && w.Shape() && FifoStep(v.Unread(), step, w.Unread())
  }

  lemma {:induction false} MoveWriteExposesZeros(v: View, size: nat)
    requires v.Ok()
    ensures MovedWrite(v, size).Ok()
    ensures MovedWrite(v, size).Unread() == if size <= v.WriteAble() then v.Unread() + Zeros(size) else v.Unread()
  {
    if size <= v.WriteAble() {
      var moved := v.(write := v.write + size);
      AdjustedIsFaithful(moved);
      assert moved.Unread() == v.Unread() + Zeros(size);
    }
  }

  lemma {:induction false} StepIsFifo(v: View, step: Step)
    requires v.Ok() && |v.data| > 0
    ensures Follows(v, step, Stepped(v, step))
  {
    hide MovedRead, MovedWrite, Written, Absorb, ZeroFrom;
    match step
    case Write(bytes) => WriteAppends(v, bytes);
    case Read(size) => MoveReadDropsPrefix(v, Least(size, |v.Unread()|));
    case MoveRead(size) => MoveReadDropsPrefix(v, size);
    case MoveWrite(size) => MoveWriteExposesZeros(v, size);
    case Receive(input) => AbsorbAppends(v, input);
  }

  /** Through any run the unread bytes behave as a queue, whatever is grown, moved and compacted. */
  lemma {:induction false} RunIsFifo(v: View, steps: seq<Step>)
    requires v.Ok() && |v.data| > 0
    ensures forall k :: 0 <= k < |steps| ==> Follows(Run(v, steps)[k], steps[k], Run(v, steps)[k + 1])
    decreases |steps|
  {
    hide Stepped, Follows;
    if steps != [] {
      StepKeepsInvariant(v, steps[0]);
      StepIsFifo(v, steps[0]);
      var next, views := Stepped(v, steps[0]), Run(v, steps);
      RunIsFifo(next, steps[1..]);
      assert views[1..] == Run(next, steps[1..]);
      forall k | 0 <= k < |steps| ensures Follows(views[k], steps[k], views[k + 1]) {
        if k > 0 {
          assert views[k] == views[1..][k - 1] && views[k + 1] == views[1..][k];
        }
      }
    }
  }

  ghost predicate PeakAtMost(views: seq<View>, peak: nat) {
    forall w <- views :: w.Shape() && |w.Unread()| <= peak
  }

  /** The capacity never exceeds the larger of its first value and a small multiple of the peak load. */
  lemma {:induction false} CapacityIsBounded(v: View, steps: seq<Step>, peak: nat)
    requires v.Ok() && |v.data| > 0
    requires PeakAtMost(Run(v, steps), peak)
    ensures forall w <- Run(v, steps) :: |w.data| <= |v.data| || |w.data| <= 4 * peak
    ensures (forall s <- steps :: !s.Receive?) ==>
              forall w <- Run(v, steps) :: |w.data| <= |v.data| || |w.data| <= 3 * peak
    decreases |steps|
  {
    if steps != [] {
      StepKeepsInvariant(v, steps[0]);
      var next := Stepped(v, steps[0]);
      var tail := Run(next, steps[1..]);
      assert forall w <- tail :: w in Run(v, steps);
      CapacityIsBounded(next, steps[1..], peak);
      assert next == tail[0];
      assert steps[0] in steps && forall s <- steps[1..] :: s in steps;
    }
  }

  // ---------------------------------------------------------------- the buffer itself

  class TcpBuffer {
    var readIndex: nat
    var writeIndex: nat
    var buffer: array<byte>

    ghost function State(): View
      reads this, buffer
    {
      View(buffer[..], readIndex, writeIndex)
    }

    ghost predicate Valid()
      reads this, buffer
    {
      State().Ok() && buffer.Length <= INT_MAX
    }

    ghost function Unread(): seq<byte>
      requires Valid()
      reads this, buffer
    {
      State().Unread()
    }

    constructor (size: nat)
      requires size <= INT_MAX
      ensures Valid() && fresh(buffer)
      ensures Unread() == [] && State() == View(Zeros(size), 0, 0)
    {
      buffer := new byte[size](_ => 0);
      readIndex, writeIndex := 0, 0;
    }

    function ReadAble(): int
      reads this
    {
      writeIndex - readIndex
    }

    function WriteAble(): int
      reads this, buffer
    {
      buffer.Length - writeIndex
    }

    /** Allocates a zeroed vector, copies the unread bytes to its front and swaps it in. */
    method Rebase(size: nat)
      requires State().Shape() && ReadAble() <= size
      modifies this
      ensures fresh(buffer) && State() == Rebased(old(State()), size)
    {
      var tmp := new byte[size](_ => 0);
      var count := ReadAble();
      forall k | 0 <= k < count {
        tmp[k] := buffer[readIndex + k];
      }
      assert tmp[..] == buffer[readIndex..writeIndex] + Zeros(size - count);
      buffer := tmp;
      readIndex := 0;
      writeIndex := readIndex + count;
    }

    method ResizeBuffer(newSize: nat)
      requires Valid() && newSize <= INT_MAX
      modifies this
      ensures Valid() && (buffer == old(buffer) || fresh(buffer))
      ensures State() == Resized(old(State()), newSize)
      ensures Unread() == old(Unread())
    {
      ResizeKeepsUnread(State(), newSize);
      if newSize < buffer.Length {
        return;
      }
      Rebase(newSize);
    }

    method AdjustBuffer()
      requires State().Shape() && ZeroFrom(buffer[..], writeIndex) && buffer.Length <= INT_MAX
      modifies this
      ensures Valid() && (buffer == old(buffer) || fresh(buffer))
      ensures State() == Adjusted(old(State()))
    {
      AdjustedIsFaithful(State());
      if readIndex < buffer.Length / 2 {
        return;
      }
      Rebase(buffer.Length);
    }

    method MoveReadIndex(size: nat)
      requires Valid()
      modifies this
      ensures Valid() && (buffer == old(buffer) || fresh(buffer))
      ensures State() == MovedRead(old(State()), size)
      ensures Unread() == if size <= |old(Unread())| then old(Unread())[size..] else old(Unread())
    {
      MoveReadDropsPrefix(State(), size);
      if readIndex + size > writeIndex {
        return;
      }
      readIndex := readIndex + size;
      AdjustBuffer();
    }

    /** Called after bytes have been placed behind the write index, so the zero tail may start late. */
    method MoveWriteIndex(size: nat)
      requires Movable(State(), size) && buffer.Length <= INT_MAX
      modifies this
      ensures Valid() && (buffer == old(buffer) || fresh(buffer))
      ensures State() == MovedWrite(old(State()), size)
    {
      if writeIndex + size > buffer.Length {
        return;
      }
      writeIndex := writeIndex + size;
      AdjustBuffer();
    }

    /** Copies bytes behind the write index without moving it. */
    method CopyIn(bytes: array<byte>)
      requires State().Shape() && bytes != buffer && bytes.Length <= WriteAble()
      modifies buffer
      ensures State() == Stored(old(State()), bytes[..])
      ensures bytes[..] == old(bytes[..])
    {
      forall k | 0 <= k < bytes.Length {
        buffer[writeIndex + k] := bytes[k];
      }
    }

    /** Copies bytes that fit behind the write index and moves it past them. */
    method Append(bytes: array<byte>)
      requires Valid() && bytes != buffer && bytes.Length <= WriteAble()
      modifies this, buffer
      ensures Valid() && (buffer == old(buffer) || fresh(buffer))
      ensures State() == Filled(old(State()), bytes[..])
      ensures bytes[..] == old(bytes[..])
    {
      StoredIsMovable(State(), bytes[..]);
      CopyIn(bytes);
      MoveWriteIndex(bytes.Length);
    }

    method WriteToBuffer(bytes: array<byte>)
      requires Valid() && bytes != buffer
      requires Half(writeIndex + bytes.Length) <= INT_MAX
      modifies this, buffer
      ensures Valid() && (buffer == old(buffer) || fresh(buffer))
      ensures State() == Written(old(State()), bytes[..])
      ensures Unread() == old(Unread()) + bytes[..]
      ensures bytes[..] == old(bytes[..])
    {
      ghost var was, content := State(), bytes[..];
      WriteAppends(was, content);
      GrowthMakesRoom(was, bytes.Length);
      if bytes.Length > WriteAble() {
        var newSize := Half(writeIndex + bytes.Length);
        ResizeBuffer(newSize);
      }
      assert State() == Grown(was, |content|);
      assert bytes[..] == content;
      Append(bytes);
      assert State() == Written(was, content);
    }

    /** Reads at most `size` bytes; an empty buffer leaves the caller's result as it was. */
    method ReadFromBuffer(result: seq<byte>, size: nat) returns (filled: seq<byte>)
      requires Valid()
      modifies this
      ensures Valid() && (buffer == old(buffer) || fresh(buffer))
      ensures filled + Unread() == if old(Unread()) == [] then result else old(Unread())
      ensures old(Unread()) != [] ==> |filled| == Least(size, |old(Unread())|)
    {
      if ReadAble() == 0 {
        return result;
      }
      var count := Least(ReadAble(), size);
      filled := buffer[readIndex..readIndex + count];
      assert Unread() == filled + Unread()[count..];
      MoveReadIndex(count);
    }
  }
}
