/**
 The ring of decoded frames between a decoder thread and the display. One thread looks for
 a free slot, fills it and pushes; the other peeks and moves on. When the ring keeps its
 last frame, the frame on display stays in the ring until its successor is shown.
 */
module FrameRing {

  import opened Wrappers

  const VIDEO_PICTURE_QUEUE_SIZE: nat := 3
  const SUBPICTURE_QUEUE_SIZE: nat := 16
  const SAMPLE_QUEUE_SIZE: nat := 9

  function Max(a: nat, b: nat): nat {
    if a > b then a else b
  }

  const FRAME_QUEUE_SIZE: nat := Max(SAMPLE_QUEUE_SIZE, Max(VIDEO_PICTURE_QUEUE_SIZE, SUBPICTURE_QUEUE_SIZE))

  /** A slot; `picture` is absent once its data has been released. */
  datatype Frame = Frame(serial: int, pos: int, picture: Option<nat>)

  const EMPTY_FRAME := Frame(0, 0, None)

  // ---------------------------------------------------------------- what the ring stands for

  /** The frame last shown, if the ring keeps it, and the frames waiting to be shown. */
  datatype Ring = Ring(keepLast: bool, last: Option<Frame>, pending: seq<Frame>)

  function Pushed(r: Ring, f: Frame): Ring {
    r.(pending := r.pending + [f])
  }

  function Advanced(r: Ring): Ring
    requires r.pending != []
  {
    Ring(r.keepLast, if r.keepLast then Some(r.pending[0]) else None, r.pending[1..])
  }

  /** Every kind of queue fits into the array. */
  lemma LargestQueue()
    ensures VIDEO_PICTURE_QUEUE_SIZE <= FRAME_QUEUE_SIZE && SUBPICTURE_QUEUE_SIZE <= FRAME_QUEUE_SIZE
    ensures SAMPLE_QUEUE_SIZE <= FRAME_QUEUE_SIZE == 16
  {
  }

  /** The number of slots taken. */
  function Taken(r: Ring): nat {
    |r.pending| + if r.last.Some? then 1 else 0
  }

  // ---------------------------------------------------------------- arithmetic on the ring

  lemma Wrapped(i: nat, n: nat)
    requires 0 < n && i < 2 * n
    ensures i % n == if i < n then i else i - n
  {
  }

  /** The slot `k` places after `start` in a ring of `n`. */
  function Slot(start: nat, k: nat, n: nat): (r: nat)
    requires 0 < n && start < n && k <= n
    ensures r == (start + k) % n < n
    ensures k < n ==> (r == start <==> k == 0)
  {
    Wrapped(start + k, n);
    if start + k < n then start + k else start + k - n
  }

  lemma SlotsDiffer(start: nat, n: nat)
    requires 0 < n && start < n
    ensures forall j: nat, k: nat :: j < k < n ==> Slot(start, j, n) != Slot(start, k, n)
    ensures forall k: nat :: 0 < k < n ==> Slot(start, k, n) == Slot(Slot(start, 1, n), k - 1, n)
  {
  }

  class FrameQueue {
    var queue: array<Frame>
    var rindex: nat
    var windex: nat
    var size: nat
    var maxSize: nat
    var keepLast: bool
    var rindexShown: nat

    ghost predicate Valid()
      reads this
    {
      && queue.Length == FRAME_QUEUE_SIZE
      && 0 < maxSize <= FRAME_QUEUE_SIZE
      && rindex < maxSize && windex < maxSize && size <= maxSize
      && windex == (rindex + size) % maxSize
      && rindexShown <= 1
      && (rindexShown == 1 ==> keepLast && size > 0)
    }

    /** The `k`-th frame in the ring. */
    ghost function Nth(k: nat): Frame
      requires Valid() && k < maxSize
      reads this, queue
    {
      queue[Slot(rindex, k, maxSize)]
    }

    ghost function Contents(): (r: seq<Frame>)
      requires Valid()
      reads this, queue
      ensures |r| == size
    {
      seq(size, k requires 0 <= k < size reads this, queue requires Valid() => Nth(k))
    }

    ghost function Abstract(): Ring
      requires Valid()
      reads this, queue
    {
      Ring(keepLast, if rindexShown == 1 then Some(Contents()[0]) else None, Contents()[rindexShown..])
    }

    constructor (max: nat, keep: bool)
      requires max > 0
      ensures Valid() && fresh(queue)
      ensures Abstract() == Ring(keep, None, [])
      ensures maxSize == if max < FRAME_QUEUE_SIZE then max else FRAME_QUEUE_SIZE
    {
      queue := new Frame[FRAME_QUEUE_SIZE](_ => EMPTY_FRAME);
      rindex, windex, size, rindexShown := 0, 0, 0, 0;
      maxSize := if max < FRAME_QUEUE_SIZE then max else FRAME_QUEUE_SIZE;
      keepLast := keep;
    }

    /** The next frame to show. */
    method Peek() returns (f: Frame)
      requires Valid() && Abstract().pending != []
      ensures f == Abstract().pending[0]
    {
      f := queue[(rindex + rindexShown) % maxSize];
      assert f == Contents()[rindexShown];
    }

    /** The one after it. */
    method PeekNext() returns (f: Frame)
      requires Valid() && |Abstract().pending| > 1
      ensures f == Abstract().pending[1]
    {
      f := queue[(rindex + rindexShown + 1) % maxSize];
      assert f == Contents()[rindexShown + 1];
    }

    /** The frame on display; before the first is shown, the next one. */
    method PeekLast() returns (f: Frame)
      requires Valid() && size > 0
      ensures f == if Abstract().last.Some? then Abstract().last.value else Abstract().pending[0]
    {
      f := queue[rindex];
      assert f == Contents()[0];
    }

    /** The size counts the frame kept on display and the frames waiting. */
    lemma SizeIsTaken()
      requires Valid()
      ensures size == Taken(Abstract())
    {
    }

    /** The slot to fill next, once there is room; none when the packet queue is aborted. It is
        no slot that holds a frame. */
    method PeekWritable(aborted: bool) returns (slot: Option<nat>)
      requires Valid() && (size < maxSize || aborted)
      ensures aborted <==> slot.None?
      ensures slot.Some? ==>
        slot.value == windex && forall k :: 0 <= k < size ==> slot.value != Slot(rindex, k, maxSize)
    {
      if aborted {
        return None;
      }
      SlotsDiffer(rindex, maxSize);
      assert windex == Slot(rindex, size, maxSize);
      slot := Some(windex);
    }

    /** The frame to show next, once there is one; none when the packet queue is aborted. */
    method PeekReadable(aborted: bool) returns (f: Option<Frame>)
      requires Valid() && (Abstract().pending != [] || aborted)
      ensures f == if aborted then None else Some(Abstract().pending[0])
    {
      if aborted {
        return None;
      }
      var first := Peek();
      f := Some(first);
    }

    /** Filling the writable slot disturbs no frame in the ring. */
    method Fill(f: Frame)
      requires Valid() && size < maxSize
      modifies queue
      ensures Valid() && Abstract() == old(Abstract()) && queue[windex] == f
    {
      ghost var before := Contents();
      SlotsDiffer(rindex, maxSize);
      assert windex == Slot(rindex, size, maxSize);
      queue[windex] := f;
      assert Contents() == before;
    }

    /** Makes the filled slot the last frame waiting. */
    method Push()
      requires Valid() && size < maxSize
      modifies this`windex, this`size
      ensures Valid() && Abstract() == Pushed(old(Abstract()), old(queue[windex]))
    {
      ghost var before, written := Contents(), queue[windex];
      assert windex == Slot(rindex, size, maxSize);
      windex := windex + 1;
      if windex == maxSize {
        windex := 0;
      }
      size := size + 1;
      assert windex == Slot(rindex, size, maxSize);
      assert Contents() == before + [written];
    }

    /** Moves on to the next frame: it becomes the one on display, and the one displayed before
        it is released. The writable slot stays what it was. */
    method Next()
      requires Valid() && Abstract().pending != []
      modifies this`rindex, this`size, this`rindexShown, queue
      ensures Valid() && Abstract() == Advanced(old(Abstract()))
      ensures old(size) < maxSize ==> queue[windex] == old(queue[windex])
    {
      if keepLast && rindexShown == 0 {
        ghost var before := Contents();
        rindexShown := 1;
        assert Contents() == before;
        return;
      }
      ReleaseFirst();
    }

    /** Releases the first frame of the ring and moves past it. */
    method ReleaseFirst()
      requires Valid() && size > rindexShown
      modifies this`rindex, this`size, queue
      ensures Valid() && Contents() == old(Contents())[1..]
      ensures old(size) < maxSize ==> queue[windex] == old(queue[windex])
    {
      ghost var before, start := Contents(), rindex;
      SlotsDiffer(rindex, maxSize);
      assert windex == Slot(rindex, size, maxSize);
      queue[rindex] := queue[rindex].(picture := None);
      rindex := rindex + 1;
      if rindex == maxSize {
        rindex := 0;
      }
      assert rindex == Slot(start, 1, maxSize);
      size := size - 1;
      assert windex == Slot(rindex, size, maxSize);
      assert Contents() == before[1..];
    }

    method NbRemaining() returns (n: int)
      requires Valid()
      ensures n == |Abstract().pending|
    {
      n := size - rindexShown;
    }

    /** The position of the frame on display, if it is of the packet queue's serial. */
    method LastPos(serial: int) returns (pos: int)
      requires Valid()
      ensures pos ==
        if Abstract().last.Some? && Abstract().last.value.serial == serial then Abstract().last.value.pos else -1
    {
      assert size > 0 ==> queue[rindex] == Contents()[0];
      if rindexShown != 0 && queue[rindex].serial == serial {
        pos := queue[rindex].pos;
      } else {
        pos := -1;
      }
    }
  }

  // ---------------------------------------------------------------- whole runs

  datatype Step = Push(f: Frame) | Advance

  /** The frames pushed in a run, and those that have been moved past. */
  datatype Trace = Trace(ring: Ring, pushed: seq<Frame>, shown: seq<Frame>)

  predicate Enabled(t: Trace, capacity: nat, step: Step) {
    match step
    case Push(_) => Taken(t.ring) < capacity
    case Advance => t.ring.pending != []
  }

  function After(t: Trace, capacity: nat, step: Step): Trace
    requires Enabled(t, capacity, step)
  {
    match step
    case Push(f) => Trace(Pushed(t.ring, f), t.pushed + [f], t.shown)
    case Advance => Trace(Advanced(t.ring), t.pushed, t.shown + [t.ring.pending[0]])
  }

  ghost predicate Run(t: Trace, capacity: nat, steps: seq<Step>, end: Trace)
    decreases |steps|
  {
    if steps == [] then t == end
    else Enabled(t, capacity, steps[0]) && Run(After(t, capacity, steps[0]), capacity, steps[1..], end)
  }

  /** First in, first out: the frames shown and the frames waiting are together the frames
      pushed, in order; the frame kept is the last one shown; the capacity is never exceeded. */
  ghost predicate Fifo(t: Trace, capacity: nat) {
    && t.pushed == t.shown + t.ring.pending
    && t.ring.last == (if t.ring.keepLast && t.shown != [] then Some(t.shown[|t.shown| - 1]) else None)
    && Taken(t.ring) <= capacity
  }

  lemma {:induction false} RunIsFifo(t: Trace, capacity: nat, steps: seq<Step>, end: Trace)
    requires Fifo(t, capacity) && Run(t, capacity, steps, end)
    ensures Fifo(end, capacity)
    decreases |steps|
  {
    if steps != [] {
      var next := After(t, capacity, steps[0]);
      assert next.pushed == next.shown + next.ring.pending;
      RunIsFifo(next, capacity, steps[1..], end);
    }
  }
}
