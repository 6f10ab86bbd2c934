/**
 The ring of frames with its two threads, step by step: only the wait for room, the wait for
 a frame and the changes of the size are under the mutex. The decoder thread fills a slot and
 moves the write index before it raises the size; the display releases a slot and moves the
 read index before it lowers it. Memory is sequentially consistent here.
 */
module FrameRingProtocol {

  import opened Wrappers
  import FrameRing

  /** Where the decoder thread is.
      - `Outside`: about to wait for room
      - `Woken`: past the wait, about to look at the abort request again
      - `Filling`: has been given a slot
      - `Filled`: about to move the write index
      - `Bumped`: has moved it, and is about to raise the size */
  datatype Writer = Outside | Woken | Filling(slot: nat) | Filled(picture: nat) | Bumped(picture: nat)

  /** Where the display is.
      - `Away`: about to look for a frame, or to wait for one
      - `Alerted`: past the wait, about to look at the abort request again
      - `Ready`: has seen that a frame is waiting
      - `Releasing`: about to release the first slot
      - `Released`: about to move the read index
      - `Moved`: has moved it, and is about to lower the size */
  datatype Reader = Away | Alerted | Ready | Releasing | Released | Moved

  /** No step reads `pushed`, `removed` and `displayed`: the pictures pushed, the number of slots
      given back, and what the display found when it moved on. */
  datatype State = State(
    max: nat,
    keepLast: bool,
    slots: seq<Option<nat>>,
    rindex: nat,
    windex: nat,
    size: int,
    shown: nat,
    aborted: bool,
    w: Writer,
    r: Reader,
    pushed: seq<nat>,
    removed: nat,
    displayed: seq<Option<nat>>)

  datatype Step =
    | AwaitRoom
    | CheckRoom
    | Fill(picture: nat)
    | MoveWindex
    | Grow
    | AwaitFrame
    | CheckFrame
    | Look
    | Take
    | Release
    | MoveRindex
    | Shrink
    | Abort

  function Init(max: nat, keepLast: bool): State {
    State(max, keepLast, seq(max, _ => None), 0, 0, 0, 0, false, Outside, Away, [], 0, [])
  }

  /** The indices are within the ring. */
  predicate Typed(s: State) {
    && 0 < s.max == |s.slots|
    && s.rindex < s.max && s.windex < s.max && s.shown <= 1
    && (s.w.Filling? ==> s.w.slot < s.max)
  }

  predicate Enabled(s: State, step: Step) {
    match step
    case AwaitRoom => s.w == Outside && (s.size < s.max || s.aborted)
    case CheckRoom => s.w == Woken
    case Fill(_) => s.w.Filling?
    case MoveWindex => s.w.Filled?
    case Grow => s.w.Bumped?
    case AwaitFrame => s.r == Away && (s.size - s.shown > 0 || s.aborted)
    case CheckFrame => s.r == Alerted
    case Look => s.r == Away && s.size - s.shown > 0
    case Take => s.r == Ready
    case Release => s.r == Releasing
    case MoveRindex => s.r == Released
    case Shrink => s.r == Moved
    case Abort => true
  }

  function Following(index: nat, max: nat): (r: nat)
    requires index < max
    ensures r < max
  {
    if index + 1 == max then 0 else index + 1
  }

  function Next(s: State, step: Step): (s': State)
    requires Typed(s) && Enabled(s, step)
    ensures Typed(s') && s'.max == s.max && s'.keepLast == s.keepLast
  {
    match step
    case AwaitRoom => s.(w := Woken)
    case CheckRoom => s.(w := if s.aborted then Outside else Filling(s.windex))
    case Fill(picture) => s.(slots := s.slots[s.w.slot := Some(picture)], w := Filled(picture))
    case MoveWindex => s.(windex := Following(s.windex, s.max), w := Bumped(s.w.picture))
    case Grow => s.(size := s.size + 1, w := Outside, pushed := s.pushed + [s.w.picture])
    case AwaitFrame => s.(r := Alerted)
    case CheckFrame => s.(r := if s.aborted then Away else Ready)
    case Look => s.(r := Ready)
    case Take =>
      var moved := s.(displayed := s.displayed + [s.slots[(s.rindex + s.shown) % s.max]]);
      if s.keepLast && s.shown == 0 then moved.(shown := 1, r := Away) else moved.(r := Releasing)
    case Release => s.(slots := s.slots[s.rindex := None], r := Released)
    case MoveRindex => s.(rindex := Following(s.rindex, s.max), r := Moved)
    case Shrink => s.(size := s.size - 1, r := Away, removed := s.removed + 1)
    case Abort => s.(aborted := true)
  }

  // ---------------------------------------------------------------- places in the ring

  /** The place of the `k`-th picture pushed. */
  function Place(k: nat, max: nat): (r: nat)
    requires max > 0
    ensures r < max
  {
    if k == 0 then 0 else Following(Place(k - 1, max), max)
  }

  lemma {:induction false} PlaceFurther(k: nat, d: nat, max: nat)
    requires 0 < max && d <= max
    ensures Place(k + d, max) == var p := Place(k, max) + d; if p < max then p else p - max
  {
    if d > 0 {
      PlaceFurther(k, d - 1, max);
      assert k + d - 1 == k + (d - 1);
    }
  }

  /** Pictures less than a whole ring apart are in different places. */
  lemma PlacesDiffer(a: nat, b: nat, max: nat)
    requires a < b < a + max
    ensures Place(a, max) != Place(b, max)
  {
    PlaceFurther(a, b - a, max);
    assert a + (b - a) == b;
  }

  /** No other picture less than a ring away is in the place of the `k`-th. */
  ghost predicate Alone(k: nat, max: nat) {
    max > 0 && forall j: nat :: j < k + max && k < j + max && j != k ==> Place(j, max) != Place(k, max)
  }

  lemma IsAlone(k: nat, max: nat)
    requires max > 0
    ensures Alone(k, max)
  {
    forall j: nat | j < k + max && k < j + max && j != k
      ensures Place(j, max) != Place(k, max)
    {
      if j < k {
        PlacesDiffer(j, k, max);
      } else {
        PlacesDiffer(k, j, max);
      }
    }
  }

  // ---------------------------------------------------------------- the invariant

  predicate Leaving(r: Reader) {
    r in {Releasing, Released, Moved}
  }

  ghost predicate SizesOk(s: State) {
    && s.size == |s.pushed| - s.removed && 0 <= s.size <= s.max
    && (s.shown == 1 ==> s.keepLast && s.size > 0)
    && (s.w == Woken ==> s.size < s.max || s.aborted)
    && (s.w.Filling? || s.w.Filled? || s.w.Bumped? ==> s.size < s.max)
    && (s.r == Alerted ==> s.size > s.shown || s.aborted)
    && (s.r == Ready || Leaving(s.r) ==> s.size > s.shown)
    && (Leaving(s.r) ==> !s.keepLast || s.shown == 1)
  }

  ghost predicate IndicesOk(s: State)
    requires Typed(s)
  {
    && s.windex == Place(|s.pushed| + if s.w.Bumped? then 1 else 0, s.max)
    && s.rindex == Place(s.removed + if s.r == Moved then 1 else 0, s.max)
    && (s.w.Filling? ==> s.w.slot == s.windex)
  }

  /** The first picture not released. */
  function FirstLive(s: State): nat {
    s.removed + if s.r == Released || s.r == Moved then 1 else 0
  }

  ghost predicate Holds(s: State, k: nat, picture: nat)
    requires Typed(s)
  {
    s.slots[Place(k, s.max)] == Some(picture)
  }

  ghost predicate SlotsOk(s: State)
    requires Typed(s)
  {
    && (forall k: nat :: FirstLive(s) <= k < |s.pushed| ==> Holds(s, k, s.pushed[k]))
    && (s.w.Filled? || s.w.Bumped? ==> Holds(s, |s.pushed|, s.w.picture))
  }

  ghost predicate DisplayedOk(s: State) {
    && |s.displayed| == s.removed + s.shown + (if Leaving(s.r) then 1 else 0)
    && |s.displayed| <= |s.pushed|
    && forall i :: 0 <= i < |s.displayed| ==> s.displayed[i] == Some(s.pushed[i])
  }

  ghost predicate Inv(s: State) {
    Typed(s) && SizesOk(s) && IndicesOk(s) && SlotsOk(s) && DisplayedOk(s)
  }

  /** The slot the display looks at is that of the first picture it has not moved past. */
  lemma Looks(s: State)
    requires Typed(s) && IndicesOk(s) && s.r != Moved
    ensures (s.rindex + s.shown) % s.max == Place(s.removed + s.shown, s.max)
  {
    FrameRing.Wrapped(s.rindex + s.shown, s.max);
    PlaceFurther(s.removed, s.shown, s.max);
  }

  lemma SizesKept(s: State, step: Step)
    requires Typed(s) && SizesOk(s) && Enabled(s, step)
    ensures SizesOk(Next(s, step))
  {
  }

  lemma IndicesKept(s: State, step: Step)
    requires Typed(s) && IndicesOk(s) && Enabled(s, step)
    ensures IndicesOk(Next(s, step))
  {
  }

  lemma FillKeepsSlots(s: State, picture: nat)
    requires Inv(s) && Enabled(s, Fill(picture))
    ensures SlotsOk(Next(s, Fill(picture)))
  {
    IsAlone(|s.pushed|, s.max);
    var s' := Next(s, Fill(picture));
    forall k: nat | FirstLive(s') <= k < |s'.pushed|
      ensures Holds(s', k, s'.pushed[k])
    {
      assert Holds(s, k, s.pushed[k]);
    }
  }

  lemma GrowKeepsSlots(s: State)
    requires Inv(s) && Enabled(s, Grow)
    ensures SlotsOk(Next(s, Grow))
  {
    var s' := Next(s, Grow);
    forall k: nat | FirstLive(s') <= k < |s'.pushed|
      ensures Holds(s', k, s'.pushed[k])
    {
      assert Holds(s, k, s'.pushed[k]);
    }
  }

  lemma ReleaseKeepsSlots(s: State)
    requires Inv(s) && Enabled(s, Release)
    ensures SlotsOk(Next(s, Release))
  {
    IsAlone(s.removed, s.max);
    var s' := Next(s, Release);
    forall k: nat | FirstLive(s') <= k < |s'.pushed|
      ensures Holds(s', k, s'.pushed[k])
    {
      assert Holds(s, k, s.pushed[k]);
    }
  }

  /** A step that leaves the slots alone, and moves the first live picture at most forward. */
  lemma SameSlots(s: State, s': State)
    requires Typed(s) && SlotsOk(s) && Typed(s')
    requires s'.max == s.max && s'.slots == s.slots && s'.pushed == s.pushed && FirstLive(s') >= FirstLive(s)
    requires s'.w == s.w || (s.w.Filled? && s'.w == Bumped(s.w.picture)) || !(s'.w.Filled? || s'.w.Bumped?)
    ensures SlotsOk(s')
  {
    forall k: nat | FirstLive(s') <= k < |s'.pushed|
      ensures Holds(s', k, s'.pushed[k])
    {
      assert Holds(s, k, s.pushed[k]);
    }
  }

  lemma SlotsKept(s: State, step: Step)
    requires Inv(s) && Enabled(s, step)
    ensures SlotsOk(Next(s, step))
  {
    match step
    case Fill(picture) => FillKeepsSlots(s, picture);
    case Grow => GrowKeepsSlots(s);
    case Release => ReleaseKeepsSlots(s);
    case _ => SameSlots(s, Next(s, step));
  }

  /** When the display moves on, it finds the first picture it has not moved past. */
  lemma TakeFinds(s: State)
    requires Inv(s) && s.r == Ready
    ensures s.removed + s.shown < |s.pushed|
    ensures s.slots[(s.rindex + s.shown) % s.max] == Some(s.pushed[s.removed + s.shown])
  {
    Looks(s);
    assert Holds(s, s.removed + s.shown, s.pushed[s.removed + s.shown]);
  }

  lemma DisplayedKept(s: State, step: Step)
    requires Inv(s) && Enabled(s, step)
    ensures DisplayedOk(Next(s, step))
  {
    if step == Take {
      TakeKeepsDisplayed(s);
    } else {
      assert Next(s, step).displayed == s.displayed;
    }
  }

  lemma TakeKeepsDisplayed(s: State)
    requires Inv(s) && Enabled(s, Take)
    ensures DisplayedOk(Next(s, Take))
  {
    TakeFinds(s);
  }

  lemma StepKeeps(s: State, step: Step)
    requires Inv(s) && Enabled(s, step)
    ensures Inv(Next(s, step))
  {
    SizesKept(s, step);
    IndicesKept(s, step);
    SlotsKept(s, step);
    DisplayedKept(s, step);
  }

  ghost predicate Run(s: State, steps: seq<Step>, end: State)
    decreases |steps|
  {
    if steps == [] then s == end
    else Typed(s) && Enabled(s, steps[0]) && Run(Next(s, steps[0]), steps[1..], end)
  }

  lemma {:induction false} RunKeeps(s: State, steps: seq<Step>, end: State)
    requires Inv(s) && Run(s, steps, end)
    ensures Inv(end)
    decreases |steps|
  {
    if steps != [] {
      StepKeeps(s, steps[0]);
      RunKeeps(Next(s, steps[0]), steps[1..], end);
    }
  }

  lemma {:induction false} SameRing(s: State, steps: seq<Step>, end: State)
    requires Run(s, steps, end)
    ensures end.max == s.max && end.keepLast == s.keepLast
    decreases |steps|
  {
    if steps != [] {
      SameRing(Next(s, steps[0]), steps[1..], end);
    }
  }

  // ---------------------------------------------------------------- what every run keeps

  /** In every interleaving: the display finds the pictures pushed, each once and in order; the
      size never exceeds the capacity; and the slot being filled is neither the one on display
      nor any that waits. */
  lemma RunsAreSafe(max: nat, keepLast: bool, steps: seq<Step>, s: State)
    requires max > 0 && Run(Init(max, keepLast), steps, s)
    ensures 0 <= s.size <= max && |s.displayed| <= |s.pushed|
    ensures forall i :: 0 <= i < |s.displayed| ==> s.displayed[i] == Some(s.pushed[i])
    ensures s.w.Filling? ==>
      forall k: nat :: s.removed <= k < |s.pushed| ==> s.w.slot != Place(k, max)
  {
    SameRing(Init(max, keepLast), steps, s);
    RunKeeps(Init(max, keepLast), steps, s);
    IsAlone(|s.pushed|, s.max);
  }

  /** In every interleaving, a ring that keeps its last frame has it at the read index, whatever
      the decoder thread is writing, until the display itself releases it. */
  lemma LastStaysOnDisplay(max: nat, keepLast: bool, steps: seq<Step>, s: State)
    requires max > 0 && Run(Init(max, keepLast), steps, s)
    requires s.shown == 1 && s.r in {Away, Alerted, Ready}
    ensures Typed(s) && s.displayed != [] && s.slots[s.rindex] == s.displayed[|s.displayed| - 1]
  {
    RunKeeps(Init(max, keepLast), steps, s);
    assert Holds(s, s.removed, s.pushed[s.removed]);
  }

  ghost predicate KeepsOk(s: State) {
    s.keepLast && s.shown == 0 ==> s.removed == 0 && !Leaving(s.r)
  }

  lemma {:induction false} RunKeepsLast(s: State, steps: seq<Step>, end: State)
    requires Inv(s) && KeepsOk(s) && Run(s, steps, end)
    ensures KeepsOk(end)
    decreases |steps|
  {
    if steps != [] {
      StepKeeps(s, steps[0]);
      RunKeepsLast(Next(s, steps[0]), steps[1..], end);
    }
  }

  /** In every interleaving a frame is on display exactly if the ring keeps its last one and the
      display has found any. */
  lemma ShownExactly(max: nat, keepLast: bool, steps: seq<Step>, s: State)
    requires max > 0 && Run(Init(max, keepLast), steps, s)
    ensures s.shown == 1 <==> keepLast && s.displayed != []
  {
    SameRing(Init(max, keepLast), steps, s);
    RunKeeps(Init(max, keepLast), steps, s);
    RunKeepsLast(Init(max, keepLast), steps, s);
  }

  /** Neither thread can take a step. */
  ghost predicate Stuck(s: State) {
    forall step :: Enabled(s, step) ==> step == Abort
  }

  /** The two threads wait for each other exactly when a ring of one slot keeps its only frame
      on display, and nothing has been aborted. */
  lemma StuckExactly(max: nat, keepLast: bool, steps: seq<Step>, s: State)
    requires max > 0 && Run(Init(max, keepLast), steps, s)
    ensures Stuck(s) <==> max == 1 && s.shown == 1 && s.w == Outside && s.r == Away && !s.aborted
  {
    SameRing(Init(max, keepLast), steps, s);
    RunKeeps(Init(max, keepLast), steps, s);
    if !(s.max == 1 && s.shown == 1 && s.w == Outside && s.r == Away && !s.aborted) {
      var step := ThreadStep(s);
    }
  }

  lemma ThreadStep(s: State) returns (step: Step)
    requires Inv(s)
    requires !(s.max == 1 && s.shown == 1 && s.w == Outside && s.r == Away && !s.aborted)
    ensures Enabled(s, step) && step != Abort
  {
    match s.w
    case Woken => step := CheckRoom;
    case Filling(_) => step := Fill(0);
    case Filled(_) => step := MoveWindex;
    case Bumped(_) => step := Grow;
    case Outside =>
      step := match s.r
        case Away => if s.size < s.max then AwaitRoom else AwaitFrame
        case Alerted => CheckFrame
        case Ready => Take
        case Releasing => Release
        case Released => MoveRindex
        case Moved => Shrink;
  }

  /** So no ring of two or more slots, and none that keeps no frame, ever gets stuck. */
  lemma NeverStuck(max: nat, keepLast: bool, steps: seq<Step>, s: State)
    requires Run(Init(max, keepLast), steps, s)
    requires max > 1 || (max == 1 && !keepLast)
    ensures !Stuck(s)
  {
    SameRing(Init(max, keepLast), steps, s);
    RunKeeps(Init(max, keepLast), steps, s);
    StuckExactly(max, keepLast, steps, s);
  }

  // ---------------------------------------------------------------- nothing is dropped

  /** The pictures filled in, in order. */
  function FilledIn(steps: seq<Step>): seq<nat> {
    if steps == [] then [] else (if steps[0].Fill? then [steps[0].picture] else []) + FilledIn(steps[1..])
  }

  /** The picture filled in but not yet in the ring. */
  function InHand(w: Writer): seq<nat> {
    if w.Filled? || w.Bumped? then [w.picture] else []
  }

  /** How often the display has moved on. */
  function Takes(steps: seq<Step>): nat {
    if steps == [] then 0 else (if steps[0].Take? then 1 else 0) + Takes(steps[1..])
  }

  lemma StepHands(s: State, step: Step)
    requires Typed(s) && Enabled(s, step)
    ensures Next(s, step).pushed + InHand(Next(s, step).w) ==
      s.pushed + InHand(s.w) + if step.Fill? then [step.picture] else []
    ensures |Next(s, step).displayed| == |s.displayed| + if step.Take? then 1 else 0
  {
    assert s.pushed + InHand(s.w) + [] == s.pushed + InHand(s.w);
    if step.Fill? {
      assert s.pushed + [] + [step.picture] == s.pushed + [step.picture];
    }
  }

  /** Every picture filled in is pushed, in order, but for the one in hand; the display finds one
      each time it moves on. */
  lemma {:induction false} EveryPicturePushed(s: State, steps: seq<Step>, end: State)
    requires Run(s, steps, end)
    ensures end.pushed + InHand(end.w) == s.pushed + InHand(s.w) + FilledIn(steps)
    ensures |end.displayed| == |s.displayed| + Takes(steps)
    decreases |steps|
  {
    if steps == [] {
      assert s.pushed + InHand(s.w) + [] == s.pushed + InHand(s.w);
    } else {
      var first := if steps[0].Fill? then [steps[0].picture] else [];
      StepHands(s, steps[0]);
      EveryPicturePushed(Next(s, steps[0]), steps[1..], end);
      var had, later := s.pushed + InHand(s.w), FilledIn(steps[1..]);
      assert had + first + later == had + (first + later);
    }
  }

  // ---------------------------------------------------------------- what calls are answered, and what is released

  /** The calls answered with a frame: a look, or a wait that ends before any abort. */
  function GivenFrames(steps: seq<Step>, aborted: bool): nat {
    if steps == [] then 0
    else
      (if steps[0].Look? || (steps[0].CheckFrame? && !aborted) then 1 else 0)
      + GivenFrames(steps[1..], aborted || steps[0].Abort?)
  }

  /** The calls answered with a slot. */
  function GivenSlots(steps: seq<Step>, aborted: bool): nat {
    if steps == [] then 0
    else
      (if steps[0].CheckRoom? && !aborted then 1 else 0) + GivenSlots(steps[1..], aborted || steps[0].Abort?)
  }

  /** Every wait that ends before an abort, and every look, gives a frame, which is then taken; every
      wait for room that ends before an abort gives a slot, which is then filled; no other call gives
      anything. */
  lemma {:induction false} CallsAnswered(s: State, steps: seq<Step>, end: State)
    requires Run(s, steps, end)
    ensures Takes(steps) + (if end.r == Ready then 1 else 0) ==
      GivenFrames(steps, s.aborted) + (if s.r == Ready then 1 else 0)
    ensures |FilledIn(steps)| + (if end.w.Filling? then 1 else 0) ==
      GivenSlots(steps, s.aborted) + (if s.w.Filling? then 1 else 0)
    ensures end.aborted <==> s.aborted || Abort in steps
    decreases |steps|
  {
    if steps != [] {
      CallsAnswered(Next(s, steps[0]), steps[1..], end);
      assert Abort in steps <==> steps[0] == Abort || Abort in steps[1..];
    }
  }

  /** An abort is possible at any time, and after it neither thread waits. */
  lemma AbortFrees(max: nat, keepLast: bool, steps: seq<Step>, s: State)
    requires max > 0 && Run(Init(max, keepLast), steps, s)
    ensures Enabled(s, Abort) && Typed(s)
    ensures var a := Next(s, Abort);
      && (a.w == Outside ==> Enabled(a, AwaitRoom)) && (a.r == Away ==> Enabled(a, AwaitFrame))
      && !Stuck(a)
  {
    RunKeeps(Init(max, keepLast), steps, s);
    var a := Next(s, Abort);
    StepKeeps(s, Abort);
    var step := ThreadStep(a);
  }

  /** The pictures not released, the one in hand included. */
  ghost predicate Held(s: State, j: nat, k: nat) {
    s.max > 0 && FirstLive(s) <= k < |s.pushed| + (if s.w.Filled? || s.w.Bumped? then 1 else 0) && Place(k, s.max) == j
  }

  /** A slot that holds a picture holds one that has not been released. */
  ghost predicate OnlyHeld(s: State) {
    forall j: nat :: j < |s.slots| && s.slots[j].Some? ==> exists k: nat :: Held(s, j, k)
  }

  lemma OnlyHeldKept(s: State, step: Step)
    requires Inv(s) && Enabled(s, step) && OnlyHeld(s)
    ensures OnlyHeld(Next(s, step))
  {
    var s' := Next(s, step);
    forall j: nat | j < |s'.slots| && s'.slots[j].Some?
      ensures exists k: nat :: Held(s', j, k)
    {
      if step.Fill? && j == s.w.slot {
        assert Held(s', j, |s.pushed|);
      } else {
        var k: nat :| Held(s, j, k);
        assert Held(s', j, k);
      }
    }
  }

  lemma {:induction false} RunHolds(s: State, steps: seq<Step>, end: State)
    requires Inv(s) && OnlyHeld(s) && Run(s, steps, end)
    ensures OnlyHeld(end)
    decreases |steps|
  {
    if steps != [] {
      StepKeeps(s, steps[0]);
      OnlyHeldKept(s, steps[0]);
      RunHolds(Next(s, steps[0]), steps[1..], end);
    }
  }

  /** In every interleaving a slot holds a picture exactly if that was filled in and not yet
      released: nothing is kept that has been moved past. */
  lemma HoldsExactly(max: nat, keepLast: bool, steps: seq<Step>, s: State, j: nat)
    requires max > 0 && Run(Init(max, keepLast), steps, s) && j < max
    ensures |s.slots| == s.max == max
    ensures s.slots[j].Some? <==> exists k: nat :: Held(s, j, k)
  {
    SameRing(Init(max, keepLast), steps, s);
    RunKeeps(Init(max, keepLast), steps, s);
    RunHolds(Init(max, keepLast), steps, s);
    forall k: nat | Held(s, j, k)
      ensures s.slots[j].Some?
    {
      if k < |s.pushed| {
        assert Holds(s, k, s.pushed[k]);
      }
    }
  }

  // ---------------------------------------------------------------- all calls end

  function WriterLeft(w: Writer): nat {
    match w
    case Outside => 0
    case Bumped(_) => 1
    case Filled(_) => 2
    case Filling(_) => 3
    case Woken => 4
  }

  function ReaderLeft(r: Reader): nat {
    match r
    case Away => 0
    case Moved => 1
    case Released => 2
    case Releasing => 3
    case Ready => 4
    case Alerted => 5
  }

  /** The number of calls begun: a wait for room, a wait or a look for a frame, an abort. */
  function Calls(steps: seq<Step>): nat {
    if steps == [] then 0
    else
      (if steps[0].AwaitRoom? || steps[0].AwaitFrame? || steps[0].Look? || steps[0].Abort? then 1 else 0)
      + Calls(steps[1..])
  }

  lemma StepLeaves(s: State, step: Step)
    requires Typed(s) && Enabled(s, step)
    ensures WriterLeft(Next(s, step).w) + ReaderLeft(Next(s, step).r) + 1 <=
      WriterLeft(s.w) + ReaderLeft(s.r) +
      if step.AwaitRoom? || step.AwaitFrame? || step.Look? || step.Abort? then 6 else 0
  {
  }

  lemma {:induction false} RunLeaves(s: State, steps: seq<Step>, end: State)
    requires Run(s, steps, end)
    ensures WriterLeft(end.w) + ReaderLeft(end.r) + |steps| <= WriterLeft(s.w) + ReaderLeft(s.r) + 6 * Calls(steps)
    decreases |steps|
  {
    if steps != [] {
      StepLeaves(s, steps[0]);
      RunLeaves(Next(s, steps[0]), steps[1..], end);
    }
  }

  /** No call goes on for ever: a run has at most six steps for each. */
  lemma CallsEnd(max: nat, keepLast: bool, steps: seq<Step>, s: State)
    requires Run(Init(max, keepLast), steps, s)
    ensures |steps| <= 6 * Calls(steps)
  {
    RunLeaves(Init(max, keepLast), steps, s);
  }

  // ---------------------------------------------------------------- a ring that gets stuck

  /** A ring of one slot before its first frame is shown. */
  function Single(slot: Option<nat>, w: Writer, size: int, pushed: seq<nat>): State {
    State(1, true, [slot], 0, 0, size, 0, false, w, Away, pushed, 0, [])
  }

  lemma FillsOnly() returns (steps: seq<Step>)
    ensures Run(Single(None, Filling(0), 0, []), steps, Single(Some(7), Outside, 1, [7]))
  {
    var s := Single(Some(7), Outside, 1, [7]);
    steps := RunOne(Single(Some(7), Bumped(7), 0, []), Grow, [], s);
    steps := RunOne(Single(Some(7), Filled(7), 0, []), MoveWindex, steps, s);
    steps := RunOne(Single(None, Filling(0), 0, []), Fill(7), steps, s);
  }

  lemma ShowsOnly() returns (steps: seq<Step>, s: State)
    ensures Run(Single(Some(7), Outside, 1, [7]), steps, s) && Stuck(s)
  {
    var full := Single(Some(7), Outside, 1, [7]);
    s := full.(shown := 1, displayed := [Some(7)]);
    steps := RunOne(full.(r := Ready), Take, [], s);
    steps := RunOne(full, Look, steps, s);
  }

  /** A ring of one slot that keeps its last frame is stuck after the first. */
  lemma GetsStuck() returns (steps: seq<Step>, s: State)
    ensures Run(Init(1, true), steps, s) && Stuck(s)
  {
    var filling := FillsOnly();
    var showing;
    showing, s := ShowsOnly();
    RunBoth(Single(None, Filling(0), 0, []), filling, Single(Some(7), Outside, 1, [7]), showing, s);
    assert Init(1, true).slots == [None];
    steps := RunOne(Single(None, Woken, 0, []), CheckRoom, filling + showing, s);
    steps := RunOne(Single(None, Outside, 0, []), AwaitRoom, steps, s);
  }

  lemma {:induction false} RunBoth(s: State, first: seq<Step>, middle: State, second: seq<Step>, end: State)
    requires Run(s, first, middle) && Run(middle, second, end)
    ensures Run(s, first + second, end)
    decreases |first|
  {
    if first == [] {
      assert first + second == second;
    } else {
      RunBoth(Next(s, first[0]), first[1..], middle, second, end);
      assert (first + second)[1..] == first[1..] + second;
    }
  }

  lemma RunOne(s: State, step: Step, steps: seq<Step>, end: State) returns (all: seq<Step>)
    requires Typed(s) && Enabled(s, step) && Run(Next(s, step), steps, end)
    ensures all == [step] + steps && Run(s, all, end)
  {
    all := [step] + steps;
    assert all[1..] == steps;
  }
}
