/**
 Copies of a stream: `n` children share one source through a linked list of cells that
 are filled once. Each child belongs to one goroutine; the goroutines interleave freely
 between the atomic steps below.
 */
module StreamCopy {

  import opened Wrappers

  /** What the source returns from one call: a chunk, an error other than the end, or the end. */
  datatype Item<+T> = Chunk(value: T) | Fault(code: int) | Eof

  datatype Once = Fresh | Running(runner: nat) | Finished

  datatype Cell<+T> = Cell(once: Once, item: Option<Item<T>>, next: Option<nat>)

  /** Where a child's goroutine is.
      - `AtOnce(c)`: has loaded its current cell and reached the cell's once
      - `Pulling(c)`: inside the once, its call of the source's Recv not yet returned
      - `Filled(c)`: inside the once, the result stored, the next cell not yet linked
      - `PastOnce(c)`: the once is behind it, the item about to be read
      - `Closing`: its slot is cleared, the counter not yet incremented
      - `LastOut`: its increment reached `n`, the source not yet closed */
  datatype Pc = Idle | AtOnce(c: nat) | Pulling(c: nat) | Filled(c: nat) | PastOnce(c: nat) | Closing | LastOut

  datatype Reply<+T> = Received(item: Item<T>) | RecvAfterClosed

  /** The shared memory, plus three logs that no step reads: what the source has returned,
      how often it was closed, and what each child was told. */
  datatype State<+T> = State(
    cells: seq<Cell<T>>,
    slots: seq<Option<nat>>,
    closedNum: nat,
    pcs: seq<Pc>,
    pulled: seq<Item<T>>,
    closes: nat,
    replies: seq<seq<Reply<T>>>)

  datatype Step<+T> =
    | StartRecv(i: nat)
    | EnterOnce(i: nat)
    | SourceReturns(i: nat, item: Item<T>)
    | LeaveOnce(i: nat)
    | SkipOnce(i: nat)
    | Deliver(i: nat)
    | StartClose(i: nat)
    | Count(i: nat)
    | CloseSource(i: nat)

  function NewCell<T>(): Cell<T> {
    Cell(Fresh, None, None)
  }

  function Init<T>(n: nat): State<T> {
    State([NewCell()], seq(n, _ => Some(0)), 0, seq(n, _ => Idle), [], 0, seq(n, _ => []))
  }

  predicate Enabled<T(==)>(s: State<T>, step: Step<T>)
    requires |s.slots| == |s.pcs| == |s.replies|
  {
    && step.i < |s.pcs|
    && match step
       case StartRecv(i) => s.pcs[i] == Idle
       case EnterOnce(i) => s.pcs[i].AtOnce? && s.pcs[i].c < |s.cells| && s.cells[s.pcs[i].c].once == Fresh
       case SourceReturns(i, _) => s.pcs[i].Pulling? && s.pcs[i].c < |s.cells|
       case LeaveOnce(i) => s.pcs[i].Filled? && s.pcs[i].c < |s.cells| && s.cells[s.pcs[i].c].item.Some?
       case SkipOnce(i) => s.pcs[i].AtOnce? && s.pcs[i].c < |s.cells| && s.cells[s.pcs[i].c].once == Finished
       case Deliver(i) => s.pcs[i].PastOnce? && s.pcs[i].c < |s.cells| && s.cells[s.pcs[i].c].item.Some?
       case StartClose(i) => s.pcs[i] == Idle
       case Count(i) => s.pcs[i] == Closing
       case CloseSource(i) => s.pcs[i] == LastOut
  }

  /** The atomic steps of recv and close, in the order the code takes them. */
  function Next<T>(s: State<T>, step: Step<T>): (s': State<T>)
    requires |s.slots| == |s.pcs| == |s.replies| && Enabled(s, step)
    ensures |s'.slots| == |s'.pcs| == |s'.replies| == |s.pcs|
  {
    var i := step.i;
    match step
    case StartRecv(_) =>
      if s.slots[i].None? then s.(replies := s.replies[i := s.replies[i] + [RecvAfterClosed]])
      else s.(pcs := s.pcs[i := AtOnce(s.slots[i].value)])
    case EnterOnce(_) =>
      var c := s.pcs[i].c;
      s.(cells := s.cells[c := s.cells[c].(once := Running(i))], pcs := s.pcs[i := Pulling(c)])
    case SourceReturns(_, item) =>
      var c := s.pcs[i].c;
      s.(cells := s.cells[c := s.cells[c].(item := Some(item))],
         pcs := s.pcs[i := Filled(c)],
         pulled := s.pulled + [item])
    case LeaveOnce(_) =>
      var c := s.pcs[i].c;
      var end := |s.cells|;
      if s.cells[c].item.value.Eof? then
        s.(cells := s.cells[c := s.cells[c].(once := Finished)], pcs := s.pcs[i := PastOnce(c)])
      else
        s.(cells := s.cells[c := s.cells[c].(once := Finished, next := Some(end))] + [NewCell()],
           slots := s.slots[i := Some(end)],
           pcs := s.pcs[i := PastOnce(c)])
    case SkipOnce(_) => s.(pcs := s.pcs[i := PastOnce(s.pcs[i].c)])
    case Deliver(_) =>
      var cell := s.cells[s.pcs[i].c];
      var told := s.(pcs := s.pcs[i := Idle], replies := s.replies[i := s.replies[i] + [Received(cell.item.value)]]);
      if cell.item.value.Eof? then told else told.(slots := s.slots[i := cell.next])
    case StartClose(_) =>
      if s.slots[i].None? then s else s.(slots := s.slots[i := None], pcs := s.pcs[i := Closing])
    case Count(_) =>
      s.(closedNum := s.closedNum + 1, pcs := s.pcs[i := if s.closedNum + 1 == |s.slots| then LastOut else Idle])
    case CloseSource(_) => s.(closes := s.closes + 1, pcs := s.pcs[i := Idle])
  }

  // ---------------------------------------------------------------- the invariant

  ghost predicate Shape<T>(s: State<T>) {
    && |s.slots| == |s.pcs| == |s.replies|
    && |s.cells| >= 1
    && |s.pulled| <= |s.cells| <= |s.pulled| + 1
  }

  /** All cells but the last are finished and linked to their successor; the items of the
      filled ones are what the source returned, in order, and only the last can be the end. */
  ghost predicate Chain<T>(s: State<T>)
    requires Shape(s)
  {
    var last := |s.cells| - 1;
    && (forall k :: 0 <= k < last ==> s.cells[k].once == Finished && s.cells[k].next == Some(k + 1))
    && (forall k :: 0 <= k < |s.cells| ==> s.cells[k].item == if k < |s.pulled| then Some(s.pulled[k]) else None)
    && (forall k :: 0 <= k < last ==> !s.pulled[k].Eof?)
    && s.cells[last].next == None
    && (s.cells[last].once == Fresh ==> |s.pulled| == last)
    && (s.cells[last].once == Finished ==> |s.pulled| == last + 1 && s.pulled[last].Eof?)
    && (s.cells[last].once.Running? ==>
          var r := s.cells[last].once.runner;
          r < |s.pcs| && s.pcs[r] == if |s.pulled| == last then Pulling(last) else Filled(last))
  }

  /** The number of cells a child has been told about, the end counted once. */
  function Position<T>(s: State<T>, i: nat): nat
    requires Shape(s) && i < |s.pcs|
  {
    match s.pcs[i]
    case AtOnce(c) => c
    case Pulling(c) => c
    case Filled(c) => c
    case PastOnce(c) => c
    case _ => if s.slots[i].Some? then s.slots[i].value else 0
  }

  predicate InRecv(pc: Pc) {
    pc.AtOnce? || pc.Pulling? || pc.Filled? || pc.PastOnce?
  }

  ghost predicate ChildOk<T>(s: State<T>, i: nat)
    requires Shape(s) && i < |s.pcs|
  {
    && (s.slots[i].Some? ==> s.slots[i].value < |s.cells|)
    && (InRecv(s.pcs[i]) ==> s.slots[i].Some? && s.pcs[i].c < |s.cells|)
    && (s.pcs[i].AtOnce? ==> s.slots[i] == Some(s.pcs[i].c))
    && (s.pcs[i].Pulling? || s.pcs[i].Filled? ==>
          s.slots[i] == Some(s.pcs[i].c) && s.pcs[i].c == |s.cells| - 1 && s.cells[s.pcs[i].c].once == Running(i))
    && (s.pcs[i].PastOnce? ==>
          s.cells[s.pcs[i].c].once == Finished && s.slots[i] in {Some(s.pcs[i].c), s.cells[s.pcs[i].c].next})
    && (s.pcs[i] == Closing || s.pcs[i] == LastOut ==> s.slots[i].None?)
  }

  /** The `k`-th answer of the source, the end repeated for ever once it was returned. */
  function Nth<T>(pulled: seq<Item<T>>, k: nat): Option<Item<T>> {
    if k < |pulled| then Some(pulled[k])
    else if pulled != [] && pulled[|pulled| - 1].Eof? then Some(Eof)
    else None
  }

  /** A child has been told the source's answers from the first on, in order and without
      gaps, the end again and again after the end, and after closing only that it is closed. */
  ghost predicate ToldInOrder<T>(replies: seq<Reply<T>>, pulled: seq<Item<T>>) {
    && (forall k :: 0 <= k < |replies| && replies[k].Received? ==> Some(replies[k].item) == Nth(pulled, k))
    && (forall j, k :: 0 <= j < k < |replies| && replies[j] == RecvAfterClosed ==> replies[k] == RecvAfterClosed)
  }

  ghost predicate ToldOk<T>(s: State<T>, i: nat)
    requires Shape(s) && i < |s.pcs|
  {
    && ToldInOrder(s.replies[i], s.pulled)
    && (s.slots[i].Some? ==> forall k :: 0 <= k < |s.replies[i]| ==> s.replies[i][k].Received?)
    && (s.slots[i].Some? ==>
          if Position(s, i) < |s.pulled| && s.pulled[Position(s, i)].Eof?
          then |s.replies[i]| >= Position(s, i)
          else |s.replies[i]| == Position(s, i))
  }

  /** The children whose close has been counted. */
  ghost function Counted<T>(s: State<T>): set<nat>
    requires Shape(s)
  {
    set i | 0 <= i < |s.pcs| && s.slots[i].None? && s.pcs[i] != Closing
  }

  ghost predicate Closed<T>(s: State<T>)
    requires Shape(s)
  {
    && s.closedNum == |Counted(s)|
    && s.closes <= 1
    && (forall i :: 0 <= i < |s.pcs| && s.pcs[i] == LastOut ==> s.closedNum == |s.pcs| && s.closes == 0)
    && (forall i, j :: 0 <= i < j < |s.pcs| ==> !(s.pcs[i] == LastOut && s.pcs[j] == LastOut))
    && (s.closes == 1 ==> s.closedNum == |s.pcs|)
    && (s.closedNum == |s.pcs| > 0 && s.closes == 0 ==> exists i :: 0 <= i < |s.pcs| && s.pcs[i] == LastOut)
  }

  ghost predicate Inv<T>(s: State<T>) {
    && Shape(s) && Chain(s) && Closed(s)
    && (forall i :: 0 <= i < |s.pcs| ==> ChildOk(s, i))
    && (forall i :: 0 <= i < |s.pcs| ==> ToldOk(s, i))
  }
}
