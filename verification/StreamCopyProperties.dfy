/** Safety of the stream copy protocol over every interleaving. */
module StreamCopyProperties {

  import opened Wrappers
  import opened StreamCopy

  lemma InitInv<T>(n: nat)
    ensures Inv(Init<T>(n))
  {
    var s := Init<T>(n);
    assert Counted(s) == {};
  }

  /** A step that moves no slot to closed and leaves the counters alone. */
  lemma ClosedKept<T>(s: State<T>, s': State<T>)
    requires Inv(s) && Shape(s') && |s'.pcs| == |s.pcs|
    requires s'.closedNum == s.closedNum && s'.closes == s.closes
    requires forall i :: 0 <= i < |s.pcs| ==>
      && (s'.slots[i].None? == s.slots[i].None?)
      && (s'.pcs[i] == Closing <==> s.pcs[i] == Closing)
      && (s'.pcs[i] == LastOut <==> s.pcs[i] == LastOut)
    ensures Closed(s')
  {
    assert Counted(s') == Counted(s);
    if s.closedNum == |s.pcs| > 0 && s.closes == 0 {
      var i :| 0 <= i < |s.pcs| && s.pcs[i] == LastOut;
      assert s'.pcs[i] == LastOut;
    }
  }

  /** Who is inside a once is inside the once of the last cell. */
  lemma InsideOnce<T>(s: State<T>, i: nat)
    requires Inv(s) && i < |s.pcs| && (s.pcs[i].Pulling? || s.pcs[i].Filled?)
    ensures s.pcs[i].c == |s.cells| - 1 && s.cells[s.pcs[i].c].once == Running(i)
    ensures |s.pulled| == if s.pcs[i].Pulling? then |s.cells| - 1 else |s.cells|
  {
    assert ChildOk(s, i);
  }

  lemma StartRecvKeeps<T>(s: State<T>, i: nat)
    requires Inv(s) && Enabled(s, StartRecv(i))
    ensures Inv(Next(s, StartRecv(i)))
  {
    var s' := Next(s, StartRecv(i));
    assert ChildOk(s, i);
    ClosedKept(s, s');
    forall j | 0 <= j < |s.pcs|
      ensures ChildOk(s', j) && ToldOk(s', j)
    {
      StartRecvChild(s, i, j);
    }
  }

  lemma StartRecvChild<T>(s: State<T>, i: nat, j: nat)
    requires Inv(s) && Enabled(s, StartRecv(i)) && j < |s.pcs|
    ensures ChildOk(Next(s, StartRecv(i)), j) && ToldOk(Next(s, StartRecv(i)), j)
  {
    assert ChildOk(s, j) && ToldOk(s, j) && ChildOk(s, i) && ToldOk(s, i);
  }

  lemma EnterOnceKeeps<T>(s: State<T>, i: nat)
    requires Inv(s) && Enabled(s, EnterOnce(i))
    ensures Inv(Next(s, EnterOnce(i)))
  {
    var s' := Next(s, EnterOnce(i));
    assert ChildOk(s, i);
    ClosedKept(s, s');
    forall j | 0 <= j < |s.pcs|
      ensures ChildOk(s', j) && ToldOk(s', j)
    {
      EnterOnceChild(s, i, j);
    }
  }

  lemma EnterOnceChild<T>(s: State<T>, i: nat, j: nat)
    requires Inv(s) && Enabled(s, EnterOnce(i)) && j < |s.pcs|
    ensures ChildOk(Next(s, EnterOnce(i)), j) && ToldOk(Next(s, EnterOnce(i)), j)
  {
    assert ChildOk(s, j) && ToldOk(s, j) && ChildOk(s, i) && ToldOk(s, i);
  }

  /** More answers of a source that has not ended do not change what was told. */
  lemma ToldMore<T>(replies: seq<Reply<T>>, pulled: seq<Item<T>>, item: Item<T>)
    requires ToldInOrder(replies, pulled)
    requires forall k :: 0 <= k < |pulled| ==> !pulled[k].Eof?
    ensures ToldInOrder(replies, pulled + [item])
  {
  }

  lemma SourceReturnsKeeps<T>(s: State<T>, i: nat, item: Item<T>)
    requires Inv(s) && Enabled(s, SourceReturns(i, item))
    ensures Inv(Next(s, SourceReturns(i, item)))
  {
    InsideOnce(s, i);
    var s' := Next(s, SourceReturns(i, item));
    assert ChildOk(s, i);
    ClosedKept(s, s');
    forall j | 0 <= j < |s.pcs|
      ensures ChildOk(s', j) && ToldOk(s', j)
    {
      SourceReturnsChild(s, i, item, j);
    }
  }

  lemma SourceReturnsChild<T>(s: State<T>, i: nat, item: Item<T>, j: nat)
    requires Inv(s) && Enabled(s, SourceReturns(i, item)) && j < |s.pcs|
    ensures Shape(Next(s, SourceReturns(i, item)))
    ensures ChildOk(Next(s, SourceReturns(i, item)), j) && ToldOk(Next(s, SourceReturns(i, item)), j)
  {
    InsideOnce(s, i);
    assert ChildOk(s, j) && ToldOk(s, j) && ChildOk(s, i) && ToldOk(s, i);
    ToldMore(s.replies[j], s.pulled, item);
  }

  lemma LeaveOnceKeeps<T>(s: State<T>, i: nat)
    requires Inv(s) && Enabled(s, LeaveOnce(i))
    ensures Inv(Next(s, LeaveOnce(i)))
  {
    InsideOnce(s, i);
    var s' := Next(s, LeaveOnce(i));
    assert ChildOk(s, i);
    ClosedKept(s, s');
    forall j | 0 <= j < |s.pcs|
      ensures ChildOk(s', j) && ToldOk(s', j)
    {
      LeaveOnceChild(s, i, j);
    }
  }

  lemma LeaveOnceChild<T>(s: State<T>, i: nat, j: nat)
    requires Inv(s) && Enabled(s, LeaveOnce(i)) && j < |s.pcs|
    ensures Shape(Next(s, LeaveOnce(i)))
    ensures ChildOk(Next(s, LeaveOnce(i)), j) && ToldOk(Next(s, LeaveOnce(i)), j)
  {
    InsideOnce(s, i);
    assert ChildOk(s, j) && ToldOk(s, j) && ChildOk(s, i) && ToldOk(s, i);
  }

  lemma SkipOnceKeeps<T>(s: State<T>, i: nat)
    requires Inv(s) && Enabled(s, SkipOnce(i))
    ensures Inv(Next(s, SkipOnce(i)))
  {
    var s' := Next(s, SkipOnce(i));
    assert ChildOk(s, i);
    ClosedKept(s, s');
    forall j | 0 <= j < |s.pcs|
      ensures ChildOk(s', j) && ToldOk(s', j)
    {
      SkipOnceChild(s, i, j);
    }
  }

  lemma SkipOnceChild<T>(s: State<T>, i: nat, j: nat)
    requires Inv(s) && Enabled(s, SkipOnce(i)) && j < |s.pcs|
    ensures ChildOk(Next(s, SkipOnce(i)), j) && ToldOk(Next(s, SkipOnce(i)), j)
  {
    assert ChildOk(s, j) && ToldOk(s, j) && ChildOk(s, i) && ToldOk(s, i);
  }

  lemma DeliverKeeps<T>(s: State<T>, i: nat)
    requires Inv(s) && Enabled(s, Deliver(i))
    ensures Inv(Next(s, Deliver(i)))
  {
    var s' := Next(s, Deliver(i));
    assert ChildOk(s, i);
    ClosedKept(s, s');
    forall j | 0 <= j < |s.pcs|
      ensures ChildOk(s', j) && ToldOk(s', j)
    {
      DeliverChild(s, i, j);
    }
  }

  lemma DeliverChild<T>(s: State<T>, i: nat, j: nat)
    requires Inv(s) && Enabled(s, Deliver(i)) && j < |s.pcs|
    ensures ChildOk(Next(s, Deliver(i)), j) && ToldOk(Next(s, Deliver(i)), j)
  {
    assert ChildOk(s, i) && ToldOk(s, i);
    if j != i {
      assert ChildOk(s, j) && ToldOk(s, j);
    }
    var c := s.pcs[i].c;
    assert c < |s.pulled| && s.cells[c].item == Some(s.pulled[c]);
    assert !s.pulled[c].Eof? ==> s.cells[c].next == Some(c + 1);
  }

  lemma StartCloseKeeps<T>(s: State<T>, i: nat)
    requires Inv(s) && Enabled(s, StartClose(i))
    ensures Inv(Next(s, StartClose(i)))
  {
    var s' := Next(s, StartClose(i));
    assert Counted(s') == Counted(s);
    if s.closedNum == |s.pcs| > 0 && s.closes == 0 {
      var k :| 0 <= k < |s.pcs| && s.pcs[k] == LastOut;
      assert s'.pcs[k] == LastOut;
    }
    forall j | 0 <= j < |s.pcs|
      ensures ChildOk(s', j) && ToldOk(s', j)
    {
      StartCloseChild(s, i, j);
    }
  }

  lemma StartCloseChild<T>(s: State<T>, i: nat, j: nat)
    requires Inv(s) && Enabled(s, StartClose(i)) && j < |s.pcs|
    ensures ChildOk(Next(s, StartClose(i)), j) && ToldOk(Next(s, StartClose(i)), j)
  {
    assert ChildOk(s, j) && ToldOk(s, j);
  }

  lemma {:induction false} Bounded(xs: set<nat>, n: nat)
    requires forall x :: x in xs ==> x < n
    ensures |xs| <= n
    ensures |xs| == n ==> forall x :: 0 <= x < n ==> x in xs
  {
    if n > 0 {
      Bounded(xs - {n - 1}, n - 1);
      assert xs == if n - 1 in xs then (xs - {n - 1}) + {n - 1} else xs - {n - 1};
    }
  }

  lemma CountClosed<T>(s: State<T>, i: nat)
    requires Inv(s) && Enabled(s, Count(i))
    ensures Closed(Next(s, Count(i)))
  {
    var s' := Next(s, Count(i));
    assert ChildOk(s, i);
    assert Counted(s') == Counted(s) + {i};
    Bounded(Counted(s), |s.pcs|);
    assert i !in Counted(s) && s.closedNum < |s.pcs|;
    assert forall j :: 0 <= j < |s.pcs| ==> s.pcs[j] != LastOut;
    assert s'.pcs[i] == LastOut || s'.closedNum < |s.pcs|;
  }

  lemma CountKeeps<T>(s: State<T>, i: nat)
    requires Inv(s) && Enabled(s, Count(i))
    ensures Inv(Next(s, Count(i)))
  {
    CountClosed(s, i);
    var s' := Next(s, Count(i));
    forall j | 0 <= j < |s.pcs|
      ensures ChildOk(s', j) && ToldOk(s', j)
    {
      assert ChildOk(s, j) && ToldOk(s, j);
    }
  }

  lemma CloseSourceKeeps<T>(s: State<T>, i: nat)
    requires Inv(s) && Enabled(s, CloseSource(i))
    ensures Inv(Next(s, CloseSource(i)))
  {
    var s' := Next(s, CloseSource(i));
    assert ChildOk(s, i);
    assert Counted(s') == Counted(s);
    forall j | 0 <= j < |s.pcs|
      ensures ChildOk(s', j) && ToldOk(s', j)
    {
      CloseSourceChild(s, i, j);
    }
  }

  lemma CloseSourceChild<T>(s: State<T>, i: nat, j: nat)
    requires Inv(s) && Enabled(s, CloseSource(i)) && j < |s.pcs|
    ensures ChildOk(Next(s, CloseSource(i)), j) && ToldOk(Next(s, CloseSource(i)), j)
  {
    assert ChildOk(s, j) && ToldOk(s, j);
  }

  // ---------------------------------------------------------------- whole runs

  /** The state after the steps, taken one by one from `s`, each enabled where it is taken. */
  ghost predicate Run<T>(s: State<T>, steps: seq<Step<T>>, end: State<T>)
    requires |s.slots| == |s.pcs| == |s.replies|
    decreases |steps|
  {
    if steps == [] then s == end
    else Enabled(s, steps[0]) && Run(Next(s, steps[0]), steps[1..], end)
  }

  lemma StepKeeps<T>(s: State<T>, step: Step<T>)
    requires Inv(s) && Enabled(s, step)
    ensures Inv(Next(s, step))
  {
    match step
    case StartRecv(i) => StartRecvKeeps(s, i);
    case EnterOnce(i) => EnterOnceKeeps(s, i);
    case SourceReturns(i, item) => SourceReturnsKeeps(s, i, item);
    case LeaveOnce(i) => LeaveOnceKeeps(s, i);
    case SkipOnce(i) => SkipOnceKeeps(s, i);
    case Deliver(i) => DeliverKeeps(s, i);
    case StartClose(i) => StartCloseKeeps(s, i);
    case Count(i) => CountKeeps(s, i);
    case CloseSource(i) => CloseSourceKeeps(s, i);
  }

  lemma {:induction false} RunKeeps<T>(s: State<T>, steps: seq<Step<T>>, end: State<T>)
    requires Inv(s) && Run(s, steps, end)
    ensures Inv(end) && |end.pcs| == |s.pcs|
    decreases |steps|
  {
    if steps != [] {
      StepKeeps(s, steps[0]);
      RunKeeps(Next(s, steps[0]), steps[1..], end);
    }
  }

  /** The number of answers the source is about to give: its calls in progress. */
  ghost function CallsInProgress<T>(s: State<T>): set<nat> {
    set i | 0 <= i < |s.pcs| && s.pcs[i].Pulling?
  }

  /** In every interleaving: each child is told a prefix of the one sequence the source returned,
      then the end for ever, then, once closed, only that it is closed; the source is never
      asked twice at once, never after its end and never after it was closed. */
  lemma RunsAreSafe<T>(n: nat, steps: seq<Step<T>>, s: State<T>)
    requires Run(Init(n), steps, s)
    ensures |s.replies| == n && forall i :: 0 <= i < n ==> ToldInOrder(s.replies[i], s.pulled)
    ensures forall k :: 0 <= k < |s.pulled| - 1 ==> !s.pulled[k].Eof?
    ensures forall i, j :: i in CallsInProgress(s) && j in CallsInProgress(s) ==> i == j
    ensures s.pulled != [] && s.pulled[|s.pulled| - 1].Eof? ==> CallsInProgress(s) == {}
    ensures s.closes > 0 ==> CallsInProgress(s) == {}
  {
    InitInv<T>(n);
    RunKeeps(Init(n), steps, s);
    forall i | 0 <= i < n
      ensures ToldInOrder(s.replies[i], s.pulled)
    {
      assert ToldOk(s, i);
    }
    forall i | i in CallsInProgress(s)
      ensures s.pcs[i] == Pulling(|s.cells| - 1) && s.cells[|s.cells| - 1].once == Running(i)
      ensures |s.pulled| == |s.cells| - 1 && s.closedNum < n
    {
      InsideOnce(s, i);
      assert ChildOk(s, i);
      Bounded(Counted(s), n);
      assert i !in Counted(s);
    }
  }

  /** The source is closed at most once, only after every child has closed, and by the time
      every child has closed and returned it has been closed. */
  lemma ClosedExactlyOnce<T>(n: nat, steps: seq<Step<T>>, s: State<T>)
    requires n > 0 && Run(Init(n), steps, s)
    ensures s.closes <= 1 && |s.slots| == |s.pcs| == n
    ensures s.closes == 1 ==> forall i :: 0 <= i < n ==> s.slots[i] == None
    ensures (forall i :: 0 <= i < n ==> s.slots[i] == None && s.pcs[i] == Idle) ==> s.closes == 1
  {
    InitInv<T>(n);
    RunKeeps(Init(n), steps, s);
    Bounded(Counted(s), n);
    if s.closes == 1 {
      forall i | 0 <= i < n
        ensures s.slots[i] == None
      {
        assert i in Counted(s);
      }
    }
    if forall i :: 0 <= i < n ==> s.slots[i] == None && s.pcs[i] == Idle {
      AtLeast(Counted(s), n);
    }
  }

  lemma {:induction false} AtLeast(xs: set<nat>, n: nat)
    requires forall x :: 0 <= x < n ==> x in xs
    ensures |xs| >= n
  {
    if n > 0 {
      AtLeast(xs - {n - 1}, n - 1);
    }
  }

  /** Each position is asked for once: a step appends at most one answer, and an item once
      stored, or a cell once linked, is never changed. */
  lemma CellsFilledOnce<T>(s: State<T>, step: Step<T>)
    requires Inv(s) && Enabled(s, step)
    ensures var s' := Next(s, step);
      && s'.pulled == (if step.SourceReturns? then s.pulled + [step.item] else s.pulled)
      && |s.cells| <= |s'.cells|
      && forall c :: 0 <= c < |s.cells| ==>
           && (s.cells[c].item.Some? ==> s'.cells[c].item == s.cells[c].item)
           && (s.cells[c].next.Some? ==> s'.cells[c].next == s.cells[c].next)
           && (s.cells[c].once == Finished ==> s'.cells[c] == s.cells[c])
  {
    if step.i < |s.pcs| && (s.pcs[step.i].Pulling? || s.pcs[step.i].Filled?) {
      InsideOnce(s, step.i);
    }
  }

  /** No interleaving gets stuck: while some call is under way, some goroutine can take
      a step of its call, provided the source returns. */
  lemma NeverStuck<T>(n: nat, steps: seq<Step<T>>, s: State<T>, i: nat, item: Item<T>) returns (step: Step<T>)
    requires Run(Init(n), steps, s) && i < n
    requires |s.slots| == |s.pcs| == |s.replies| == n && s.pcs[i] != Idle
    ensures Enabled(s, step) && !step.StartRecv? && !step.StartClose?
  {
    InitInv<T>(n);
    RunKeeps(Init(n), steps, s);
    assert ChildOk(s, i);
    match s.pcs[i]
    case AtOnce(c) =>
      match s.cells[c].once {
        case Fresh => step := EnterOnce(i);
        case Finished => step := SkipOnce(i);
        case Running(r) =>
          assert c == |s.cells| - 1;
          if s.pcs[r].Pulling? {
            step := SourceReturns(r, item);
          } else {
            step := LeaveOnce(r);
          }
      }
    case Pulling(_) => step := SourceReturns(i, item);
    case Filled(c) =>
      InsideOnce(s, i);
      step := LeaveOnce(i);
    case PastOnce(c) =>
      assert s.cells[c].item.Some?;
      step := Deliver(i);
    case Closing => step := Count(i);
    case LastOut => step := CloseSource(i);
  }

  // ---------------------------------------------------------------- every call is answered

  /** How often a child has asked for an item. */
  function Asked<T>(steps: seq<Step<T>>, i: nat): nat {
    if steps == [] then 0
    else (if steps[0].StartRecv? && steps[0].i == i then 1 else 0) + Asked(steps[1..], i)
  }

  /** Whether a child has closed. */
  predicate AsksToClose<T>(steps: seq<Step<T>>, i: nat) {
    exists k :: 0 <= k < |steps| && steps[k].StartClose? && steps[k].i == i
  }

  lemma StepAnswers<T>(s: State<T>, step: Step<T>, i: nat)
    requires Inv(s) && Enabled(s, step) && i < |s.pcs|
    ensures var s' := Next(s, step);
      |s'.replies[i]| + (if InRecv(s'.pcs[i]) then 1 else 0) ==
      |s.replies[i]| + (if InRecv(s.pcs[i]) then 1 else 0) + (if step.StartRecv? && step.i == i then 1 else 0)
  {
  }

  /** Every call is answered once: of the answers asked for all but the one under way are given. */
  lemma {:induction false} EveryCallAnswered<T>(s: State<T>, steps: seq<Step<T>>, end: State<T>, i: nat)
    requires Inv(s) && Run(s, steps, end) && i < |s.pcs|
    ensures i < |end.pcs| == |end.replies|
    ensures |end.replies[i]| + (if InRecv(end.pcs[i]) then 1 else 0) ==
      |s.replies[i]| + (if InRecv(s.pcs[i]) then 1 else 0) + Asked(steps, i)
    decreases |steps|
  {
    if steps != [] {
      StepKeeps(s, steps[0]);
      StepAnswers(s, steps[0], i);
      EveryCallAnswered(Next(s, steps[0]), steps[1..], end, i);
    }
  }

  lemma StepCloses<T>(s: State<T>, step: Step<T>, i: nat)
    requires Inv(s) && Enabled(s, step) && i < |s.pcs|
    ensures Next(s, step).slots[i].None? <==> s.slots[i].None? || (step.StartClose? && step.i == i)
  {
    assert ChildOk(s, i);
    assert ChildOk(s, step.i);
  }

  /** A child is closed exactly from its first call of close on. */
  lemma {:induction false} ClosedByItself<T>(s: State<T>, steps: seq<Step<T>>, end: State<T>, i: nat)
    requires Inv(s) && Run(s, steps, end) && i < |s.pcs|
    ensures i < |end.slots| && (end.slots[i].None? <==> s.slots[i].None? || AsksToClose(steps, i))
    decreases |steps|
  {
    if steps != [] {
      StepKeeps(s, steps[0]);
      StepCloses(s, steps[0], i);
      ClosedByItself(Next(s, steps[0]), steps[1..], end, i);
      if AsksToClose(steps[1..], i) {
        var k :| 0 <= k < |steps[1..]| && steps[1..][k].StartClose? && steps[1..][k].i == i;
        assert steps[k + 1].StartClose? && steps[k + 1].i == i;
      }
      if AsksToClose(steps, i) {
        var k :| 0 <= k < |steps| && steps[k].StartClose? && steps[k].i == i;
        assert k > 0 ==> steps[1..][k - 1].StartClose?;
      }
    }
  }

  // ---------------------------------------------------------------- every run comes to an end

  function StepsLeft(pc: Pc): nat {
    match pc
    case Idle => 0
    case AtOnce(_) => 4
    case Pulling(_) => 3
    case Filled(_) => 2
    case PastOnce(_) => 1
    case Closing => 2
    case LastOut => 1
  }

  function AllLeft(pcs: seq<Pc>): nat {
    if pcs == [] then 0 else AllLeft(pcs[..|pcs| - 1]) + StepsLeft(pcs[|pcs| - 1])
  }

  lemma {:induction false} LeftChanges(pcs: seq<Pc>, i: nat, pc: Pc)
    requires i < |pcs|
    ensures AllLeft(pcs[i := pc]) == AllLeft(pcs) - StepsLeft(pcs[i]) + StepsLeft(pc)
  {
    var n := |pcs| - 1;
    if i == n {
      assert pcs[i := pc][..n] == pcs[..n];
    } else {
      LeftChanges(pcs[..n], i, pc);
      assert pcs[i := pc][..n] == pcs[..n][i := pc];
    }
  }

  lemma {:induction false} NoneLeft(pcs: seq<Pc>)
    requires forall i :: 0 <= i < |pcs| ==> pcs[i] == Idle
    ensures AllLeft(pcs) == 0
  {
    if pcs != [] {
      NoneLeft(pcs[..|pcs| - 1]);
    }
  }

  /** The number of calls made. */
  function Calls<T>(steps: seq<Step<T>>): nat {
    if steps == [] then 0
    else (if steps[0].StartRecv? || steps[0].StartClose? then 1 else 0) + Calls(steps[1..])
  }

  lemma StepLeaves<T>(s: State<T>, step: Step<T>)
    requires |s.slots| == |s.pcs| == |s.replies| && Enabled(s, step)
    ensures AllLeft(Next(s, step).pcs) + 1 <=
      AllLeft(s.pcs) + if step.StartRecv? || step.StartClose? then 5 else 0
  {
    LeftChanges(s.pcs, step.i, Next(s, step).pcs[step.i]);
    assert Next(s, step).pcs == s.pcs[step.i := Next(s, step).pcs[step.i]];
  }

  lemma {:induction false} RunLeaves<T>(s: State<T>, steps: seq<Step<T>>, end: State<T>)
    requires |s.slots| == |s.pcs| == |s.replies| && Run(s, steps, end)
    ensures AllLeft(end.pcs) + |steps| <= AllLeft(s.pcs) + 5 * Calls(steps)
    decreases |steps|
  {
    if steps != [] {
      StepLeaves(s, steps[0]);
      RunLeaves(Next(s, steps[0]), steps[1..], end);
    }
  }

  /** No call goes on for ever: a run has at most five steps for each call, and none gets stuck
      before all calls have returned. */
  lemma CallsEnd<T>(n: nat, steps: seq<Step<T>>, s: State<T>)
    requires Run(Init(n), steps, s)
    ensures |steps| <= 5 * Calls(steps)
  {
    NoneLeft(Init<T>(n).pcs);
    RunLeaves(Init(n), steps, s);
  }
}
