/**
 Time stamps that increase over the whole process: a compare-exchange loop on one shared
 word, run by any number of threads against any wall clock.
 */
module Timestamps {

  const U64_MAX: nat := 0xFFFF_FFFF_FFFF_FFFF

  type U64 = n: nat | n <= U64_MAX

  function SaturatingNext(n: U64): U64 {
    if n == U64_MAX then n else n + 1
  }

  /** A thread is between calls, about to load the shared word, or about to exchange it. */
  datatype Pc = Idle | Loading(candidate: U64) | Exchanging(previous: U64, candidate: U64)

  /** What no step reads: the wall clock of the call under way, and whether it has lost an
      exchange to another thread. */
  datatype Thread = Thread(pc: Pc, wallClock: U64, lost: bool)

  /** A result, with the word its exchange replaced and what its thread went through. */
  datatype Result = Result(value: U64, wallClock: U64, lost: bool, replaced: U64)

  /** `returned` logs the results in the order in which the exchanges succeeded. */
  datatype State = State(last: U64, threads: seq<Thread>, returned: seq<Result>)

  /** The load is relaxed: `seen` may be any value, however stale. */
  datatype Step =
    | Call(t: nat, wallClock: U64)
    | Load(t: nat, seen: U64)
    | Exchange(t: nat)

  function Init(n: nat): State {
    State(0, seq(n, _ => Thread(Idle, 0, false)), [])
  }

  predicate Enabled(s: State, step: Step) {
    && step.t < |s.threads|
    && match step
       case Call(t, _) => s.threads[t].pc == Idle
       case Load(t, _) => s.threads[t].pc.Loading?
       case Exchange(t) => s.threads[t].pc.Exchanging?
  }

  function Next(s: State, step: Step): (s': State)
    requires Enabled(s, step)
    ensures |s'.threads| == |s.threads|
  {
    var thread := s.threads[step.t];
    match step
    case Call(t, wallClock) =>
      s.(threads := s.threads[t := Thread(Loading(wallClock), wallClock, false)])
    case Load(t, seen) =>
      var candidate := if thread.pc.candidate <= seen then SaturatingNext(seen) else thread.pc.candidate;
      s.(threads := s.threads[t := thread.(pc := Exchanging(seen, candidate))])
    case Exchange(t) =>
      var Exchanging(previous, candidate) := thread.pc;
      if s.last == previous then
        State(candidate, s.threads[t := thread.(pc := Idle)],
              s.returned + [Result(candidate, thread.wallClock, thread.lost, s.last)])
      else
        s.(threads := s.threads[t := thread.(pc := Loading(SaturatingNext(s.last)), lost := true)])
  }

  ghost predicate Run(s: State, steps: seq<Step>, end: State)
    decreases |steps|
  {
    if steps == [] then s == end
    else Enabled(s, steps[0]) && Run(Next(s, steps[0]), steps[1..], end)
  }

  /** A candidate about to be exchanged is beyond the value it would replace. */
  predicate Beyond(pc: Pc) {
    pc.Exchanging? ==> pc.candidate > pc.previous || pc.candidate == pc.previous == U64_MAX
  }

  /** What a call offers for the value it has loaded. */
  function Offer(wallClock: U64, previous: U64): U64 {
    if wallClock > previous then wallClock else SaturatingNext(previous)
  }

  /** Until a thread loses an exchange its candidate is its offer; from then on it is the next of
      some value the shared word has had, or of the value loaded. */
  predicate Tracks(last: U64, thread: Thread) {
    match thread.pc
    case Idle => true
    case Loading(candidate) =>
      if thread.lost then candidate <= SaturatingNext(last) else candidate == thread.wallClock
    case Exchanging(previous, candidate) =>
      if thread.lost then
        candidate == SaturatingNext(previous) || previous < candidate <= SaturatingNext(last)
      else
        candidate == Offer(thread.wallClock, previous)
  }

  predicate Accounted(r: Result) {
    r.value == if r.lost then SaturatingNext(r.replaced) else Offer(r.wallClock, r.replaced)
  }

  ghost predicate Inv(s: State) {
    && ThreadsOk(s)
    && s.last == (if s.returned == [] then 0 else s.returned[|s.returned| - 1].value)
    && (forall i :: 0 <= i < |s.returned| ==> 0 < s.returned[i].value <= s.last && Accounted(s.returned[i]))
    && (forall i, j :: 0 <= i < j < |s.returned| ==>
          s.returned[i].value < s.returned[j].value || s.returned[i].value == s.returned[j].value == U64_MAX)
  }

  ghost predicate ThreadsOk(s: State) {
    forall t :: 0 <= t < |s.threads| ==> Beyond(s.threads[t].pc) && Tracks(s.last, s.threads[t])
  }

  lemma ThreadKept(last: U64, later: U64, thread: Thread)
    requires Tracks(last, thread) && last <= later
    ensures Tracks(later, thread)
  {
  }

  /** What a thread does keeps it on track. */
  lemma OwnThreadKept(s: State, step: Step)
    requires Enabled(s, step) && Beyond(s.threads[step.t].pc) && Tracks(s.last, s.threads[step.t])
    ensures s.last <= Next(s, step).last
    ensures Beyond(Next(s, step).threads[step.t].pc) && Tracks(Next(s, step).last, Next(s, step).threads[step.t])
  {
  }

  lemma ThreadsKept(s: State, step: Step)
    requires ThreadsOk(s) && Enabled(s, step)
    ensures ThreadsOk(Next(s, step)) && s.last <= Next(s, step).last
  {
    OwnThreadKept(s, step);
    forall t | 0 <= t < |s.threads| && t != step.t
      ensures Beyond(Next(s, step).threads[t].pc) && Tracks(Next(s, step).last, Next(s, step).threads[t])
    {
      ThreadKept(s.last, Next(s, step).last, s.threads[t]);
    }
  }

  lemma StepKeeps(s: State, step: Step)
    requires Inv(s) && Enabled(s, step)
    ensures Inv(Next(s, step))
  {
    ThreadsKept(s, step);
    assert Beyond(s.threads[step.t].pc) && Tracks(s.last, s.threads[step.t]);
    if step.Exchange? && s.last == s.threads[step.t].pc.previous {
      var candidate := s.threads[step.t].pc.candidate;
      forall i | 0 <= i < |s.returned|
        ensures s.returned[i].value < candidate || s.returned[i].value == candidate == U64_MAX
      {
        assert s.returned[i].value <= s.last;
      }
    }
  }

  lemma {:induction false} RunKeeps(s: State, steps: seq<Step>, end: State)
    requires Inv(s) && Run(s, steps, end)
    ensures Inv(end)
    decreases |steps|
  {
    if steps != [] {
      StepKeeps(s, steps[0]);
      RunKeeps(Next(s, steps[0]), steps[1..], end);
    }
  }

  /** In every run, of two results in the order of their exchanges the first is smaller, exactly
      unless it is already the largest 64-bit number. */
  lemma StrictlyIncreasing(n: nat, steps: seq<Step>, s: State, i: nat, j: nat)
    requires Run(Init(n), steps, s) && i < j < |s.returned|
    ensures s.returned[i].value < s.returned[j].value <==> s.returned[i].value != U64_MAX
  {
    RunKeeps(Init(n), steps, s);
  }

  /** No two calls return the same value below the largest. */
  lemma NeverRepeats(n: nat, steps: seq<Step>, s: State, i: nat, j: nat)
    requires Run(Init(n), steps, s) && i < |s.returned| && j < |s.returned|
    requires s.returned[i].value == s.returned[j].value != U64_MAX
    ensures i == j
  {
    if i < j {
      StrictlyIncreasing(n, steps, s, i, j);
    } else if j < i {
      StrictlyIncreasing(n, steps, s, j, i);
    }
  }

  /** In every run a result lies behind the wall clock of its own call exactly when the call lost
      an exchange and the value after the one it replaced is behind that clock. */
  lemma BehindTheClockExactly(n: nat, steps: seq<Step>, s: State, i: nat)
    requires Run(Init(n), steps, s) && i < |s.returned|
    ensures var r := s.returned[i];
      r.value < r.wallClock <==> r.lost && SaturatingNext(r.replaced) < r.wallClock
  {
    RunKeeps(Init(n), steps, s);
    assert Accounted(s.returned[i]);
  }

  /** A call that loses no exchange returns its wall clock if that is later than the value it
      replaced; in all other cases the result is the value after that one. */
  lemma LossDecides(n: nat, steps: seq<Step>, s: State, i: nat)
    requires Run(Init(n), steps, s) && i < |s.returned|
    ensures var r := s.returned[i];
      r.value ==
      if !r.lost && r.wallClock > r.replaced then r.wallClock
      else if r.replaced == U64_MAX then U64_MAX
      else r.replaced + 1
  {
    RunKeeps(Init(n), steps, s);
    assert Accounted(s.returned[i]);
  }

  /** Only this thread takes steps, and what it loads is the word as it stands. */
  ghost predicate Undisturbed(s: State, t: nat, steps: seq<Step>)
    decreases |steps|
  {
    steps == [] ||
    (&& steps[0].t == t && (steps[0].Load? ==> steps[0].seen == s.last)
     && Enabled(s, steps[0]) && Undisturbed(Next(s, steps[0]), t, steps[1..]))
  }

  lemma {:induction false} ReturnedStays(s: State, steps: seq<Step>, end: State)
    requires Run(s, steps, end)
    ensures |s.returned| <= |end.returned|
    decreases |steps|
  {
    if steps != [] {
      ReturnedStays(Next(s, steps[0]), steps[1..], end);
    }
  }

  /** The steps a call still needs if it is left alone. */
  function StepsLeft(last: U64, pc: Pc): nat {
    match pc
    case Idle => 0
    case Loading(_) => 2
    case Exchanging(previous, _) => if previous == last then 1 else 3
  }

  lemma {:induction false} ReturnsInTime(s: State, t: nat, steps: seq<Step>, end: State)
    requires t < |s.threads| && s.threads[t].pc != Idle
    requires Run(s, steps, end) && Undisturbed(s, t, steps) && |steps| >= StepsLeft(s.last, s.threads[t].pc)
    ensures |end.returned| > |s.returned|
    decreases |steps|
  {
    var next := Next(s, steps[0]);
    if next.threads[t].pc == Idle {
      ReturnedStays(next, steps[1..], end);
    } else {
      ReturnsInTime(next, t, steps[1..], end);
    }
  }

  /** In whatever state, a call that is left alone returns after three more steps at most. */
  lemma UndisturbedReturns(s: State, t: nat, steps: seq<Step>, end: State)
    requires t < |s.threads| && s.threads[t].pc != Idle
    requires Run(s, steps, end) && Undisturbed(s, t, steps) && |steps| >= 3
    ensures |end.returned| > |s.returned|
  {
    ReturnsInTime(s, t, steps, end);
  }

  /** Such a run: a call at wall clock 1000 loses to one at wall clock 5, and returns 6. */
  lemma BehindTheClock() returns (steps: seq<Step>, s: State)
    ensures Run(Init(2), steps, s)
    ensures s.returned == [Result(5, 5, false, 0), Result(6, 1000, true, 5)]
  {
    var s1 := Next(Init(2), Call(0, 1000));
    var s2 := Next(s1, Load(0, 0));
    var s3 := Next(s2, Call(1, 5));
    var s4 := Next(s3, Load(1, 0));
    var s5 := Next(s4, Exchange(1));
    var s6 := Next(s5, Exchange(0));
    var s7 := Next(s6, Load(0, 5));
    s := Next(s7, Exchange(0));
    steps := RunOne(s7, Exchange(0), [], s);
    steps := RunOne(s6, Load(0, 5), steps, s);
    steps := RunOne(s5, Exchange(0), steps, s);
    steps := RunOne(s4, Exchange(1), steps, s);
    steps := RunOne(s3, Load(1, 0), steps, s);
    steps := RunOne(s2, Call(1, 5), steps, s);
    steps := RunOne(s1, Load(0, 0), steps, s);
    steps := RunOne(Init(2), Call(0, 1000), steps, s);
  }

  lemma RunOne(s: State, step: Step, steps: seq<Step>, end: State) returns (all: seq<Step>)
    requires Enabled(s, step) && Run(Next(s, step), steps, end)
    ensures all == [step] + steps && Run(s, all, end)
  {
    all := [step] + steps;
    assert all[1..] == steps;
  }
}
