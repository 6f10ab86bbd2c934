/** Safety and progress of the stream over every interleaving. */
module OrderedStreamProperties {

  import opened Wrappers
  import opened OrderedStream

  /** One goroutine's place or one place in the limiter changes with one worker. */
  lemma LiveChange(s: State, s': State, w: nat)
    requires w < |s.workers| == |s'.workers|
    requires forall v :: 0 <= v < |s.workers| && v != w ==> s'.workers[v] == s.workers[v]
    ensures LiveWorkers(s') ==
      if Live(s'.workers[w]) then LiveWorkers(s) + {w} else LiveWorkers(s) - {w}
  {
  }

  lemma LiveSpawned(s: State, s': State, worker: Worker)
    requires s'.workers == s.workers + [worker] && Live(worker)
    ensures LiveWorkers(s') == LiveWorkers(s) + {|s.workers|} && |s.workers| !in LiveWorkers(s)
  {
  }

  lemma PlacesKept(s: State, step: Step)
    requires Inv(s) && Enabled(s, step)
    ensures PlacesOk(Next(s, step))
  {
    match step
    case Spawn => SpawnPlaces(s);
    case Release(w) => ReleasePlaces(s, w);
    case _ => LiveKept(s, step);
  }

  lemma SpawnPlaces(s: State)
    requires PlacesOk(s) && Enabled(s, Spawn)
    ensures PlacesOk(Next(s, Spawn))
  {
    var s' := Next(s, Spawn);
    LiveSpawned(s, s', s'.workers[|s.workers|]);
  }

  lemma ReleasePlaces(s: State, w: nat)
    requires PlacesOk(s) && Enabled(s, Release(w))
    ensures PlacesOk(Next(s, Release(w)))
  {
    LiveChange(s, Next(s, Release(w)), w);
    assert w in LiveWorkers(s);
  }

  lemma LiveKept(s: State, step: Step)
    requires Enabled(s, step) && !step.Spawn? && !step.Release?
    ensures LiveWorkers(Next(s, step)) == LiveWorkers(s)
  {
  }

  /** The channel a step is about, its owner, and what it holds. */
  lemma ChannelOfStep(s: State, step: Step)
    requires Inv(s) && Enabled(s, step)
    ensures step.TakePooled? || step.Collect? ==> step.c < |s.channels| && s.owners[step.c] == Pooled
    ensures step.Enqueue? ==> s.submitter.c < |s.channels| && s.owners[s.submitter.c] == Submitters
    ensures step.Send? ==>
      var k := s.workers[step.w].task;
      && |s.received| <= k < |s.tasks| && s.channelOf[k] == s.workers[step.w].c
      && s.tasks[k] == AtWorker(step.w) && s.owners[s.workers[step.w].c] == Tasks(k)
      && s.workers[step.w].message.task == k && k in s.ended && s.workers[step.w].message.outcome == s.ended[k]
    ensures step.Receive? ==>
      var k := |s.received|;
      k < |s.tasks| && s.callbacker.c == s.channelOf[k] && s.owners[s.callbacker.c] == Tasks(k) &&
      s.tasks[k].Sent? && s.tasks[k].message == s.channels[s.callbacker.c].value && s.tasks[k].message.task == k
    ensures step.PutBack? ==> s.callbacker.c < |s.channels| && s.owners[s.callbacker.c] == Callbackers
  {
    match step
    case TakePooled(c) => assert ChannelOk(s, c);
    case Collect(c) => assert ChannelOk(s, c);
    case Send(w) =>
      assert WorkerOk(s, w);
      assert TaskOk(s, s.workers[w].task);
    case Receive =>
      assert TaskOk(s, |s.received|);
      assert ChannelOk(s, s.callbacker.c);
    case _ =>
  }

  lemma ShapeKept(s: State, step: Step)
    requires Inv(s) && Enabled(s, step)
    ensures Shape(Next(s, step)) && SubmitterOk(Next(s, step))
  {
    ChannelOfStep(s, step);
    match step
    case End(w, _) => assert WorkerOk(s, w);
    case _ =>
  }

  lemma CallbackerKept(s: State, step: Step)
    requires Inv(s) && Enabled(s, step)
    ensures Shape(Next(s, step)) && CallbackerOk(Next(s, step))
  {
    ShapeKept(s, step);
    if step.Receive? {
      ReceiveKept(s);
    } else {
      CallbackerKeptOtherwise(s, step);
    }
  }

  lemma CallbackerKeptOtherwise(s: State, step: Step)
    requires Inv(s) && Enabled(s, step) && !step.Receive? && Shape(Next(s, step))
    ensures CallbackerOk(Next(s, step))
  {
    match step
    case NextChannel => CallbackerKeptByItself(s, step);
    case EndOfQueue => CallbackerKeptByItself(s, step);
    case CallbackEnds => CallbackerKeptByItself(s, step);
    case PutBack => CallbackerKeptByItself(s, step);
    case _ => CallbackerKeptByOthers(s, step);
  }

  predicate OfCallbacker(step: Step) {
    step.NextChannel? || step.EndOfQueue? || step.Receive? || step.CallbackEnds? || step.PutBack?
  }

  lemma CallbackerKeptByItself(s: State, step: Step)
    requires Inv(s) && Enabled(s, step) && OfCallbacker(step) && !step.Receive? && Shape(Next(s, step))
    ensures CallbackerOk(Next(s, step))
  {
    ChannelOfStep(s, step);
  }

  lemma ReceiveKept(s: State)
    requires Inv(s) && Enabled(s, Receive) && Shape(Next(s, Receive))
    ensures CallbackerOk(Next(s, Receive))
  {
    ChannelOfStep(s, Receive);
    OneMoreMessage(s.received, s.channels[s.callbacker.c].value);
  }

  lemma OneMoreMessage(messages: seq<Message>, m: Message)
    ensures WithCallback(messages + [m]) ==
      if m.outcome == ReturnedNil then WithCallback(messages) else WithCallback(messages) + [m.task]
  {
    assert (messages + [m])[..|messages|] == messages;
  }

  lemma CallbackerKeptByOthers(s: State, step: Step)
    requires Inv(s) && Enabled(s, step) && !OfCallbacker(step) && Shape(Next(s, step))
    ensures CallbackerOk(Next(s, step))
  {
    ChannelOfStep(s, step);
    if step.Enqueue? {
      EnqueueKept(s);
    } else {
      OtherFields(s, step);
      CallbackerFrame(s, Next(s, step));
    }
  }

  lemma EnqueueKept(s: State)
    requires Inv(s) && Enabled(s, Enqueue) && Shape(Next(s, Enqueue))
    ensures CallbackerOk(Next(s, Enqueue))
  {
    ChannelOfStep(s, Enqueue);
  }

  /** What the other goroutines leave alone of what concerns the callback goroutine. */
  ghost predicate LeftAlone(s: State, s': State) {
    && s'.limit == s.limit && s'.queue == s.queue && s'.callbacker == s.callbacker
    && s'.received == s.received && s'.called == s.called && s'.channelOf == s.channelOf
    && |s'.tasks| == |s.tasks| && |s'.channels| >= |s.channels| && |s'.owners| >= |s.owners|
    && (forall c :: 0 <= c < |s.owners| && s.owners[c] == Callbackers ==> s'.owners[c] == Callbackers)
    && (QueueClosed(s) ==> QueueClosed(s'))
  }

  lemma OtherFields(s: State, step: Step)
    requires Shape(s) && Enabled(s, step) && !OfCallbacker(step) && !step.Enqueue?
    requires step.TakePooled? || step.Collect? ==> step.c < |s.owners| && s.owners[step.c] == Pooled
    ensures LeftAlone(s, Next(s, step))
  {
  }

  lemma CallbackerFrame(s: State, s': State)
    requires Shape(s) && Shape(s') && CallbackerOk(s) && LeftAlone(s, s')
    ensures CallbackerOk(s')
  {
  }

  lemma ChannelKept(s: State, step: Step, c: nat)
    requires Inv(s) && Enabled(s, step) && c < |Next(s, step).channels|
    ensures Shape(Next(s, step)) && ChannelOk(Next(s, step), c)
  {
    ShapeKept(s, step);
    if OfCallbacker(step) || step.Send? {
      ChannelKeptByMessage(s, step, c);
    } else {
      ChannelKeptByOthers(s, step, c);
    }
  }

  lemma ChannelKeptByMessage(s: State, step: Step, c: nat)
    requires Inv(s) && Enabled(s, step) && (OfCallbacker(step) || step.Send?)
    requires c < |Next(s, step).channels| && Shape(Next(s, step))
    ensures ChannelOk(Next(s, step), c)
  {
    ChannelOfStep(s, step);
    assert ChannelOk(s, c);
  }

  lemma ChannelKeptByOthers(s: State, step: Step, c: nat)
    requires Inv(s) && Enabled(s, step) && !OfCallbacker(step) && !step.Send?
    requires c < |Next(s, step).channels| && Shape(Next(s, step))
    ensures ChannelOk(Next(s, step), c)
  {
    ChannelOfStep(s, step);
    if c < |s.channels| {
      assert ChannelOk(s, c);
    }
  }

  lemma TaskKept(s: State, step: Step, k: nat)
    requires Inv(s) && Enabled(s, step) && k < |Next(s, step).tasks|
    ensures Shape(Next(s, step)) && TaskOk(Next(s, step), k)
  {
    ShapeKept(s, step);
    if k == |s.tasks| {
      assert k !in s.ended;
    } else {
      match step
      case Begin(w) => TaskKeptByWork(s, step, k);
      case End(w, _) => TaskKeptByWork(s, step, k);
      case Send(w) => TaskKeptBySend(s, w, k);
      case Spawn => TaskKeptBySpawn(s, step, k);
      case HandOver(_) => TaskKeptBySpawn(s, step, k);
      case _ => TaskKeptByOthers(s, step, k);
    }
  }

  lemma TaskKeptByWork(s: State, step: Step, k: nat)
    requires Inv(s) && Enabled(s, step) && k < |s.tasks| && (step.Begin? || step.End?)
    requires Shape(Next(s, step))
    ensures TaskOk(Next(s, step), k)
  {
    assert TaskOk(s, k) && WorkerOk(s, step.w);
  }

  lemma TaskKeptBySend(s: State, w: nat, k: nat)
    requires Inv(s) && Enabled(s, Send(w)) && k < |s.tasks|
    requires Shape(Next(s, Send(w)))
    ensures TaskOk(Next(s, Send(w)), k)
  {
    ChannelOfStep(s, Send(w));
    assert TaskOk(s, k) && TaskOk(s, s.workers[w].task);
  }

  lemma TaskKeptBySpawn(s: State, step: Step, k: nat)
    requires Inv(s) && Enabled(s, step) && k < |s.tasks| && (step.Spawn? || step.HandOver?)
    requires Shape(Next(s, step))
    ensures TaskOk(Next(s, step), k)
  {
    assert TaskOk(s, k) && TaskOk(s, |s.tasks| - 1);
    if step.HandOver? {
      assert WorkerOk(s, step.w);
    }
  }

  lemma TaskKeptByOthers(s: State, step: Step, k: nat)
    requires Inv(s) && Enabled(s, step) && k < |s.tasks|
    requires !step.Begin? && !step.End? && !step.Send? && !step.Spawn? && !step.HandOver?
    requires Shape(Next(s, step))
    ensures TaskOk(Next(s, step), k)
  {
    ChannelOfStep(s, step);
    assert TaskOk(s, k);
  }

  lemma WorkerKept(s: State, step: Step, w: nat)
    requires Inv(s) && Enabled(s, step) && w < |Next(s, step).workers|
    ensures Shape(Next(s, step)) && WorkerOk(Next(s, step), w)
  {
    ShapeKept(s, step);
    if step.End? {
      EndKeepsWorker(s, step, w);
    } else {
      WorkerKeptByOthers(s, step, w);
    }
  }

  lemma EndKeepsWorker(s: State, step: Step, w: nat)
    requires Inv(s) && Enabled(s, step) && w < |Next(s, step).workers| && step.End? && Shape(Next(s, step))
    ensures WorkerOk(Next(s, step), w)
  {
    assert WorkerOk(s, w) && WorkerOk(s, step.w);
  }

  lemma WorkerKeptByOthers(s: State, step: Step, w: nat)
    requires Inv(s) && Enabled(s, step) && w < |Next(s, step).workers| && !step.End? && Shape(Next(s, step))
    ensures WorkerOk(Next(s, step), w)
  {
    ChannelOfStep(s, step);
    if w < |s.workers| {
      assert WorkerOk(s, w);
    }
  }

  lemma StepKeeps(s: State, step: Step)
    requires Inv(s) && Enabled(s, step)
    ensures Inv(Next(s, step))
  {
    var s' := Next(s, step);
    ShapeKept(s, step);
    CallbackerKept(s, step);
    PlacesKept(s, step);
    forall c | 0 <= c < |s'.channels|
      ensures ChannelOk(s', c)
    {
      ChannelKept(s, step, c);
    }
    forall k | 0 <= k < |s'.tasks|
      ensures TaskOk(s', k)
    {
      TaskKept(s, step, k);
    }
    forall w | 0 <= w < |s'.workers|
      ensures WorkerOk(s', w)
    {
      WorkerKept(s, step, w);
    }
  }

  ghost predicate Run(s: State, steps: seq<Step>, end: State)
    decreases |steps|
  {
    if steps == [] then s == end
    else Enabled(s, steps[0]) && Run(Next(s, steps[0]), steps[1..], end)
  }

  lemma {:induction false} RunKeeps(s: State, steps: seq<Step>, end: State)
    requires Inv(s) && Run(s, steps, end)
    ensures Inv(end) && end.limit == s.limit
    decreases |steps|
  {
    if steps != [] {
      StepKeeps(s, steps[0]);
      RunKeeps(Next(s, steps[0]), steps[1..], end);
    }
  }

  lemma InitInv(limit: nat)
    ensures Inv(Init(limit))
  {
    assert LiveWorkers(Init(limit)) == {};
  }

  /** In every interleaving: a task is started at most once; no more workers than the limit are
      live; the `k`-th message handled is the one of the `k`-th task submitted, which has
      ended the way the message says; the callbacks called, and the one being called, are those of
      the tasks that sent one, in that order; and a channel waiting in the pool is empty. */
  lemma RunsAreSafe(limit: nat, steps: seq<Step>, s: State)
    requires Run(Init(limit), steps, s)
    ensures forall k :: 0 <= k < |s.starts| ==> s.starts[k] <= 1
    ensures forall k :: k in s.ended ==> k < |s.starts| && s.starts[k] == 1
    ensures limit > 0 ==> |LiveWorkers(s)| <= limit
    ensures forall k :: 0 <= k < |s.received| ==>
      s.received[k].task == k && k in s.ended && s.received[k].outcome == s.ended[k]
    ensures s.called + UnderCall(s) == WithCallback(s.received)
    ensures forall c :: c in s.pool ==> c < |s.channels| && s.channels[c] == None
  {
    InitInv(limit);
    RunKeeps(Init(limit), steps, s);
    forall k | 0 <= k < |s.tasks|
      ensures s.starts[k] <= 1
      ensures k in s.ended ==> s.starts[k] == 1
      ensures k < |s.received| ==>
        s.received[k].task == k && k in s.ended && s.received[k].outcome == s.ended[k]
    {
      assert TaskOk(s, k);
    }
    forall c | c in s.pool
      ensures c < |s.channels| && s.channels[c] == None
    {
      assert ChannelOk(s, c);
    }
  }

  /** When Wait has returned, every submitted task was started exactly once and has ended, its
      callback has been handled in its turn, and no goroutine of the stream is left. */
  lemma WaitReturnsAfterAll(limit: nat, steps: seq<Step>, s: State)
    requires Run(Init(limit), steps, s) && s.submitter == Finished
    ensures |s.received| == |s.starts|
    ensures forall k :: 0 <= k < |s.starts| ==> s.starts[k] == 1 && k in s.ended && s.received[k].task == k
    ensures forall w :: 0 <= w < |s.workers| ==> s.workers[w] == Gone
    ensures s.callbacker == Stopped && s.queue == [] && s.called == WithCallback(s.received)
  {
    InitInv(limit);
    RunKeeps(Init(limit), steps, s);
    forall k | 0 <= k < |s.starts|
      ensures s.starts[k] == 1 && k in s.ended && s.received[k].task == k
    {
      assert TaskOk(s, k);
    }
    forall w | 0 <= w < |s.workers|
      ensures s.workers[w] == Gone
    {
      assert WorkerOk(s, w);
    }
  }

  /** A worker that is not gone can always take a step, once the task channel is closed or
      unless it waits for a task. Its channel is never full when it sends. */
  lemma WorkerMoves(s: State, w: nat) returns (step: Step)
    requires Inv(s) && w < |s.workers| && s.workers[w] != Gone
    requires s.workers[w] == Idle ==> s.submitter == Submitting || TasksClosed(s)
    ensures Enabled(s, step) && !step.Collect? && !step.CallWait? && !step.TakePooled? && !step.MakeChannel?
  {
    assert WorkerOk(s, w);
    match s.workers[w]
    case Assigned(_, _) => step := Begin(w);
    case Working(_, _) => step := End(w, Returned);
    case Sending(k, c, _) =>
      assert TaskOk(s, k);
      assert ChannelOk(s, c);
      step := Send(w);
    case Idle => step := if s.submitter == Submitting then HandOver(w) else LeaveLoop(w);
    case Releasing =>
      assert w in LiveWorkers(s);
      step := Release(w);
    case Leaving => step := CountDown(w);
  }

  /** The callback goroutine can move, or a worker can, unless the callback goroutine waits for
      the submitter. */
  lemma CallbackerMoves(s: State) returns (step: Step)
    requires Inv(s) && s.callbacker != Stopped
    requires s.callbacker == Ranging ==> s.queue != [] || QueueClosed(s)
    requires s.submitter != Submitting
    ensures Enabled(s, step) && !step.Collect? && !step.CallWait? && !step.TakePooled? && !step.MakeChannel?
  {
    match s.callbacker
    case Ranging => step := if s.queue != [] then NextChannel else EndOfQueue;
    case Receiving(c) =>
      var k := |s.received|;
      assert TaskOk(s, k);
      assert ChannelOk(s, c);
      if s.tasks[k].Sent? {
        step := Receive;
      } else {
        step := WorkerMoves(s, s.tasks[k].w);
      }
    case Calling(_, _) => step := CallbackEnds;
    case Putting(_) => step := PutBack;
  }

  /** No interleaving gets stuck: until Wait has returned, and unless the submitter is free to
      make its next call, some goroutine can take a step, provided tasks and callbacks end. */
  lemma NeverStuck(limit: nat, steps: seq<Step>, s: State) returns (step: Step)
    requires Run(Init(limit), steps, s)
    requires s.submitter != Ready && s.submitter != Finished
    ensures Enabled(s, step) && !step.Collect? && !step.CallWait? && !step.TakePooled? && !step.MakeChannel?
  {
    InitInv(limit);
    RunKeeps(Init(limit), steps, s);
    match s.submitter
    case HasChannel(_) =>
      if |s.queue| < s.limit + 1 {
        step := Enqueue;
      } else {
        step := CallbackerMoves(s);
      }
    case Submitting =>
      if s.limit == 0 || s.places < s.limit {
        step := Spawn;
      } else {
        assert |LiveWorkers(s)| > 0;
        var w :| w in LiveWorkers(s);
        step := WorkerMoves(s, w);
      }
    case Waiting =>
      if w :| 0 <= w < |s.workers| && s.workers[w] != Gone {
        step := WorkerMoves(s, w);
      } else {
        step := WorkersDone;
      }
    case Joined => step := CloseQueue;
    case Draining =>
      if s.callbacker == Stopped {
        step := CallbacksDone;
      } else {
        step := CallbackerMoves(s);
      }
  }

  // ---------------------------------------------------------------- every run comes to an end

  function SubmitterWork(s: Submitter): nat {
    match s
    case Finished => 0
    case Draining => 1
    case Joined => 2
    case Waiting => 3
    case Ready => 4
    case Submitting => 11
    case HasChannel(_) => 17
  }

  function WorkerWork(w: Worker): nat {
    match w
    case Gone => 0
    case Leaving => 1
    case Releasing => 2
    case Idle => 3
    case Sending(_, _, _) => 4
    case Working(_, _) => 5
    case Assigned(_, _) => 6
  }

  function CallbackerWork(c: Callbacker): nat {
    match c
    case Stopped => 0
    case Ranging => 1
    case Putting(_) => 3
    case Calling(_, _) => 4
    case Receiving(_) => 5
  }

  function WorkersWork(workers: seq<Worker>): nat {
    if workers == [] then 0 else WorkersWork(workers[..|workers| - 1]) + WorkerWork(workers[|workers| - 1])
  }

  lemma {:induction false} WorkChanges(workers: seq<Worker>, w: nat, worker: Worker)
    requires w < |workers|
    ensures WorkersWork(workers[w := worker]) == WorkersWork(workers) - WorkerWork(workers[w]) + WorkerWork(worker)
  {
    var n := |workers| - 1;
    if w == n {
      assert workers[w := worker][..n] == workers[..n];
    } else {
      WorkChanges(workers[..n], w, worker);
      assert workers[w := worker][..n] == workers[..n][w := worker];
    }
  }

  lemma WorkAdds(workers: seq<Worker>, worker: Worker)
    ensures WorkersWork(workers + [worker]) == WorkersWork(workers) + WorkerWork(worker)
  {
    assert (workers + [worker])[..|workers|] == workers;
  }

  /** What is left to do, without any further task. */
  function Work(s: State): nat {
    SubmitterWork(s.submitter) + WorkersWork(s.workers) + CallbackerWork(s.callbacker) + 5 * |s.queue| + |s.pool|
  }

  predicate Submits(step: Step) {
    step.TakePooled? || step.MakeChannel?
  }

  /** The number of tasks whose submission has begun. */
  function Submissions(steps: seq<Step>): nat {
    if steps == [] then 0 else (if Submits(steps[0]) then 1 else 0) + Submissions(steps[1..])
  }

  lemma WorkersStep(s: State, step: Step)
    requires Enabled(s, step)
    ensures var s' := Next(s, step);
      WorkersWork(s'.workers) <= WorkersWork(s.workers) +
        (if step.Spawn? then 6 else if step.HandOver? then 3 else 0)
    ensures step.Begin? || step.End? || step.Send? || step.LeaveLoop? || step.Release? || step.CountDown? ==>
      WorkersWork(Next(s, step).workers) < WorkersWork(s.workers)
  {
    match step
    case Spawn => WorkAdds(s.workers, Assigned(Job(s).0, Job(s).1));
    case HandOver(w) => WorkChanges(s.workers, w, Assigned(Job(s).0, Job(s).1));
    case Begin(w) => WorkChanges(s.workers, w, Next(s, step).workers[w]);
    case End(w, _) => WorkChanges(s.workers, w, Next(s, step).workers[w]);
    case Send(w) => WorkChanges(s.workers, w, Next(s, step).workers[w]);
    case LeaveLoop(w) => WorkChanges(s.workers, w, Releasing);
    case Release(w) => WorkChanges(s.workers, w, Leaving);
    case CountDown(w) => WorkChanges(s.workers, w, Gone);
    case _ =>
  }

  /** Every step but the beginning of a submission leaves less to do. */
  lemma StepWorks(s: State, step: Step)
    requires Enabled(s, step)
    ensures Work(Next(s, step)) + 1 <= Work(s) + if Submits(step) then 14 else 0
  {
    WorkersStep(s, step);
  }

  lemma {:induction false} RunWorks(s: State, steps: seq<Step>, end: State)
    requires Run(s, steps, end)
    ensures Work(end) + |steps| <= Work(s) + 14 * Submissions(steps)
    decreases |steps|
  {
    if steps != [] {
      StepWorks(s, steps[0]);
      RunWorks(Next(s, steps[0]), steps[1..], end);
    }
  }

  /** No interleaving goes on for ever: with `n` tasks there are at most 14 steps for each and five
      more. As no run gets stuck before Wait has returned, it returns. */
  lemma RunsEnd(limit: nat, steps: seq<Step>, s: State)
    requires Run(Init(limit), steps, s)
    ensures |steps| <= 5 + 14 * Submissions(steps)
  {
    RunWorks(Init(limit), steps, s);
  }

  /** Every submission puts one more task on the stream, and nothing else does. */
  lemma {:induction false} TasksAreSubmissions(s: State, steps: seq<Step>, end: State)
    requires Inv(s) && Run(s, steps, end)
    ensures |end.tasks| + (if end.submitter.HasChannel? then 1 else 0) ==
      |s.tasks| + (if s.submitter.HasChannel? then 1 else 0) + Submissions(steps)
    decreases |steps|
  {
    if steps != [] {
      StepKeeps(s, steps[0]);
      TasksAreSubmissions(Next(s, steps[0]), steps[1..], end);
    }
  }

  // ---------------------------------------------------------------- when a worker leaves

  predicate Left(w: Worker) {
    w == Releasing || w == Leaving || w == Gone
  }

  /** A task the worker ran has panicked. */
  ghost predicate Spoiled(s: State, w: nat) {
    exists k: nat :: k < |s.tasks| && PanickedAt(s.tasks[k], w)
  }

  predicate PanickedAt(t: Task, w: nat) {
    t.Sent? && t.w == w && t.message.outcome == Panicked
  }

  ghost predicate LeavesOk(s: State, w: nat)
    requires w < |s.workers|
  {
    && (Left(s.workers[w]) ==> TasksClosed(s) || Spoiled(s, w))
    && (Spoiled(s, w) ==> Left(s.workers[w]))
  }

  /** What has been sent stays sent, and nothing is sent but by the step that does. */
  lemma SentStays(s: State, step: Step, w: nat)
    requires Inv(s) && Enabled(s, step)
    ensures Spoiled(Next(s, step), w) <==>
      Spoiled(s, w) || (step == Send(w) && s.workers[w].message.outcome == Panicked)
  {
    var s' := Next(s, step);
    SentByStep(s, step);
    if k: nat :| k < |s.tasks| && PanickedAt(s.tasks[k], w) {
      assert PanickedAt(s'.tasks[k], w);
    }
    if step == Send(w) && s.workers[w].message.outcome == Panicked {
      assert PanickedAt(s'.tasks[s.workers[w].task], w);
    }
    if k: nat :| k < |s'.tasks| && PanickedAt(s'.tasks[k], w) {
      if k < |s.tasks| && s.tasks[k].Sent? {
        assert PanickedAt(s.tasks[k], w);
      }
    }
  }

  lemma SentByStep(s: State, step: Step)
    requires Inv(s) && Enabled(s, step)
    ensures var s' := Next(s, step);
      && |s'.tasks| >= |s.tasks|
      && (forall k :: 0 <= k < |s.tasks| && s.tasks[k].Sent? ==> s'.tasks[k] == s.tasks[k])
      && (forall k :: 0 <= k < |s'.tasks| && s'.tasks[k].Sent? && !(k < |s.tasks| && s.tasks[k].Sent?) ==>
            step.Send? && s'.tasks[k] == Sent(step.w, s.workers[step.w].message))
      && (step.Send? ==>
            s.workers[step.w].task < |s.tasks| &&
            s'.tasks[s.workers[step.w].task] == Sent(step.w, s.workers[step.w].message))
  {
    ChannelOfStep(s, step);
    match step
    case Spawn => assert TaskOk(s, |s.tasks| - 1);
    case HandOver(_) => assert TaskOk(s, |s.tasks| - 1);
    case _ =>
  }

  lemma LeavesKept(s: State, step: Step, w: nat)
    requires Inv(s) && Enabled(s, step) && w < |Next(s, step).workers|
    requires w < |s.workers| ==> LeavesOk(s, w)
    requires w == |s.workers| ==> !Spoiled(s, w)
    ensures LeavesOk(Next(s, step), w)
  {
    SentStays(s, step, w);
  }

  /** No task was run by a worker that is not there. */
  ghost predicate SendersOk(s: State) {
    forall k :: 0 <= k < |s.tasks| && s.tasks[k].Sent? ==> s.tasks[k].w < |s.workers|
  }

  ghost predicate AllLeaveOk(s: State) {
    SendersOk(s) && forall w :: 0 <= w < |s.workers| ==> LeavesOk(s, w)
  }

  lemma AllLeavesKept(s: State, step: Step)
    requires Inv(s) && Enabled(s, step) && AllLeaveOk(s)
    ensures AllLeaveOk(Next(s, step))
  {
    SentByStep(s, step);
    forall w | 0 <= w < |Next(s, step).workers|
      ensures LeavesOk(Next(s, step), w)
    {
      LeavesKept(s, step, w);
    }
  }

  lemma {:induction false} RunLeaves(s: State, steps: seq<Step>, end: State)
    requires Inv(s) && AllLeaveOk(s) && Run(s, steps, end)
    ensures AllLeaveOk(end)
    decreases |steps|
  {
    if steps != [] {
      StepKeeps(s, steps[0]);
      AllLeavesKept(s, steps[0]);
      RunLeaves(Next(s, steps[0]), steps[1..], end);
    }
  }

  /** In every interleaving a worker has left before the task channel is closed exactly if one of its
      tasks panicked: it is the last it has run. */
  lemma WorkersStay(limit: nat, steps: seq<Step>, s: State, w: nat)
    requires Run(Init(limit), steps, s) && w < |s.workers|
    ensures Spoiled(s, w) ==> Left(s.workers[w])
    ensures !TasksClosed(s) ==> (Left(s.workers[w]) <==> Spoiled(s, w))
  {
    InitInv(limit);
    RunLeaves(Init(limit), steps, s);
    assert LeavesOk(s, w);
  }
}
