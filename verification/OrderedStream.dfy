/**
 A stream of tasks run on a bounded pool of workers, whose callbacks a single goroutine
 calls in the order the tasks were submitted. One goroutine submits and then waits; the
 workers, the callback goroutine and it interleave freely between the atomic steps below.
 */
module OrderedStream {

  import opened Wrappers

  /** How a task ended: with a callback, with none, or by panicking. */
  datatype Outcome = Returned | ReturnedNil | Panicked

  /** What a task sends on its channel; a panicking task sends a callback that does nothing. */
  datatype Message = Message(task: nat, outcome: Outcome)

  /** The submitting goroutine, inside Go or Wait.
      - `Ready`: between calls
      - `HasChannel(c)`: took a channel, about to put it on the queue
      - `Submitting`: the channel is queued, the task not yet given to a worker
      - `Waiting`: closed the task channel, waits for the workers
      - `Joined`: the workers are gone, the queue not yet closed
      - `Draining`: closed the queue, waits for the callback goroutine
      - `Finished`: Wait has returned */
  datatype Submitter = Ready | HasChannel(c: nat) | Submitting | Waiting | Joined | Draining | Finished

  /** A worker goroutine.
      - `Assigned`, `Working`, `Sending`: about to run a task, running it, about to send its message
      - `Idle`: asks the task channel for more
      - `Releasing`: left its loop, still holds its place in the limiter
      - `Leaving`: gave its place back, not yet counted down by the wait group
      - `Gone` */
  datatype Worker =
    | Assigned(task: nat, c: nat)
    | Working(task: nat, c: nat)
    | Sending(task: nat, c: nat, message: Message)
    | Idle | Releasing | Leaving | Gone

  /** The callback goroutine: between channels, waiting for a channel's message, calling the
      callback, about to give the channel back, or returned. */
  datatype Callbacker = Ranging | Receiving(c: nat) | Calling(c: nat, task: nat) | Putting(c: nat) | Stopped

  /** Who a channel belongs to; no step reads it. */
  datatype Owner = Pooled | Collected | Submitters | Tasks(task: nat) | Callbackers

  /** What became of a task; no step reads it. */
  datatype Task = Pending | AtWorker(w: nat) | Sent(w: nat, message: Message)

  /** `channels[c]` is the content of the one-place channel `c`. The logs below `callbacker` are
      read by no step: the channel of each task, how often each was started, how those that have
      ended did, the messages the callback goroutine has received, and the tasks whose callbacks
      have been called. */
  datatype State = State(
    limit: nat,
    places: nat,
    channels: seq<Option<Message>>,
    pool: set<nat>,
    queue: seq<nat>,
    submitter: Submitter,
    workers: seq<Worker>,
    callbacker: Callbacker,
    channelOf: seq<nat>,
    owners: seq<Owner>,
    tasks: seq<Task>,
    starts: seq<nat>,
    ended: map<nat, Outcome>,
    received: seq<Message>,
    called: seq<nat>)

  datatype Step =
    | TakePooled(c: nat)
    | MakeChannel
    | Collect(c: nat)
    | Enqueue
    | Spawn
    | HandOver(w: nat)
    | Begin(w: nat)
    | End(w: nat, outcome: Outcome)
    | Send(w: nat)
    | LeaveLoop(w: nat)
    | Release(w: nat)
    | CountDown(w: nat)
    | CallWait
    | WorkersDone
    | CloseQueue
    | CallbacksDone
    | NextChannel
    | EndOfQueue
    | Receive
    | CallbackEnds
    | PutBack

  /** `limit` is 0 when the pool has no limiter. */
  function Init(limit: nat): State {
    State(limit, 0, [], {}, [], Ready, [], Ranging, [], [], [], [], map[], [], [])
  }

  predicate TasksClosed(s: State) {
    s.submitter in {Waiting, Joined, Draining, Finished}
  }

  predicate QueueClosed(s: State) {
    s.submitter in {Draining, Finished}
  }

  /** A pool without a limiter may always spawn: its select falls through whenever no worker
      is receiving at that instant. */
  predicate Enabled(s: State, step: Step) {
    match step
    case TakePooled(c) => s.submitter == Ready && c in s.pool
    case MakeChannel => s.submitter == Ready
    case Collect(c) => c in s.pool
    case Enqueue => s.submitter.HasChannel? && |s.queue| < s.limit + 1
    case Spawn => s.submitter == Submitting && (s.limit == 0 || s.places < s.limit) && s.channelOf != []
    case HandOver(w) => s.submitter == Submitting && w < |s.workers| && s.workers[w] == Idle && s.channelOf != []
    case Begin(w) => w < |s.workers| && s.workers[w].Assigned?
    case End(w, _) => w < |s.workers| && s.workers[w].Working?
    case Send(w) =>
      w < |s.workers| && s.workers[w].Sending? && s.workers[w].c < |s.channels| && s.channels[s.workers[w].c].None?
    case LeaveLoop(w) => w < |s.workers| && s.workers[w] == Idle && TasksClosed(s)
    case Release(w) => w < |s.workers| && s.workers[w] == Releasing && (s.limit > 0 ==> s.places > 0)
    case CountDown(w) => w < |s.workers| && s.workers[w] == Leaving
    case CallWait => s.submitter == Ready
    case WorkersDone => s.submitter == Waiting && forall w :: 0 <= w < |s.workers| ==> s.workers[w] == Gone
    case CloseQueue => s.submitter == Joined
    case CallbacksDone => s.submitter == Draining && s.callbacker == Stopped
    case NextChannel => s.callbacker == Ranging && s.queue != []
    case EndOfQueue => s.callbacker == Ranging && s.queue == [] && QueueClosed(s)
    case Receive => s.callbacker.Receiving? && s.callbacker.c < |s.channels| && s.channels[s.callbacker.c].Some?
    case CallbackEnds => s.callbacker.Calling?
    case PutBack => s.callbacker.Putting?
  }

  function Owned(s: State, c: nat, owner: Owner): seq<Owner> {
    if c < |s.owners| then s.owners[c := owner] else s.owners
  }

  /** The submitted task and its channel. */
  function Job(s: State): (nat, nat)
    requires s.channelOf != []
  {
    (|s.channelOf| - 1, s.channelOf[|s.channelOf| - 1])
  }

  function Logged(s: State, task: nat, t: Task): seq<Task> {
    if task < |s.tasks| then s.tasks[task := t] else s.tasks
  }

  function Next(s: State, step: Step): State
    requires Enabled(s, step)
  {
    match step
    case TakePooled(c) => s.(pool := s.pool - {c}, submitter := HasChannel(c), owners := Owned(s, c, Submitters))
    case MakeChannel =>
      s.(channels := s.channels + [None], submitter := HasChannel(|s.channels|), owners := s.owners + [Submitters])
    case Collect(c) => s.(pool := s.pool - {c}, owners := Owned(s, c, Collected))
    case Enqueue =>
      var c := s.submitter.c;
      s.(queue := s.queue + [c], submitter := Submitting, channelOf := s.channelOf + [c],
         owners := Owned(s, c, Tasks(|s.tasks|)), tasks := s.tasks + [Pending], starts := s.starts + [0])
    case Spawn =>
      s.(places := if s.limit > 0 then s.places + 1 else s.places, submitter := Ready,
         workers := s.workers + [Assigned(Job(s).0, Job(s).1)], tasks := Logged(s, Job(s).0, AtWorker(|s.workers|)))
    case HandOver(w) =>
      s.(submitter := Ready, workers := s.workers[w := Assigned(Job(s).0, Job(s).1)],
         tasks := Logged(s, Job(s).0, AtWorker(w)))
    case Begin(w) =>
      var k := s.workers[w].task;
      s.(workers := s.workers[w := Working(k, s.workers[w].c)],
         starts := if k < |s.starts| then s.starts[k := s.starts[k] + 1] else s.starts)
    case End(w, outcome) =>
      var k := s.workers[w].task;
      s.(workers := s.workers[w := Sending(k, s.workers[w].c, Message(k, outcome))], ended := s.ended[k := outcome])
    case Send(w) =>
      var k, c, m := s.workers[w].task, s.workers[w].c, s.workers[w].message;
      s.(channels := s.channels[c := Some(m)],
         workers := s.workers[w := if m.outcome == Panicked then Releasing else Idle],
         tasks := Logged(s, k, Sent(w, m)))
    case LeaveLoop(w) => s.(workers := s.workers[w := Releasing])
    case Release(w) => s.(workers := s.workers[w := Leaving], places := if s.limit > 0 then s.places - 1 else s.places)
    case CountDown(w) => s.(workers := s.workers[w := Gone])
    case CallWait => s.(submitter := Waiting)
    case WorkersDone => s.(submitter := Joined)
    case CloseQueue => s.(submitter := Draining)
    case CallbacksDone => s.(submitter := Finished)
    case NextChannel => s.(queue := s.queue[1..], callbacker := Receiving(s.queue[0]))
    case EndOfQueue => s.(callbacker := Stopped)
    case Receive =>
      var c := s.callbacker.c;
      var m := s.channels[c].value;
      s.(channels := s.channels[c := None],
         callbacker := if m.outcome == ReturnedNil then Putting(c) else Calling(c, m.task),
         owners := Owned(s, c, Callbackers), received := s.received + [m])
    case CallbackEnds => s.(callbacker := Putting(s.callbacker.c), called := s.called + [s.callbacker.task])
    case PutBack =>
      var c := s.callbacker.c;
      s.(pool := s.pool + {c}, callbacker := Ranging, owners := Owned(s, c, Pooled))
  }

  // ---------------------------------------------------------------- the invariant

  ghost predicate Shape(s: State) {
    && |s.tasks| == |s.channelOf| == |s.starts|
    && |s.owners| == |s.channels|
    && |s.received| <= |s.tasks|
  }

  predicate HasTask(w: Worker) {
    w.Assigned? || w.Working? || w.Sending?
  }

  /** Holds a place in the limiter. */
  predicate Live(w: Worker) {
    HasTask(w) || w == Idle || w == Releasing
  }

  ghost function LiveWorkers(s: State): set<nat> {
    set w | 0 <= w < |s.workers| && Live(s.workers[w])
  }

  /** A channel belongs to one party, is in the pool exactly when it is the pool's, and is empty
      unless its task has sent its message. */
  ghost predicate ChannelOk(s: State, c: nat)
    requires Shape(s) && c < |s.channels|
  {
    && (c in s.pool <==> s.owners[c] == Pooled)
    && match s.owners[c]
       case Submitters => s.submitter == HasChannel(c) && s.channels[c].None?
       case Tasks(k) =>
         && |s.received| <= k < |s.tasks|
         && s.channelOf[k] == c
         && s.channels[c] == (if s.tasks[k].Sent? then Some(s.tasks[k].message) else None)
       case Callbackers =>
         (s.callbacker.Calling? || s.callbacker.Putting?) && s.callbacker.c == c && s.channels[c].None?
       case _ => s.channels[c].None?
  }

  ghost predicate TaskOk(s: State, k: nat)
    requires Shape(s) && k < |s.tasks|
  {
    && (k < |s.received| ==> s.tasks[k].Sent? && s.tasks[k].message == s.received[k])
    && (k >= |s.received| ==> s.channelOf[k] < |s.channels| && s.owners[s.channelOf[k]] == Tasks(k))
    && (k in s.ended <==>
          || s.tasks[k].Sent?
          || (s.tasks[k].AtWorker? && s.tasks[k].w < |s.workers| && s.workers[s.tasks[k].w].Sending?))
    && match s.tasks[k]
       case Pending => k == |s.tasks| - 1 && s.submitter == Submitting && s.starts[k] == 0
       case AtWorker(w) =>
         && w < |s.workers| && HasTask(s.workers[w])
         && s.workers[w].task == k && s.workers[w].c == s.channelOf[k]
         && s.starts[k] == if s.workers[w].Assigned? then 0 else 1
       case Sent(_, m) => m.task == k && s.starts[k] == 1 && k in s.ended && m.outcome == s.ended[k]
  }

  ghost predicate WorkerOk(s: State, w: nat)
    requires Shape(s) && w < |s.workers|
  {
    && (HasTask(s.workers[w]) ==> s.workers[w].task < |s.tasks| && s.tasks[s.workers[w].task] == AtWorker(w))
    && (s.workers[w].Sending? ==>
          && s.workers[w].message.task == s.workers[w].task
          && s.workers[w].task in s.ended && s.workers[w].message.outcome == s.ended[s.workers[w].task])
    && (s.submitter in {Joined, Draining, Finished} ==> s.workers[w] == Gone)
  }

  ghost predicate SubmitterOk(s: State)
    requires Shape(s)
  {
    && (s.submitter.HasChannel? ==> s.submitter.c < |s.channels| && s.owners[s.submitter.c] == Submitters)
    && (s.submitter == Submitting ==> s.tasks != [] && s.tasks[|s.tasks| - 1] == Pending)
    && (s.submitter == Finished ==> s.callbacker == Stopped)
    && (forall k :: k in s.ended ==> k < |s.tasks|)
    && (forall c :: c in s.pool ==> c < |s.channels|)
  }

  /** The tasks whose channels the callback goroutine has taken off the queue. */
  function Taken(s: State): nat {
    |s.received| + if s.callbacker.Receiving? then 1 else 0
  }

  /** The tasks that sent a callback, in the order of their messages. */
  function WithCallback(messages: seq<Message>): seq<nat> {
    if messages == [] then []
    else
      var last := messages[|messages| - 1];
      WithCallback(messages[..|messages| - 1]) + if last.outcome == ReturnedNil then [] else [last.task]
  }

  /** The task whose callback is being called. */
  function UnderCall(s: State): seq<nat> {
    if s.callbacker.Calling? then [s.callbacker.task] else []
  }

  ghost predicate CallbackerOk(s: State)
    requires Shape(s)
  {
    && Taken(s) + |s.queue| == |s.tasks|
    && (forall i :: 0 <= i < |s.queue| ==> s.queue[i] == s.channelOf[Taken(s) + i])
    && |s.queue| <= s.limit + 1
    && s.called + UnderCall(s) == WithCallback(s.received)
    && match s.callbacker
       case Receiving(c) => c == s.channelOf[|s.received|]
       case Calling(c, _) => c < |s.channels| && s.owners[c] == Callbackers
       case Putting(c) => c < |s.channels| && s.owners[c] == Callbackers
       case Stopped => QueueClosed(s) && s.queue == []
       case Ranging => true
  }

  ghost predicate PlacesOk(s: State) {
    if s.limit > 0 then s.places == |LiveWorkers(s)| <= s.limit else s.places == 0
  }

  ghost predicate Inv(s: State) {
    && Shape(s) && SubmitterOk(s) && CallbackerOk(s) && PlacesOk(s)
    && (forall c :: 0 <= c < |s.channels| ==> ChannelOk(s, c))
    && (forall k :: 0 <= k < |s.tasks| ==> TaskOk(s, k))
    && (forall w :: 0 <= w < |s.workers| ==> WorkerOk(s, w))
  }
}
