/**
 Reader, decoder and display around one packet queue. The codec is a bag of packets that a
 flush empties; a frame remembers the packets it was made from. Packets are identified by
 the place of their put in the history of the queue, which no step reads.
 */
module PlayerProtocol {

  import opened Wrappers
  import Q = PacketQueue

  /** What happened to the queue: a put that was accepted, or a flush or start. */
  datatype Event = Queued | NewSerial

  datatype Frame = Frame(origin: set<nat>, serial: int)

  /** Where the decoder thread is.
      - `Top`: about to compare the serials
      - `Receiving`: they agreed; about to look at the abort request
      - `Asking`: not aborted then; about to ask the codec for a frame
      - `GotFrame`: a frame was returned and is about to be queued
      - `Fetching`: about to take the pending packet or one from the queue
      - `Switched`: took a packet of another serial, codec not yet flushed
      - `Checking`: about to compare the serial again
      - `Sending`: about to hand the packet to the codec
      - `Exited`: the thread has ended */
  datatype Pc =
    | Top | Receiving | Asking | GotFrame(origin: set<nat>) | Fetching | Switched | Checking | Sending | Exited

  datatype Decoder = Decoder(pc: Pc, pktSerial: int, finished: int, pending: bool, pkt: Option<nat>, codec: set<nat>)

  /** A stream is closed, open, or aborted and waiting for its decoder thread. */
  datatype Stage = Closed | Open | Stopping

  /** No step reads `history` and `sent`, the packets the codec has accepted. */
  datatype State = State(
    q: Q.State, history: seq<Event>, stage: Stage, d: Decoder, frames: seq<Frame>, sent: seq<nat>)

  datatype Answer = Again | EndOfStream | Failed | Output(origin: set<nat>, left: set<nat>)

  datatype Step =
    | ReaderPut(size: nat, duration: int)
    | ReaderFlush
    | StreamStart
    | StreamAbort
    | StreamClose
    | CompareSerials
    | CheckAbort
    | Receive(answer: Answer)
    | QueueFrame(drop: bool)
    | Fetch
    | FlushCodec
    | CompareAgain
    | Send(refused: bool)
    | Display

  const NEW_DECODER := Decoder(Top, -1, 0, false, None, {})

  function Init(): State {
    State(Q.Initial(), [], Closed, NEW_DECODER.(pc := Exited), [], [])
  }

  predicate Enabled(s: State, step: Step) {
    match step
    case ReaderPut(_, _) => true
    case ReaderFlush => true
    case StreamStart => s.stage == Closed
    case StreamAbort => s.stage == Open
    case StreamClose => s.stage == Stopping && s.d.pc == Exited
    case CompareSerials => s.d.pc == Top
    case CheckAbort => s.d.pc == Receiving
    case Receive(answer) =>
      s.d.pc == Asking && (answer.Output? ==> answer.origin <= s.d.codec && answer.left <= s.d.codec)
    case QueueFrame(_) => s.d.pc.GotFrame?
    case Fetch => s.d.pc == Fetching && (s.d.pending || s.q.abortRequest || s.q.list != [])
    case FlushCodec => s.d.pc == Switched
    case CompareAgain => s.d.pc == Checking
    case Send(_) => s.d.pc == Sending && s.d.pkt.Some?
    case Display => s.frames != []
  }

  function Next(s: State, step: Step): State
    requires Enabled(s, step)
  {
    var d := s.d;
    match step
    case ReaderPut(size, duration) =>
      if s.q.abortRequest then s
      else s.(q := Q.Put(s.q, Q.Packet(|s.history|, size, duration)), history := s.history + [Queued])
    case ReaderFlush => s.(q := Q.Flush(s.q), history := s.history + [NewSerial])
    case StreamStart => s.(q := Q.Start(s.q), history := s.history + [NewSerial], stage := Open, d := NEW_DECODER)
    case StreamAbort => s.(q := Q.Abort(s.q), stage := Stopping)
    case StreamClose => s.(q := Q.Flush(s.q), history := s.history + [NewSerial], stage := Closed)
    case CompareSerials => s.(d := d.(pc := if s.q.serial == d.pktSerial then Receiving else Fetching))
    case CheckAbort => s.(d := d.(pc := if s.q.abortRequest then Exited else Asking))
    case Receive(answer) =>
      (match answer
       case Again => s.(d := d.(pc := Fetching))
       case EndOfStream => s.(d := d.(pc := Top, finished := d.pktSerial, codec := {}))
       case Failed => s.(d := d.(pc := Receiving))
       case Output(origin, left) => s.(d := d.(pc := GotFrame(origin), codec := left)))
    case QueueFrame(drop) =>
      if drop then s.(d := d.(pc := Top))
      else if s.q.abortRequest then s.(d := d.(pc := Exited))
      else s.(d := d.(pc := Top), frames := s.frames + [Frame(d.pc.origin, d.pktSerial)])
    case Fetch =>
      if d.pending then s.(d := d.(pc := Checking, pending := false))
      else if s.q.abortRequest then s.(d := d.(pc := Exited))
      else
        var first := s.q.list[0];
        s.(q := Q.Take(s.q),
           d := d.(pc := if first.serial != d.pktSerial then Switched else Checking,
                   pktSerial := first.serial,
                   pkt := Some(first.pkt.id)))
    case FlushCodec => s.(d := d.(pc := Checking, codec := {}, finished := 0))
    case CompareAgain =>
      if s.q.serial == d.pktSerial then s.(d := d.(pc := Sending)) else s.(d := d.(pc := Fetching, pkt := None))
    case Send(refused) =>
      if refused then s.(d := d.(pc := Top, pending := true))
      else s.(d := d.(pc := Top, pkt := None, codec := d.codec + {d.pkt.value}), sent := s.sent + [d.pkt.value])
    case Display => s.(frames := s.frames[1..])
  }

  /** What the display does with its next frame: shows it or throws it away. */
  predicate Accepts(s: State)
    requires s.frames != []
  {
    s.frames[0].serial == s.q.serial
  }

  // ---------------------------------------------------------------- the invariant

  /** The serial the queue had after the first `i` events. */
  function SerialAt(history: seq<Event>, i: nat): int
    requires i <= |history|
  {
    if i == 0 then 0 else SerialAt(history, i - 1) + if history[i - 1] == NewSerial then 1 else 0
  }

  /** `id` is a packet that was queued under `serial`. */
  ghost predicate QueuedUnder(history: seq<Event>, id: nat, serial: int) {
    id < |history| && history[id] == Queued && SerialAt(history, id) == serial
  }

  /** `id` was queued, and the queue has not been flushed since. */
  ghost predicate Current(history: seq<Event>, id: nat) {
    id < |history| && history[id] == Queued && forall i :: id <= i < |history| ==> history[i] != NewSerial
  }

  ghost predicate QueueOk(s: State) {
    && Q.Totals(s.q)
    && s.q.serial == SerialAt(s.history, |s.history|)
    && (forall i :: 0 <= i < |s.q.list| ==>
          s.q.list[i].serial == s.q.serial && QueuedUnder(s.history, s.q.list[i].pkt.id, s.q.serial))
    && (s.stage == Closed ==> s.q.list == [] && s.d.pc == Exited)
    && (s.stage == Open <==> !s.q.abortRequest)
  }

  ghost predicate DecoderOk(s: State) {
    var d := s.d;
    && (d.pc != Switched ==> forall id :: id in d.codec ==> QueuedUnder(s.history, id, d.pktSerial))
    && 0 <= s.q.serial && d.pktSerial <= s.q.serial
    && (d.pkt.Some? ==> QueuedUnder(s.history, d.pkt.value, d.pktSerial))
    && (d.pending || d.pc in {Switched, Checking, Sending} <==> d.pkt.Some?)
    && (d.pending ==> d.pc !in {Switched, Checking, Sending})
    && (d.pc.GotFrame? ==> forall id :: id in d.pc.origin ==> QueuedUnder(s.history, id, d.pktSerial))
  }

  ghost predicate FramesOk(s: State) {
    forall i, id :: 0 <= i < |s.frames| && id in s.frames[i].origin ==> QueuedUnder(s.history, id, s.frames[i].serial)
  }

  ghost predicate Inv(s: State) {
    QueueOk(s) && DecoderOk(s) && FramesOk(s)
  }

  // ---------------------------------------------------------------- the proofs

  lemma {:induction false} SerialAtAppend(history: seq<Event>, e: Event, i: nat)
    requires i <= |history|
    ensures SerialAt(history + [e], i) == SerialAt(history, i)
  {
    if i > 0 {
      SerialAtAppend(history, e, i - 1);
    }
  }

  lemma HistoryGrows(history: seq<Event>, e: Event)
    ensures forall id, serial :: QueuedUnder(history, id, serial) ==> QueuedUnder(history + [e], id, serial)
    ensures SerialAt(history + [e], |history| + 1) == SerialAt(history, |history|) + if e == NewSerial then 1 else 0
  {
    forall id, serial | QueuedUnder(history, id, serial)
      ensures QueuedUnder(history + [e], id, serial)
    {
      SerialAtAppend(history, e, id);
    }
    SerialAtAppend(history, e, |history|);
  }

  lemma StepKeeps(s: State, step: Step)
    requires Inv(s) && Enabled(s, step)
    ensures Inv(Next(s, step))
  {
    match step
    case ReaderPut(size, duration) => PutKeeps(s, size, duration);
    case ReaderFlush => HistoryGrows(s.history, NewSerial);
    case StreamStart => HistoryGrows(s.history, NewSerial);
    case StreamClose => HistoryGrows(s.history, NewSerial);
    case Fetch => FetchKeeps(s);
    case Display => DisplayKeeps(s);
    case QueueFrame(drop) => QueueFrameKeeps(s, drop);
    case Receive(answer) => ReceiveKeeps(s, answer);
    case Send(refused) => SendKeeps(s, refused);
    case _ =>
  }

  lemma PutKeeps(s: State, size: nat, duration: int)
    requires Inv(s)
    ensures Inv(Next(s, ReaderPut(size, duration)))
  {
    HistoryGrows(s.history, Queued);
    SerialAtAppend(s.history, Queued, |s.history|);
  }

  lemma FetchKeeps(s: State)
    requires Inv(s) && Enabled(s, Fetch)
    ensures Inv(Next(s, Fetch))
  {
  }

  lemma DisplayKeeps(s: State)
    requires Inv(s) && Enabled(s, Display)
    ensures Inv(Next(s, Display))
  {
  }

  lemma QueueFrameKeeps(s: State, drop: bool)
    requires Inv(s) && Enabled(s, QueueFrame(drop))
    ensures Inv(Next(s, QueueFrame(drop)))
  {
  }

  lemma ReceiveKeeps(s: State, answer: Answer)
    requires Inv(s) && Enabled(s, Receive(answer))
    ensures Inv(Next(s, Receive(answer)))
  {
  }

  lemma SendKeeps(s: State, refused: bool)
    requires Inv(s) && Enabled(s, Send(refused))
    ensures Inv(Next(s, Send(refused)))
  {
  }

  // ---------------------------------------------------------------- whole runs

  ghost predicate Run(s: State, steps: seq<Step>, end: State)
    decreases |steps|
  {
    if steps == [] then s == end
    else Enabled(s, steps[0]) && Run(Next(s, steps[0]), steps[1..], end)
  }

  lemma {:induction false} RunKeeps(s: State, steps: seq<Step>, end: State)
    requires Inv(s) && Run(s, steps, end)
    ensures Inv(end)
    decreases |steps|
  {
    if steps != [] {
      StepKeeps(s, steps[0]);
      RunKeeps(Next(s, steps[0]), steps[1..], end);
    }
  }

  /** In every interleaving the totals are the sums over the queue, every queued packet has the
      current serial, and what the codec holds was queued under the decoder's serial. */
  lemma RunsAreSafe(steps: seq<Step>, s: State)
    requires Run(Init(), steps, s)
    ensures Q.Totals(s.q)
    ensures forall i :: 0 <= i < |s.q.list| ==> s.q.list[i].serial == s.q.serial
    ensures s.d.pc != Switched ==> forall id :: id in s.d.codec ==> QueuedUnder(s.history, id, s.d.pktSerial)
  {
    RunKeeps(Init(), steps, s);
  }

  lemma {:induction false} SerialOnlyGrows(history: seq<Event>, i: nat, j: nat)
    requires i <= j <= |history|
    ensures SerialAt(history, i) <= SerialAt(history, j)
    ensures SerialAt(history, i) == SerialAt(history, j) <==> forall k :: i <= k < j ==> history[k] != NewSerial
  {
    if i < j {
      SerialOnlyGrows(history, i, j - 1);
    }
  }

  /** In every interleaving, the display accepts a frame exactly when every packet it was made
      from was queued since the last flush. */
  lemma AcceptedFramesAreCurrent(steps: seq<Step>, s: State)
    requires Run(Init(), steps, s) && s.frames != [] && s.frames[0].origin != {}
    ensures Accepts(s) <==> forall id :: id in s.frames[0].origin ==> Current(s.history, id)
  {
    RunKeeps(Init(), steps, s);
    forall id | id in s.frames[0].origin
      ensures QueuedUnder(s.history, id, s.frames[0].serial)
      ensures Current(s.history, id) <==> s.frames[0].serial == s.q.serial
    {
      SerialOnlyGrows(s.history, id, |s.history|);
    }
    var id :| id in s.frames[0].origin;
  }

  /** The queued packets are the ones put since the last flush and not yet taken: all of them
      are current. */
  lemma QueuedPacketsAreCurrent(steps: seq<Step>, s: State, i: nat)
    requires Run(Init(), steps, s) && i < |s.q.list|
    ensures Current(s.history, s.q.list[i].pkt.id)
  {
    RunKeeps(Init(), steps, s);
    SerialOnlyGrows(s.history, s.q.list[i].pkt.id, |s.history|);
  }

  // ---------------------------------------------------------------- no packet is lost

  /** The packets on their way, the farthest first: sent, in the decoder's hand, in the queue. */
  function Hand(d: Decoder): seq<nat> {
    if d.pkt.Some? then [d.pkt.value] else []
  }

  function Ids(list: seq<Q.Stamped>): (r: seq<nat>)
    ensures |r| == |list| && forall i :: 0 <= i < |r| ==> r[i] == list[i].pkt.id
  {
    seq(|list|, i requires 0 <= i < |list| => list[i].pkt.id)
  }

  function OnTheWay(s: State): seq<nat> {
    s.sent + Hand(s.d) + Ids(s.q.list)
  }

  predicate Increasing(ids: seq<nat>, bound: nat) {
    (forall i, j :: 0 <= i < j < |ids| ==> ids[i] < ids[j]) && forall i :: 0 <= i < |ids| ==> ids[i] < bound
  }

  /** The packets on their way are in the order in which they were put, none twice, and every packet
      that is current is among them. */
  ghost predicate Kept(s: State) {
    && Increasing(OnTheWay(s), |s.history|)
    && forall id: nat :: Current(s.history, id) ==> id in OnTheWay(s)
  }

  /** A step that changes nothing of this. */
  lemma SameWay(s: State, s': State)
    requires Kept(s) && OnTheWay(s') == OnTheWay(s) && s'.history == s.history
    ensures Kept(s')
  {
  }

  /** A new serial makes every packet so far old, so that any may go. */
  lemma NewSerialWay(s: State, s': State)
    requires Kept(s) && s'.history == s.history + [NewSerial] && s'.sent == s.sent
    requires Hand(s'.d) == Hand(s.d) || Hand(s'.d) == []
    requires s'.q.list == s.q.list || s'.q.list == []
    ensures Kept(s')
  {
    var way, n := OnTheWay(s), |s.sent|;
    assert way[..n] == s.sent;
    forall i, j | 0 <= i < j < |OnTheWay(s')|
      ensures OnTheWay(s')[i] < OnTheWay(s')[j]
    {
      var i' := Position(s, s', i);
      var j' := Position(s, s', j);
    }
    forall i | 0 <= i < |OnTheWay(s')|
      ensures OnTheWay(s')[i] < |s'.history|
    {
      var i' := Position(s, s', i);
    }
    forall id: nat
      ensures !Current(s'.history, id)
    {
      if id <= |s.history| {
        assert s'.history[|s.history|] == NewSerial;
      }
    }
  }

  /** What is left on the way was there before, in the same order. */
  lemma Position(s: State, s': State, i: nat) returns (k: nat)
    requires s'.sent == s.sent && i < |OnTheWay(s')|
    requires Hand(s'.d) == Hand(s.d) || Hand(s'.d) == []
    requires s'.q.list == s.q.list || s'.q.list == []
    ensures k < |OnTheWay(s)| && OnTheWay(s)[k] == OnTheWay(s')[i]
    ensures k == if i < |s.sent| + |Hand(s'.d)| then i else i - |Hand(s'.d)| + |Hand(s.d)|
  {
    k := if i < |s.sent| + |Hand(s'.d)| then i else i - |Hand(s'.d)| + |Hand(s.d)|;
  }

  lemma PutWay(s: State, size: nat, duration: int)
    requires Inv(s) && Kept(s) && !s.q.abortRequest
    ensures Kept(Next(s, ReaderPut(size, duration)))
  {
    var s' := Next(s, ReaderPut(size, duration));
    assert Ids(s'.q.list) == Ids(s.q.list) + [|s.history|];
    assert OnTheWay(s') == OnTheWay(s) + [|s.history|];
    forall id: nat | Current(s'.history, id)
      ensures id in OnTheWay(s')
    {
      if id < |s.history| {
        assert forall i :: id <= i < |s.history| ==> s'.history[i] == s.history[i];
        assert Current(s.history, id);
      }
    }
  }

  lemma DropWay(s: State)
    requires Inv(s) && Kept(s) && Enabled(s, CompareAgain) && s.q.serial != s.d.pktSerial
    ensures Kept(Next(s, CompareAgain))
  {
    var s', id := Next(s, CompareAgain), s.d.pkt.value;
    assert Hand(s.d) == [id] && Hand(s'.d) == [];
    assert QueuedUnder(s.history, id, s.d.pktSerial);
    SerialOnlyGrows(s.history, id, |s.history|);
    assert !Current(s.history, id);
    forall i, j | 0 <= i < j < |OnTheWay(s')|
      ensures OnTheWay(s')[i] < OnTheWay(s')[j]
    {
      var i' := Position(s, s', i);
      var j' := Position(s, s', j);
    }
    forall i | 0 <= i < |OnTheWay(s')|
      ensures OnTheWay(s')[i] < |s.history|
    {
      var i' := Position(s, s', i);
    }
    forall k | k in OnTheWay(s) && k != id
      ensures k in OnTheWay(s')
    {
      assert k in s.sent || k in Ids(s.q.list);
    }
  }

  lemma TakeWay(s: State)
    requires Inv(s) && Kept(s) && Enabled(s, Fetch) && !s.d.pending && !s.q.abortRequest
    ensures Kept(Next(s, Fetch))
  {
    var s' := Next(s, Fetch);
    assert Hand(s.d) == [] && Hand(s'.d) == [s.q.list[0].pkt.id];
    assert Ids(s.q.list) == [s.q.list[0].pkt.id] + Ids(s.q.list[1..]);
    assert OnTheWay(s') == OnTheWay(s);
  }

  lemma SendWay(s: State)
    requires Inv(s) && Kept(s) && Enabled(s, Send(false))
    ensures Kept(Next(s, Send(false)))
  {
    assert OnTheWay(Next(s, Send(false))) == OnTheWay(s);
  }

  lemma StepKeepsWay(s: State, step: Step)
    requires Inv(s) && Kept(s) && Enabled(s, step)
    ensures Kept(Next(s, step))
  {
    var s' := Next(s, step);
    match step
    case ReaderPut(size, duration) =>
      if !s.q.abortRequest {
        PutWay(s, size, duration);
      }
    case ReaderFlush => NewSerialWay(s, s');
    case StreamStart => NewSerialWay(s, s');
    case StreamClose => NewSerialWay(s, s');
    case Fetch =>
      if s.d.pending || s.q.abortRequest {
        SameWay(s, s');
      } else {
        TakeWay(s);
      }
    case CompareAgain =>
      if s.q.serial == s.d.pktSerial {
        SameWay(s, s');
      } else {
        DropWay(s);
      }
    case Send(refused) =>
      if refused {
        SameWay(s, s');
      } else {
        SendWay(s);
      }
    case _ => SameWay(s, s');
  }

  lemma {:induction false} RunKeepsWay(s: State, steps: seq<Step>, end: State)
    requires Inv(s) && Kept(s) && Run(s, steps, end)
    ensures Kept(end)
    decreases |steps|
  {
    if steps != [] {
      StepKeeps(s, steps[0]);
      StepKeepsWay(s, steps[0]);
      RunKeepsWay(Next(s, steps[0]), steps[1..], end);
    }
  }

  /** In every interleaving a packet put since the last flush or start is in the queue, in the
      decoder's hand or has been accepted by the codec; and the codec has accepted packets in the
      order in which they were put, none of them twice. */
  lemma NoCurrentPacketLost(steps: seq<Step>, s: State, id: nat)
    requires Run(Init(), steps, s)
    ensures Current(s.history, id) ==>
      id in s.sent || s.d.pkt == Some(id) || exists i :: 0 <= i < |s.q.list| && s.q.list[i].pkt.id == id
    ensures forall i, j :: 0 <= i < j < |s.sent| ==> s.sent[i] < s.sent[j]
  {
    RunKeepsWay(Init(), steps, s);
    SentInOrder(s.sent, Hand(s.d), Ids(s.q.list), |s.history|);
    if Current(s.history, id) {
      OnOneOf(s, id);
    }
  }

  lemma SentInOrder(sent: seq<nat>, hand: seq<nat>, list: seq<nat>, bound: nat)
    requires Increasing(sent + hand + list, bound)
    ensures forall i, j :: 0 <= i < j < |sent| ==> sent[i] < sent[j]
  {
    var way := sent + hand + list;
    assert forall i :: 0 <= i < |sent| ==> way[i] == sent[i];
  }

  lemma OnOneOf(s: State, id: nat)
    requires id in OnTheWay(s)
    ensures id in s.sent || s.d.pkt == Some(id) || exists i :: 0 <= i < |s.q.list| && s.q.list[i].pkt.id == id
  {
    if id in Ids(s.q.list) {
      var i :| 0 <= i < |s.q.list| && Ids(s.q.list)[i] == id;
      assert s.q.list[i].pkt.id == id;
    } else {
      assert id in s.sent || id in Hand(s.d);
    }
  }

  // ---------------------------------------------------------------- the codec and its frames

  /** The number of packets handed to the codec and accepted. */
  function Handed(steps: seq<Step>): nat {
    if steps == [] then 0 else (if steps[0] == Send(false) then 1 else 0) + Handed(steps[1..])
  }

  /** What the codec holds after these steps if the packets it accepts are `sent`, in order: those it
      held and accepted, as far as the last frame left them, unless it has been emptied since. */
  function Content(steps: seq<Step>, sent: seq<nat>, held: set<nat>): set<nat>
    requires Handed(steps) <= |sent|
  {
    if steps == [] then held
    else
      match steps[0]
      case Send(false) => Content(steps[1..], sent[1..], held + {sent[0]})
      case Receive(Output(_, left)) => Content(steps[1..], sent, left)
      case Receive(EndOfStream) => Content(steps[1..], sent, {})
      case FlushCodec => Content(steps[1..], sent, {})
      case StreamStart => Content(steps[1..], sent, {})
      case _ => Content(steps[1..], sent, held)
  }

  /** In every run every packet handed to the codec and not refused is accepted, and the codec holds
      what it should. */
  lemma {:induction false} CodecExactly(s: State, steps: seq<Step>, end: State)
    requires Run(s, steps, end)
    ensures s.sent <= end.sent && |end.sent| == |s.sent| + Handed(steps)
    ensures end.d.codec == Content(steps, end.sent[|s.sent|..], s.d.codec)
    decreases |steps|
  {
    if steps != [] {
      var next := Next(s, steps[0]);
      CodecExactly(next, steps[1..], end);
      if steps[0] == Send(false) {
        assert end.sent[|s.sent|..][1..] == end.sent[|next.sent|..];
        assert end.sent[|s.sent|] == next.sent[|s.sent|] == s.d.pkt.value;
      }
    }
  }

  /** What the frames queued by these steps are made from: every frame the codec gives, unless it is
      dropped, or the stream is aborted before it is queued. */
  function Made(steps: seq<Step>, inHand: Option<set<nat>>, aborted: bool): seq<set<nat>> {
    if steps == [] then []
    else
      match steps[0]
      case Receive(Output(origin, _)) => Made(steps[1..], Some(origin), aborted)
      case QueueFrame(drop) =>
        (if inHand.Some? && !drop && !aborted then [inHand.value] else []) + Made(steps[1..], None, aborted)
      case StreamStart => Made(steps[1..], None, false)
      case StreamAbort => Made(steps[1..], inHand, true)
      case _ => Made(steps[1..], inHand, aborted)
  }

  function Displays(steps: seq<Step>): nat {
    if steps == [] then 0 else (if steps[0] == Display then 1 else 0) + Displays(steps[1..])
  }

  function Origins(frames: seq<Frame>): (r: seq<set<nat>>)
    ensures |r| == |frames| && forall i :: 0 <= i < |r| ==> r[i] == frames[i].origin
  {
    seq(|frames|, i requires 0 <= i < |frames| => frames[i].origin)
  }

  function InDecoder(d: Decoder): Option<set<nat>> {
    if d.pc.GotFrame? then Some(d.pc.origin) else None
  }

  /** First in, first out: the frames waiting after a run are those that waited before and those made
      in it, without as many in front as the display has taken. */
  lemma {:induction false} FramesInOrder(s: State, steps: seq<Step>, end: State)
    requires Inv(s) && Run(s, steps, end)
    ensures var all := Origins(s.frames) + Made(steps, InDecoder(s.d), s.q.abortRequest);
      Displays(steps) <= |all| && Origins(end.frames) == all[Displays(steps)..]
    decreases |steps|
  {
    if steps == [] {
      assert Origins(s.frames) + [] == Origins(s.frames);
    } else {
      var next, rest := Next(s, steps[0]), steps[1..];
      StepKeeps(s, steps[0]);
      FramesInOrder(next, rest, end);
      var made := if steps[0].QueueFrame? && !steps[0].drop && !s.q.abortRequest then [s.d.pc.origin] else [];
      MadeFirst(s, steps, made);
      OneFrame(s, steps[0], made);
      Shifted(Origins(s.frames), made, Made(rest, InDecoder(next.d), next.q.abortRequest), Origins(next.frames),
              if steps[0] == Display then 1 else 0, Displays(rest));
    }
  }

  lemma MadeFirst(s: State, steps: seq<Step>, made: seq<set<nat>>)
    requires steps != [] && Enabled(s, steps[0]) && (s.stage == Open <==> !s.q.abortRequest)
    requires made == if steps[0].QueueFrame? && !steps[0].drop && !s.q.abortRequest then [s.d.pc.origin] else []
    ensures var next := Next(s, steps[0]);
      Made(steps, InDecoder(s.d), s.q.abortRequest) ==
      made + Made(steps[1..], InDecoder(next.d), next.q.abortRequest)
  {
  }

  lemma OneFrame(s: State, step: Step, made: seq<set<nat>>)
    requires Enabled(s, step)
    requires made == if step.QueueFrame? && !step.drop && !s.q.abortRequest then [s.d.pc.origin] else []
    ensures Origins(Next(s, step).frames) == (Origins(s.frames) + made)[if step == Display then 1 else 0..]
  {
  }

  lemma Shifted(a: seq<set<nat>>, b: seq<set<nat>>, c: seq<set<nat>>, next: seq<set<nat>>, i: nat, j: nat)
    requires i <= |a + b| && next == (a + b)[i..] && j <= |next + c|
    ensures i + j <= |a + (b + c)| && (next + c)[j..] == (a + (b + c))[i + j..]
  {
  }

  ghost predicate LivesOk(s: State) {
    s.stage == Open ==> s.d.pc != Exited
  }

  lemma {:induction false} RunLives(s: State, steps: seq<Step>, end: State)
    requires Inv(s) && LivesOk(s) && Run(s, steps, end)
    ensures LivesOk(end)
    decreases |steps|
  {
    if steps != [] {
      StepKeeps(s, steps[0]);
      RunLives(Next(s, steps[0]), steps[1..], end);
    }
  }

  /** In every interleaving, while a stream is open its decoder thread lives, and it has to wait
      exactly when it wants a packet, has none left over, and the queue is empty. */
  lemma WaitsExactly(steps: seq<Step>, s: State)
    requires Run(Init(), steps, s) && s.stage == Open
    ensures s.d.pc != Exited
    ensures (forall step :: ByDecoder(step) ==> !Enabled(s, step)) <==>
      s.d.pc == Fetching && !s.d.pending && s.q.list == []
  {
    RunKeeps(Init(), steps, s);
    RunLives(Init(), steps, s);
    if !(s.d.pc == Fetching && !s.d.pending && s.q.list == []) {
      var step := OpenStep(s);
    }
  }

  lemma OpenStep(s: State) returns (step: Step)
    requires Inv(s) && s.d.pc != Exited && !(s.d.pc == Fetching && !s.d.pending && s.q.list == [])
    ensures ByDecoder(step) && Enabled(s, step)
  {
    step := match s.d.pc
      case Top => CompareSerials
      case Receiving => CheckAbort
      case Asking => Receive(Again)
      case GotFrame(_) => QueueFrame(true)
      case Fetching => Fetch
      case Switched => FlushCodec
      case Checking => CompareAgain
      case _ => Send(false);
  }

  /** No end is reported, and the codec is not flushed for a new serial. */
  ghost predicate Quiet(steps: seq<Step>) {
    forall i :: 0 <= i < |steps| ==>
      steps[i] != Receive(EndOfStream) && steps[i] != FlushCodec && steps[i] != StreamStart
  }

  lemma {:induction false} FinishedStays(s: State, steps: seq<Step>, end: State)
    requires Run(s, steps, end) && Quiet(steps)
    ensures end.d.finished == s.d.finished
    decreases |steps|
  {
    if steps != [] {
      FinishedStays(Next(s, steps[0]), steps[1..], end);
    }
  }

  /** Once the codec reports its end, the decoder is finished for the serial it then has, until it
      meets a new serial or is started again; from then on it is not, until the next end. */
  lemma FinishedExactly(s: State, step: Step, steps: seq<Step>, end: State)
    requires Enabled(s, step) && Run(Next(s, step), steps, end) && Quiet(steps)
    ensures step == Receive(EndOfStream) ==> end.d.finished == s.d.pktSerial
    ensures step == FlushCodec || step == StreamStart ==> end.d.finished == 0
  {
    FinishedStays(Next(s, step), steps, end);
  }

  // ---------------------------------------------------------------- closing a stream

  predicate ByDecoder(step: Step) {
    || step in {CompareSerials, CheckAbort, Fetch, FlushCodec, CompareAgain}
    || step.Receive? || step.QueueFrame? || step.Send?
  }

  /** The number of decoder steps in a run. */
  function DecoderSteps(steps: seq<Step>): nat {
    if steps == [] then 0 else (if ByDecoder(steps[0]) then 1 else 0) + DecoderSteps(steps[1..])
  }

  /** The most steps an aborted decoder thread may still take, whenever the queue is flushed: a
      packet refused by the codec comes back once more if its serial is no longer the queue's. */
  function Left(s: State): (r: nat)
    ensures r <= 8 && (r == 0 <==> s.d.pc == Exited)
  {
    var same := s.q.serial == s.d.pktSerial;
    match s.d.pc
    case Exited => 0
    case Receiving => 1
    case Asking => if !s.d.pending then 4 else if same then 8 else 6
    case Fetching => if !s.d.pending then 1 else if same then 7 else 3
    case Top => if s.d.pending then 4 else 2
    case GotFrame(_) => if s.d.pending then 5 else 3
    case Switched => if same then 7 else 3
    case Checking => if same then 6 else 2
    case Sending => 5
  }

  lemma StepLeavesFewer(s: State, step: Step)
    requires Inv(s) && s.stage == Stopping && Enabled(s, step) && step != StreamClose
    ensures Next(s, step).stage == Stopping
    ensures Left(Next(s, step)) + (if ByDecoder(step) then 1 else 0) <= Left(s)
  {
  }

  lemma {:induction false} RunLeavesFewer(s: State, steps: seq<Step>, end: State)
    requires Inv(s) && s.stage == Stopping && Run(s, steps, end) && StreamClose !in steps
    ensures end.stage == Stopping && DecoderSteps(steps) + Left(end) <= Left(s)
    decreases |steps|
  {
    if steps != [] {
      StepKeeps(s, steps[0]);
      StepLeavesFewer(s, steps[0]);
      RunLeavesFewer(Next(s, steps[0]), steps[1..], end);
    }
  }

  lemma DecoderCanStep(s: State) returns (step: Step)
    requires Inv(s) && s.stage == Stopping && s.d.pc != Exited
    ensures ByDecoder(step) && Enabled(s, step)
  {
    step := match s.d.pc
      case Top => CompareSerials
      case Receiving => CheckAbort
      case Asking => Receive(Again)
      case GotFrame(_) => QueueFrame(true)
      case Fetching => Fetch
      case Switched => FlushCodec
      case Checking => CompareAgain
      case _ => Send(false);
  }

  /** Closing a stream never waits for ever: once it is aborted, in every interleaving with the
      reader, whose seeks may still flush the queue, its decoder thread can take a step until it
      has ended, which it has after eight steps at most; and then the stream can be closed. */
  lemma CloseComesThrough(before: seq<Step>, s: State, steps: seq<Step>, end: State)
    requires Run(Init(), before, s) && s.stage == Stopping
    requires Run(s, steps, end) && StreamClose !in steps
    ensures DecoderSteps(steps) <= 8
    ensures DecoderSteps(steps) == 8 ==> end.d.pc == Exited
    ensures if end.d.pc == Exited then Enabled(end, StreamClose)
            else exists step :: ByDecoder(step) && Enabled(end, step)
  {
    RunKeeps(Init(), before, s);
    RunLeavesFewer(s, steps, end);
    if end.d.pc != Exited {
      RunKeeps(s, steps, end);
      var step := DecoderCanStep(end);
    }
  }

  // ---------------------------------------------------------------- a slow close

  lemma {:induction false} RunOn(s: State, first: seq<Step>, middle: State, step: Step)
    requires Run(s, first, middle) && Enabled(middle, step)
    ensures Run(s, first + [step], Next(middle, step))
    decreases |first|
  {
    if first == [] {
      assert [step][1..] == [];
    } else {
      RunOn(Next(s, first[0]), first[1..], middle, step);
      assert (first + [step])[1..] == first[1..] + [step];
    }
  }

  predicate OpenAt(s: State, d: Decoder) {
    s.stage == Open && s.q.serial == 1 && !s.q.abortRequest && s.d == d
  }

  /** Up to a packet in the queue. */
  lemma QueuedPacket() returns (before: seq<Step>, s: State)
    ensures Run(Init(), before, s) && OpenAt(s, NEW_DECODER)
    ensures s.q.list == [Q.Stamped(Q.Packet(1, 0, 0), 1)]
  {
    before, s := [], Init();
    before, s := Then(before, s, StreamStart);
    before, s := Then(before, s, ReaderPut(0, 0));
  }

  /** Up to a packet taken. */
  lemma TakenPacket() returns (before: seq<Step>, s: State)
    ensures Run(Init(), before, s) && OpenAt(s, Decoder(Switched, 1, 0, false, Some(1), {}))
  {
    before, s := QueuedPacket();
    before, s := Then(before, s, CompareSerials);
    before, s := Then(before, s, Fetch);
  }

  /** Up to a packet that the codec has refused. */
  lemma RefusedPacket() returns (before: seq<Step>, s: State)
    ensures Run(Init(), before, s) && OpenAt(s, Decoder(Top, 1, 0, true, Some(1), {}))
  {
    before, s := TakenPacket();
    before, s := Then(before, s, FlushCodec);
    before, s := Then(before, s, CompareAgain);
    before, s := Then(before, s, Send(true));
  }

  /** Extends a run from the start by one step. */
  lemma Then(before: seq<Step>, s: State, step: Step) returns (after: seq<Step>, end: State)
    requires Run(Init(), before, s) && Enabled(s, step)
    ensures after == before + [step] && end == Next(s, step) && Run(Init(), after, end)
  {
    RunOn(Init(), before, s, step);
    after, end := before + [step], Next(s, step);
  }

  /** Aborted just as it asks the codec with a refused packet in hand, the thread takes all eight
      steps if the packet is refused once more and then the queue is flushed. */
  lemma TakesEight() returns (before: seq<Step>, s: State, steps: seq<Step>, end: State)
    ensures Run(Init(), before, s) && s.stage == Stopping
    ensures Run(s, steps, end) && StreamClose !in steps && DecoderSteps(steps) == 8
  {
    before, s := RefusedPacket();
    before, s := Then(before, s, CompareSerials);
    before, s := Then(before, s, CheckAbort);
    before, s := Then(before, s, StreamAbort);
    steps, end := EightSteps(s);
  }

  lemma EightSteps(s: State) returns (steps: seq<Step>, end: State)
    requires s.d == Decoder(Asking, 1, 0, true, Some(1), {}) && s.q.serial == 1 && s.q.abortRequest
    ensures Run(s, steps, end) && StreamClose !in steps && DecoderSteps(steps) == 8
  {
    var s1 := Next(s, Receive(Again));
    var s2 := Next(s1, Fetch);
    var s3 := Next(s2, CompareAgain);
    var s4 := Next(s3, Send(true));
    steps, end := LastFour(Next(s4, ReaderFlush));
    steps := Before(s4, ReaderFlush, steps, end);
    steps := Before(s3, Send(true), steps, end);
    steps := Before(s2, CompareAgain, steps, end);
    steps := Before(s1, Fetch, steps, end);
    steps := Before(s, Receive(Again), steps, end);
  }

  lemma LastFour(s: State) returns (steps: seq<Step>, end: State)
    requires s.d == Decoder(Top, 1, 0, true, Some(1), {}) && s.q.serial == 2 && s.q.abortRequest
    ensures Run(s, steps, end) && StreamClose !in steps && DecoderSteps(steps) == 4
  {
    var s1 := Next(s, CompareSerials);
    var s2 := Next(s1, Fetch);
    var s3 := Next(s2, CompareAgain);
    end := Next(s3, Fetch);
    steps := Before(s3, Fetch, [], end);
    steps := Before(s2, CompareAgain, steps, end);
    steps := Before(s1, Fetch, steps, end);
    steps := Before(s, CompareSerials, steps, end);
  }

  lemma Before(s: State, step: Step, steps: seq<Step>, end: State) returns (all: seq<Step>)
    requires Enabled(s, step) && Run(Next(s, step), steps, end)
    requires StreamClose !in steps && step != StreamClose
    ensures Run(s, all, end) && StreamClose !in all
    ensures DecoderSteps(all) == DecoderSteps(steps) + if ByDecoder(step) then 1 else 0
  {
    all := [step] + steps;
    assert all[1..] == steps;
  }
}
