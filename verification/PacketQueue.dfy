/** The packet queue of the player: a FIFO of packets stamped with the queue's serial, and the
    totals kept beside it. Every operation runs under the queue's mutex. */
module PacketQueue {

  datatype Packet = Packet(id: nat, size: nat, duration: int)

  datatype Stamped = Stamped(pkt: Packet, serial: int)

  /** The bookkeeping bytes added to the size of every packet. */
  const ENTRY_BYTES: nat := 16

  datatype State = State(list: seq<Stamped>, nbPackets: int, size: int, duration: int, abortRequest: bool, serial: int)

  function SizeOf(list: seq<Stamped>): int {
    if list == [] then 0 else list[0].pkt.size + ENTRY_BYTES + SizeOf(list[1..])
  }

  function DurationOf(list: seq<Stamped>): int {
    if list == [] then 0 else list[0].pkt.duration + DurationOf(list[1..])
  }

  /** The totals are those of the list. */
  predicate Totals(q: State) {
    q.nbPackets == |q.list| && q.size == SizeOf(q.list) && q.duration == DurationOf(q.list)
  }

  /** As left by the initialisation: no packet is accepted before the start. */
  function Initial(): (q: State)
    ensures Totals(q)
  {
    State([], 0, 0, 0, true, 0)
  }

  function Put(q: State, pkt: Packet): (r: State)
    ensures Totals(q) ==> Totals(r)
  {
    if q.abortRequest then q
    else
      SumsAppend(q.list, Stamped(pkt, q.serial));
      q.(list := q.list + [Stamped(pkt, q.serial)],
         nbPackets := q.nbPackets + 1,
         size := q.size + (pkt.size + ENTRY_BYTES),
         duration := q.duration + pkt.duration)
  }

  lemma {:induction false} SumsAppend(list: seq<Stamped>, e: Stamped)
    ensures SizeOf(list + [e]) == SizeOf(list) + e.pkt.size + ENTRY_BYTES
    ensures DurationOf(list + [e]) == DurationOf(list) + e.pkt.duration
  {
    if list == [] {
      assert list + [e] == [e];
    } else {
      assert (list + [e])[1..] == list[1..] + [e];
      SumsAppend(list[1..], e);
    }
  }

  /** Removes the first packet of a non-empty list. */
  function Take(q: State): (r: State)
    requires q.list != []
    ensures Totals(q) ==> Totals(r)
  {
    var first := q.list[0].pkt;
    q.(list := q.list[1..],
       nbPackets := q.nbPackets - 1,
       size := q.size - (first.size + ENTRY_BYTES),
       duration := q.duration - first.duration)
  }

  function Flush(q: State): (r: State)
    ensures Totals(r)
  {
    q.(list := [], nbPackets := 0, size := 0, duration := 0, serial := q.serial + 1)
  }

  function Abort(q: State): State {
    q.(abortRequest := true)
  }

  function Start(q: State): State {
    q.(abortRequest := false, serial := q.serial + 1)
  }

  datatype Got = Aborted | Empty | Got(first: Stamped)

  class PacketQueue {
    var list: seq<Stamped>
    var nbPackets: int
    var size: int
    var duration: int
    var abortRequest: bool
    var serial: int

    function Value(): State
      reads this
    {
      State(list, nbPackets, size, duration, abortRequest, serial)
    }

    constructor ()
      ensures Value() == Initial()
    {
      list, nbPackets, size, duration, abortRequest, serial := [], 0, 0, 0, true, 0;
    }

    method PutPrivate(pkt: Packet) returns (ret: int)
      modifies this
      ensures Value() == Put(old(Value()), pkt)
      ensures ret == if old(abortRequest) then -1 else 0
    {
      if abortRequest {
        return -1;
      }
      var pkt1 := Stamped(pkt, serial);
      list := list + [pkt1];
      nbPackets := nbPackets + 1;
      size := size + (pkt1.pkt.size + ENTRY_BYTES);
      duration := duration + pkt1.pkt.duration;
      return 0;
    }

    /** Drains the list one packet at a time, then clears the totals and bumps the serial. */
    method FlushAll()
      modifies this
      ensures Value() == Flush(old(Value()))
    {
      while list != []
        invariant abortRequest == old(abortRequest) && serial == old(serial)
        decreases |list|
      {
        list := list[1..];
      }
      nbPackets, size, duration := 0, 0, 0;
      serial := serial + 1;
    }

    method RequestAbort()
      modifies this
      ensures Value() == Abort(old(Value()))
    {
      abortRequest := true;
    }

    method Begin()
      modifies this
      ensures Value() == Start(old(Value()))
    {
      abortRequest := false;
      serial := serial + 1;
    }

    /** One round of the waiting loop: what it answers, or `Empty` where it would wait. */
    method Get() returns (r: Got)
      modifies this
      ensures old(abortRequest) ==> r == Aborted && Value() == old(Value())
      ensures !old(abortRequest) && old(list) == [] ==> r == Empty && Value() == old(Value())
      ensures !old(abortRequest) && old(list) != [] ==> r == Got(old(list)[0]) && Value() == Take(old(Value()))
    {
      if abortRequest {
        return Aborted;
      }
      if list != [] {
        var pkt1 := list[0];
        list := list[1..];
        nbPackets := nbPackets - 1;
        size := size - (pkt1.pkt.size + ENTRY_BYTES);
        duration := duration - pkt1.pkt.duration;
        return Got(pkt1);
      }
      return Empty;
    }
  }

  // ---------------------------------------------------------------- whole runs

  datatype Step = PutOne(pkt: Packet) | TakeOne | FlushOut | AbortAll | StartUp

  predicate Enabled(q: State, step: Step) {
    step.TakeOne? ==> !q.abortRequest && q.list != []
  }

  function Next(q: State, step: Step): State
    requires Enabled(q, step)
  {
    match step
    case PutOne(pkt) => Put(q, pkt)
    case TakeOne => Take(q)
    case FlushOut => Flush(q)
    case AbortAll => Abort(q)
    case StartUp => Start(q)
  }

  ghost predicate Run(q: State, steps: seq<Step>, end: State)
    decreases |steps|
  {
    if steps == [] then q == end
    else Enabled(q, steps[0]) && Run(Next(q, steps[0]), steps[1..], end)
  }

  /** The packets accepted since the last flush, with the serials they were put under. */
  ghost function Accepted(serial: int, open: bool, steps: seq<Step>, sofar: seq<Stamped>): seq<Stamped>
    decreases |steps|
  {
    if steps == [] then sofar
    else
      match steps[0]
      case PutOne(pkt) => Accepted(serial, open, steps[1..], if open then sofar + [Stamped(pkt, serial)] else sofar)
      case TakeOne => Accepted(serial, open, steps[1..], sofar)
      case FlushOut => Accepted(serial + 1, open, steps[1..], [])
      case AbortAll => Accepted(serial, false, steps[1..], sofar)
      case StartUp => Accepted(serial + 1, true, steps[1..], sofar)
  }

  /** The packets taken since the last flush. */
  ghost function Taken(q: State, steps: seq<Step>, end: State, sofar: seq<Stamped>): seq<Stamped>
    requires Run(q, steps, end)
    decreases |steps|
  {
    if steps == [] then sofar
    else
      Taken(Next(q, steps[0]), steps[1..], end,
            if steps[0].TakeOne? then sofar + [q.list[0]] else if steps[0].FlushOut? then [] else sofar)
  }

  /** First in, first out: the packets taken and those still in the queue are together the packets
      accepted since the last flush, in order, each under the serial of its time; none is accepted
      before the start or after an abort; and the totals are those of the queue. */
  lemma {:induction false} RunIsFifo(q: State, steps: seq<Step>, end: State, put: seq<Stamped>, taken: seq<Stamped>)
    requires Run(q, steps, end) && Totals(q) && put == taken + q.list
    ensures Totals(end)
    ensures Taken(q, steps, end, taken) + end.list == Accepted(q.serial, !q.abortRequest, steps, put)
    decreases |steps|
  {
    if steps != [] {
      var step, next := steps[0], Next(q, steps[0]);
      match step {
        case PutOne(pkt) =>
          assert taken + (q.list + [Stamped(pkt, q.serial)]) == put + [Stamped(pkt, q.serial)];
          RunIsFifo(next, steps[1..], end, if q.abortRequest then put else put + [Stamped(pkt, q.serial)], taken);
        case TakeOne =>
          assert taken + [q.list[0]] + q.list[1..] == put;
          RunIsFifo(next, steps[1..], end, put, taken + [q.list[0]]);
        case FlushOut => RunIsFifo(next, steps[1..], end, [], []);
        case _ => RunIsFifo(next, steps[1..], end, put, taken);
      }
    }
  }

  /** From the initialisation on. */
  lemma QueueIsFifo(steps: seq<Step>, end: State)
    requires Run(Initial(), steps, end)
    ensures Totals(end)
    ensures Taken(Initial(), steps, end, []) + end.list == Accepted(0, false, steps, [])
  {
    RunIsFifo(Initial(), steps, end, [], []);
  }
}
