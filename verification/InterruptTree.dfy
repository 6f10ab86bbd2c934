/**
 Interrupt signals as trees, the flat list of root-cause contexts read off a tree, and the tree
 rebuilt from such a list. A context is the path from its node up to the root; the nodes
 under construction are kept in a table by ID, each with the IDs of its children.
 */
module InterruptTree {

  import opened Wrappers

  datatype Segment = Segment(kind: string, id: string)

  type Address = seq<Segment>

  /** What a signal and its context have in common. */
  datatype Point = Point(id: string, address: Address, info: string, isRootCause: bool)

  datatype Signal = Signal(point: Point, state: string, subs: seq<Signal>)

  /** The context of a node: its own point first, the root's last. */
  type Path = seq<Point>

  // ---------------------------------------------------------------- tree to contexts

  /** The contexts of all root causes, depth first, a node before its children. */
  function Contexts(t: Signal, above: Path): seq<Path> {
    var here := [t.point] + above;
    (if t.point.isRootCause then [here] else []) + SubContexts(t.subs, here)
  }

  function SubContexts(subs: seq<Signal>, here: Path): seq<Path> {
    if subs == [] then [] else Contexts(subs[0], here) + SubContexts(subs[1..], here)
  }

  // ---------------------------------------------------------------- contexts to tree

  datatype Entry = Entry(point: Point, subs: seq<string>)

  datatype Table = Table(entries: map<string, Entry>, root: Option<string>)

  const EMPTY := Table(map[], None)

  /** Hangs `id` below `parent`, or makes it the root. A parent is always present. */
  function Attach(table: Table, id: string, parent: Option<string>): Table {
    match parent
    case None => table.(root := Some(id))
    case Some(p) =>
      if p in table.entries then
        table.(entries := table.entries[p := table.entries[p].(subs := table.entries[p].subs + [id])])
      else table
  }

  function Head(path: Path): Option<string> {
    if path == [] then None else Some(path[0].id)
  }

  function Enter(table: Table, point: Point): Table {
    table.(entries := table.entries[point.id := Entry(point, [])])
  }

  /** The recursive lookup: a known node is left alone; a new one is entered first, then its
      parent is looked up, then it is hung below its parent. */
  function GetOrCreate(table: Table, path: Path): Table
    decreases path
  {
    if path == [] || path[0].id in table.entries then table
    else Attach(GetOrCreate(Enter(table, path[0]), path[1..]), path[0].id, Head(path[1..]))
  }

  function AddAll(table: Table, contexts: seq<Path>): Table
    decreases contexts
  {
    if contexts == [] then table else AddAll(GetOrCreate(table, contexts[0]), contexts[1..])
  }

  /** What the loop over the contexts returns, with its local table. */
  function FromContexts(contexts: seq<Path>): Table {
    AddAll(EMPTY, contexts)
  }

  /** The memo table and the root are variables of the enclosing function; the recursive
      closure updates them. */
  class Builder {
    var signals: map<string, Entry>
    var root: Option<string>

    constructor ()
      ensures signals == map[] && root == None
    {
      signals, root := map[], None;
    }

    ghost function Value(): Table
      reads this
    {
      Table(signals, root)
    }

    method GetOrCreateSignal(ctx: Path) returns (id: Option<string>)
      modifies this
      ensures Value() == GetOrCreate(old(Value()), ctx)
      ensures id == Head(ctx) && (ctx != [] ==> ctx[0].id in signals)
      ensures forall k :: k in old(signals) ==> k in signals
      decreases ctx
    {
      if ctx == [] {
        return None;
      }
      if ctx[0].id in signals {
        return Some(ctx[0].id);
      }
      signals := signals[ctx[0].id := Entry(ctx[0], [])];
      var parent := GetOrCreateSignal(ctx[1..]);
      if parent.Some? {
        var p := signals[parent.value];
        signals := signals[parent.value := p.(subs := p.subs + [ctx[0].id])];
      } else {
        root := Some(ctx[0].id);
      }
      return Some(ctx[0].id);
    }
  }

  method FromInterruptContexts(contexts: seq<Path>) returns (table: Table)
    ensures table == FromContexts(contexts)
  {
    var builder := new Builder();
    for k := 0 to |contexts|
      invariant AddAll(builder.Value(), contexts[k..]) == FromContexts(contexts)
    {
      var _ := builder.GetOrCreateSignal(contexts[k]);
      assert contexts[k..][1..] == contexts[k + 1..];
    }
    table := Table(builder.signals, builder.root);
  }

  // ---------------------------------------------------------------- reading the table

  /** The entry of `t` and, below it, those of its descendants are exactly the tree `t`. */
  ghost predicate Represents(entries: map<string, Entry>, t: Signal) {
    && t.point.id in entries
    && entries[t.point.id].point == t.point
    && |entries[t.point.id].subs| == |t.subs|
    && forall i :: 0 <= i < |t.subs| ==>
         entries[t.point.id].subs[i] == t.subs[i].point.id && Represents(entries, t.subs[i])
  }

  function Ids(t: Signal): set<string> {
    {t.point.id} + SubIds(t.subs)
  }

  function SubIds(subs: seq<Signal>): set<string> {
    if subs == [] then {} else Ids(subs[0]) + SubIds(subs[1..])
  }

  /** No ID occurs twice in the tree. */
  predicate Unique(t: Signal) {
    t.point.id !in SubIds(t.subs) && UniqueSubs(t.subs)
  }

  predicate UniqueSubs(subs: seq<Signal>) {
    subs == [] || (Unique(subs[0]) && UniqueSubs(subs[1..]) && Ids(subs[0]) !! SubIds(subs[1..]))
  }

  /** Every node without children is a root cause, as Interrupt makes it. */
  predicate LeavesAreRootCauses(t: Signal) {
    && (t.subs == [] ==> t.point.isRootCause)
    && forall i :: 0 <= i < |t.subs| ==> LeavesAreRootCauses(t.subs[i])
  }

  /** No node with children is a root cause. */
  predicate RootCausesAreLeaves(t: Signal) {
    && (t.point.isRootCause ==> t.subs == [])
    && forall i :: 0 <= i < |t.subs| ==> RootCausesAreLeaves(t.subs[i])
  }

  /** A signal as Interrupt returns it: a leaf is a root cause, an inner node is not. */
  function Interrupt(id: string, address: Address, info: string, state: string, subContexts: seq<Signal>): (t: Signal)
    ensures t.point.isRootCause <==> t.subs == []
    ensures LeavesAreRootCauses(t) <==> forall i :: 0 <= i < |subContexts| ==> LeavesAreRootCauses(subContexts[i])
    ensures RootCausesAreLeaves(t) <==> forall i :: 0 <= i < |subContexts| ==> RootCausesAreLeaves(subContexts[i])
  {
    Signal(Point(id, address, info, subContexts == []), state, subContexts)
  }
}
