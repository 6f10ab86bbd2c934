/**
 Filtering the root-cause contexts in place. The contexts share their ancestors: cutting
 parents and addresses for one root cause changes what the next one sees.
 */
module InterruptFilter {

  import T = InterruptTree

  class InterruptCtx {
    const point: T.Point  // the ID, information and flag, and the address it was built with
    var address: T.Address
    var parent: InterruptCtx?
    ghost const lineage: seq<InterruptCtx>  // its ancestors as built, the nearest first

    constructor (point: T.Point, parent: InterruptCtx?)
      ensures this.point == point && address == point.address && this.parent == parent
      ensures lineage == LineageOf(parent)
    {
      this.point := point;
      this.address := point.address;
      this.parent := parent;
      this.lineage := LineageOf(parent);
    }
  }

  ghost function LineageOf(ctx: InterruptCtx?): seq<InterruptCtx> {
    if ctx == null then [] else [ctx] + ctx.lineage
  }

  // ---------------------------------------------------------------- the intended result

  /** Only the allowed segments. */
  function Restrict(address: T.Address, allowed: set<string>): T.Address {
    if address == [] then []
    else
      var init := Restrict(address[..|address| - 1], allowed);
      if address[|address| - 1].kind in allowed then init + [address[|address| - 1]] else init
  }

  predicate EndsAllowed(address: T.Address, allowed: set<string>) {
    address != [] && address[|address| - 1].kind in allowed
  }

  /** Whether a context is kept as an ancestor. The address of an ancestor that is itself a
      root cause has been cut by the time it is looked at. */
  ghost predicate Kept(ctx: InterruptCtx, allowed: set<string>) {
    if ctx.point.isRootCause then Restrict(ctx.point.address, allowed) != []
    else EndsAllowed(ctx.point.address, allowed)
  }

  ghost function Nearest(lineage: seq<InterruptCtx>, allowed: set<string>): InterruptCtx? {
    if lineage == [] then null
    else if Kept(lineage[0], allowed) then lineage[0]
    else Nearest(lineage[1..], allowed)
  }

  /** The ancestors that are kept, in order. */
  ghost function KeptOf(lineage: seq<InterruptCtx>, allowed: set<string>): seq<InterruptCtx> {
    if lineage == [] then []
    else if Kept(lineage[0], allowed) then [lineage[0]] + KeptOf(lineage[1..], allowed)
    else KeptOf(lineage[1..], allowed)
  }

  lemma {:induction false} RestrictLast(address: T.Address, allowed: set<string>)
    ensures Restrict(address, allowed) != [] ==> EndsAllowed(Restrict(address, allowed), allowed)
    ensures EndsAllowed(address, allowed) ==> EndsAllowed(Restrict(address, allowed), allowed)
    ensures Restrict(Restrict(address, allowed), allowed) == Restrict(address, allowed)
  {
    if address != [] {
      var last := |address| - 1;
      RestrictLast(address[..last], allowed);
      if address[last].kind in allowed {
        var r := Restrict(address, allowed);
        assert r[..|r| - 1] == Restrict(address[..last], allowed);
      }
    }
  }

  function CountAllowed(address: T.Address, allowed: set<string>, n: nat): nat
    requires n <= |address|
  {
    if n == 0 then 0 else CountAllowed(address, allowed, n - 1) + if address[n - 1].kind in allowed then 1 else 0
  }

  lemma {:induction false} CountOfInit(address: T.Address, allowed: set<string>, k: nat, n: nat)
    requires n <= k <= |address|
    ensures CountAllowed(address[..k], allowed, n) == CountAllowed(address, allowed, n)
  {
    if n > 0 {
      CountOfInit(address, allowed, k, n - 1);
    }
  }

  /** Cutting leaves exactly the allowed segments, in order. */
  lemma {:induction false} RestrictExactly(address: T.Address, allowed: set<string>)
    ensures |Restrict(address, allowed)| == CountAllowed(address, allowed, |address|)
    ensures forall i :: 0 <= i < |address| && address[i].kind in allowed ==>
      CountAllowed(address, allowed, i) < |Restrict(address, allowed)| &&
      Restrict(address, allowed)[CountAllowed(address, allowed, i)] == address[i]
  {
    if address != [] {
      var last := |address| - 1;
      RestrictExactly(address[..last], allowed);
      forall i | 0 <= i <= last
        ensures CountAllowed(address[..last], allowed, i) == CountAllowed(address, allowed, i)
      {
        CountOfInit(address, allowed, last, i);
      }
    }
  }

  // ---------------------------------------------------------------- the shared contexts

  /** A set of contexts closed under ancestors. */
  ghost predicate Forest(nodes: set<InterruptCtx>) {
    forall x {:trigger x.lineage[0]} :: x in nodes && x.lineage != [] ==>
      x.lineage[0] in nodes && x.lineage[0].lineage == x.lineage[1..]
  }

  /** Every parent is the one built or the nearest kept ancestor; every address is the one
      built or cut: cut for the root causes done, cut only where kept for the inner nodes. */
  ghost predicate Consistent(nodes: set<InterruptCtx>, done: set<InterruptCtx>, allowed: set<string>)
    reads nodes
  {
    && Forest(nodes)
    && done <= nodes
    && (forall x :: x in nodes ==>
          x.parent == (if x.lineage == [] then null else x.lineage[0]) || x.parent == Nearest(x.lineage, allowed))
    && (forall x :: x in nodes && x.point.isRootCause ==>
          x.address == if x in done then Restrict(x.point.address, allowed) else x.point.address)
    && (forall x :: x in nodes && !x.point.isRootCause ==>
          x.address == x.point.address || (Kept(x, allowed) && x.address == Restrict(x.point.address, allowed)))
  }

  /** All root causes above `x` have been done. */
  ghost predicate AboveDone(x: InterruptCtx, done: set<InterruptCtx>) {
    forall y :: y in x.lineage && y.point.isRootCause ==> y in done
  }

  lemma {:induction false} LineageInside(nodes: set<InterruptCtx>, x: InterruptCtx, k: nat)
    requires Forest(nodes) && x in nodes && k < |x.lineage|
    ensures x.lineage[k] in nodes && x.lineage[k].lineage == x.lineage[k + 1..]
  {
    if k > 0 {
      LineageInside(nodes, x.lineage[0], k - 1);
    }
  }

  /** The nearest kept ancestor, and what is kept above it. */
  lemma {:induction false} NearestIs(nodes: set<InterruptCtx>, x: InterruptCtx, allowed: set<string>)
    requires Forest(nodes) && x in nodes
    ensures var q := Nearest(x.lineage, allowed);
      && (q == null ==> KeptOf(x.lineage, allowed) == [])
      && (q != null ==>
           && q in nodes && q in x.lineage && Kept(q, allowed) && |q.lineage| < |x.lineage|
           && (forall y :: y in q.lineage ==> y in x.lineage)
           && KeptOf(x.lineage, allowed) == [q] + KeptOf(q.lineage, allowed))
    decreases |x.lineage|
  {
    if x.lineage != [] && !Kept(x.lineage[0], allowed) {
      NearestIs(nodes, x.lineage[0], allowed);
    }
  }

  // ---------------------------------------------------------------- the chain as it is

  /** The parents that following the pointers meets. */
  ghost function Chain(x: InterruptCtx, nodes: set<InterruptCtx>, done: set<InterruptCtx>, allowed: set<string>)
    : seq<InterruptCtx>
    requires x in nodes && Consistent(nodes, done, allowed)
    reads nodes
    decreases |x.lineage|
  {
    NearestIs(nodes, x, allowed);
    if x.parent == null then [] else [x.parent] + Chain(x.parent, nodes, done, allowed)
  }

  /** `x` and its kept ancestors point to their nearest kept ancestors. */
  ghost predicate Filtered(x: InterruptCtx, allowed: set<string>)
    reads {x} + set y | y in x.lineage
  {
    && x.parent == Nearest(x.lineage, allowed)
    && forall y :: y in KeptOf(x.lineage, allowed) && y in x.lineage ==> y.parent == Nearest(y.lineage, allowed)
  }

  ghost predicate CutAddresses(x: InterruptCtx, allowed: set<string>)
    reads {x} + set y | y in x.lineage
  {
    && x.address == Restrict(x.point.address, allowed)
    && forall y :: y in KeptOf(x.lineage, allowed) && y in x.lineage ==> y.address == Restrict(y.point.address, allowed)
  }

  lemma {:induction false} KeptInside(lineage: seq<InterruptCtx>, allowed: set<string>)
    ensures forall y :: y in KeptOf(lineage, allowed) ==> y in lineage && Kept(y, allowed)
  {
    if lineage != [] {
      KeptInside(lineage[1..], allowed);
    }
  }

  /** Following the pointers of a filtered context meets exactly its kept ancestors. */
  lemma {:induction false} FilteredChain(x: InterruptCtx, nodes: set<InterruptCtx>, done: set<InterruptCtx>,
                                         allowed: set<string>)
    requires x in nodes && Consistent(nodes, done, allowed) && Filtered(x, allowed)
    ensures Chain(x, nodes, done, allowed) == KeptOf(x.lineage, allowed)
    decreases |x.lineage|
  {
    NearestIs(nodes, x, allowed);
    if x.parent != null {
      var q := x.parent;
      KeptInside(q.lineage, allowed);
      forall y | y in KeptOf(q.lineage, allowed)
        ensures y.parent == Nearest(y.lineage, allowed)
      {
        assert y in KeptOf(x.lineage, allowed);
        assert y in x.lineage;
      }
      assert q in KeptOf(x.lineage, allowed);
      FilteredChain(q, nodes, done, allowed);
    }
  }

  // ---------------------------------------------------------------- the operations

  /** What the code looks at is whether the ancestor is kept, once the root causes above are done. */
  lemma LooksKept(y: InterruptCtx, nodes: set<InterruptCtx>, done: set<InterruptCtx>, allowed: set<string>)
    requires Consistent(nodes, done, allowed) && y in nodes
    requires y.point.isRootCause ==> y in done
    ensures EndsAllowed(y.address, allowed) <==> Kept(y, allowed)
  {
    RestrictLast(y.point.address, allowed);
  }

  /** The nearest kept ancestor of `ctx`, found by following the parents as they are. */
  method FindParent(ctx: InterruptCtx, allowed: set<string>,
                    ghost nodes: set<InterruptCtx>, ghost done: set<InterruptCtx>)
    returns (parent: InterruptCtx?)
    requires Consistent(nodes, done, allowed) && ctx in nodes && AboveDone(ctx, done)
    ensures parent == Nearest(ctx.lineage, allowed)
  {
    parent := ctx.parent;
    NearestIs(nodes, ctx, allowed);
    while parent != null
      invariant parent != null ==> parent in nodes && parent in ctx.lineage && AboveDone(parent, done)
      invariant Nearest(LineageOf(parent), allowed) == Nearest(ctx.lineage, allowed)
      decreases if parent == null then 0 else |parent.lineage| + 1
    {
      LooksKept(parent, nodes, done, allowed);
      if EndsAllowed(parent.address, allowed) {
        break;
      }
      NearestIs(nodes, parent, allowed);
      assert Nearest(LineageOf(parent), allowed) == Nearest(parent.lineage, allowed);
      AncestorsOf(nodes, ctx, parent);
      parent := parent.parent;
    }
  }

  /** The ancestors of an ancestor are ancestors. */
  lemma {:induction false} AncestorsOf(nodes: set<InterruptCtx>, x: InterruptCtx, y: InterruptCtx)
    requires Forest(nodes) && x in nodes && y in x.lineage
    ensures y in nodes && |y.lineage| < |x.lineage| && forall z :: z in y.lineage ==> z in x.lineage
    decreases |x.lineage|
  {
    var k :| 0 <= k < |x.lineage| && x.lineage[k] == y;
    LineageInside(nodes, x, k);
  }

  method FilterParentChain(ctx: InterruptCtx?, allowed: set<string>,
                           ghost nodes: set<InterruptCtx>, ghost done: set<InterruptCtx>)
    requires Consistent(nodes, done, allowed)
    requires ctx != null ==> ctx in nodes && AboveDone(ctx, done)
    modifies nodes`parent
    ensures Consistent(nodes, done, allowed)
    ensures ctx != null ==> Filtered(ctx, allowed)
    ensures forall y :: y in nodes && old(y.parent) == Nearest(y.lineage, allowed) ==>
      y.parent == Nearest(y.lineage, allowed)
    decreases if ctx == null then 0 else |ctx.lineage| + 1
  {
    if ctx == null {
      return;
    }
    var parent := FindParent(ctx, allowed, nodes, done);
    NearestIs(nodes, ctx, allowed);
    ctx.parent := parent;
    FilterParentChain(parent, allowed, nodes, done);
    if parent != null {
      KeptInside(parent.lineage, allowed);
    }
  }

  /** Cuts the addresses of `ctx` and of every parent it now has. */
  method EncapsulateContextAddress(ctx: InterruptCtx, allowed: set<string>,
                                   ghost nodes: set<InterruptCtx>, ghost done: set<InterruptCtx>)
    requires Consistent(nodes, done, allowed) && ctx in nodes && ctx.point.isRootCause
    requires AboveDone(ctx, done) && Filtered(ctx, allowed)
    modifies nodes`address
    ensures Consistent(nodes, done + {ctx}, allowed) && CutAddresses(ctx, allowed)
    ensures forall y :: y in nodes && old(y.address) == Restrict(y.point.address, allowed) ==>
      y.address == Restrict(y.point.address, allowed)
  {
    var c: InterruptCtx? := ctx;
    ghost var cut: set<InterruptCtx> := set y | y in nodes && y.address == Restrict(y.point.address, allowed);
    KeptInside(ctx.lineage, allowed);
    while c != null
      invariant Consistent(nodes, if c == ctx then done else done + {ctx}, allowed)
      invariant Cutting(c, ctx, nodes, cut, allowed)
      invariant forall y :: y in nodes && old(y.address) == Restrict(y.point.address, allowed) ==> y in cut
      decreases if c == null then 0 else |c.lineage| + 1
    {
      CutAndClimb(c, ctx, allowed, nodes, done, cut);
      cut := cut + {c};
      c := c.parent;
    }
  }

  /** How far the addresses on the way up from `ctx` are cut: those in `cut` are, and every
      kept ancestor is in `cut` or still to come at `c` or above. */
  ghost predicate Cutting(c: InterruptCtx?, ctx: InterruptCtx, nodes: set<InterruptCtx>, cut: set<InterruptCtx>,
                          allowed: set<string>)
    reads nodes
  {
    && cut <= nodes && (forall y :: y in cut ==> y.address == Restrict(y.point.address, allowed))
    && (c == ctx || ctx in cut)
    && (c != null ==> c in nodes && (c == ctx || (c in ctx.lineage && c in KeptOf(ctx.lineage, allowed))))
    && (forall y :: y in KeptOf(ctx.lineage, allowed) ==>
          y in cut || (c != null && (y == c || y in KeptOf(c.lineage, allowed))))
  }

  /** The body of the loop. */
  method CutAndClimb(c: InterruptCtx, ctx: InterruptCtx, allowed: set<string>, ghost nodes: set<InterruptCtx>,
                     ghost done: set<InterruptCtx>, ghost cut: set<InterruptCtx>)
    requires Consistent(nodes, if c == ctx then done else done + {ctx}, allowed)
    requires ctx in nodes && ctx.point.isRootCause && AboveDone(ctx, done) && Filtered(ctx, allowed)
    requires Cutting(c, ctx, nodes, cut, allowed)
    modifies c`address
    ensures Consistent(nodes, done + {ctx}, allowed)
    ensures c.parent != ctx && Cutting(c.parent, ctx, nodes, cut + {c}, allowed)
    ensures c.parent != null ==> |c.parent.lineage| < |c.lineage|
  {
    NearestIs(nodes, c, allowed);
    KeptInside(ctx.lineage, allowed);
    KeptAbove(nodes, ctx, c, allowed);
    CutOne(c, allowed, nodes, if c == ctx then done else done + {ctx});
    if c != ctx && c.point.isRootCause {
      assert done + {ctx} + {c} == done + {ctx};
    }
    assert |c.lineage| <= |ctx.lineage| by {
      if c != ctx {
        AncestorsOf(nodes, ctx, c);
      }
    }
  }

  /** What is kept above a kept ancestor is kept above the context. */
  lemma {:induction false} KeptAbove(nodes: set<InterruptCtx>, x: InterruptCtx, c: InterruptCtx, allowed: set<string>)
    requires Forest(nodes) && x in nodes && (c == x || c in x.lineage)
    ensures forall y :: y in KeptOf(c.lineage, allowed) ==> y in KeptOf(x.lineage, allowed)
    decreases |x.lineage|
  {
    if c != x {
      var p := x.lineage[0];
      assert c == p || c in p.lineage;
      KeptAbove(nodes, p, c, allowed);
    }
  }

  /** Cuts the address of one context: a root cause, done by that, or a kept inner node. */
  method CutOne(c: InterruptCtx, allowed: set<string>, ghost nodes: set<InterruptCtx>, ghost done: set<InterruptCtx>)
    requires Consistent(nodes, done, allowed) && c in nodes && (c.point.isRootCause || Kept(c, allowed))
    modifies c`address
    ensures Consistent(nodes, if c.point.isRootCause then done + {c} else done, allowed)
    ensures c.address == Restrict(c.point.address, allowed)
    ensures forall y: InterruptCtx :: y in nodes && old(y.address) == Restrict(y.point.address, allowed) ==>
      y.address == Restrict(y.point.address, allowed)
  {
    RestrictLast(c.point.address, allowed);
    c.address := Cut(c.address, allowed);
  }

  /** The loop over the segments of one address. */
  method Cut(address: T.Address, allowed: set<string>) returns (newAddr: T.Address)
    ensures newAddr == Restrict(address, allowed)
  {
    newAddr := [];
    for i := 0 to |address|
      invariant newAddr == Restrict(address[..i], allowed)
    {
      assert address[..i + 1][..i] == address[..i];
      if address[i].kind in allowed {
        newAddr := newAddr + [address[i]];
      }
    }
    assert address[..|address|] == address;
  }

  // ---------------------------------------------------------------- building and filtering

  /** Every root cause above a root cause comes before it in the list. */
  ghost predicate AncestorsFirst(roots: seq<InterruptCtx>, nodes: set<InterruptCtx>) {
    forall i, y :: 0 <= i < |roots| && y in roots[i].lineage && y.point.isRootCause && y in nodes ==> y in roots[..i]
  }

  /** Contexts just built, below `parent`. */
  ghost predicate Built(nodes: set<InterruptCtx>, parent: InterruptCtx?)
    reads nodes
  {
    forall x :: x in nodes ==>
      && x.address == x.point.address
      && x.parent == (if x.lineage == [] then null else x.lineage[0])
      && (x.lineage != [] ==>
            (x.lineage[0] in nodes || x.lineage[0] == parent) && x.lineage[0].lineage == x.lineage[1..])
      && (forall y :: y in x.lineage ==> y in nodes || y in LineageOf(parent))
  }

  ghost function Points(lineage: seq<InterruptCtx>): T.Path {
    seq(|lineage|, i requires 0 <= i < |lineage| => lineage[i].point)
  }

  ghost function PathOf(x: InterruptCtx): T.Path {
    [x.point] + Points(x.lineage)
  }

  /** The root causes have the contexts of the specification. */
  ghost predicate AreContexts(roots: seq<InterruptCtx>, paths: seq<T.Path>) {
    |roots| == |paths| && forall i :: 0 <= i < |roots| ==> PathOf(roots[i]) == paths[i]
  }

  method BuildContexts(signal: T.Signal, parentCtx: InterruptCtx?)
    returns (roots: seq<InterruptCtx>, ghost nodes: set<InterruptCtx>)
    ensures fresh(nodes) && Built(nodes, parentCtx)
    ensures RootCausesOf(roots, nodes) && AncestorsFirst(roots, nodes)
    ensures AreContexts(roots, T.Contexts(signal, Points(LineageOf(parentCtx))))
    decreases signal, 1
  {
    var ctx := new InterruptCtx(signal.point, parentCtx);
    var below;
    ghost var inner;
    below, inner := BuildSubs(signal.subs, ctx);
    roots := (if signal.point.isRootCause then [ctx] else []) + below;
    nodes := {ctx} + inner;
    Assembled(ctx, below, inner, signal, parentCtx);
  }

  ghost predicate RootCausesOf(roots: seq<InterruptCtx>, nodes: set<InterruptCtx>) {
    forall i :: 0 <= i < |roots| ==> roots[i] in nodes && roots[i].point.isRootCause
  }

  lemma Assembled(ctx: InterruptCtx, below: seq<InterruptCtx>, inner: set<InterruptCtx>, signal: T.Signal,
                  parent: InterruptCtx?)
    requires ctx.point == signal.point && ctx.address == ctx.point.address
    requires ctx.parent == parent && ctx.lineage == LineageOf(parent)
    requires forall y :: y in ctx.lineage ==> y != ctx && y !in inner
    requires Built(inner, ctx) && RootCausesOf(below, inner) && AncestorsFirst(below, inner)
    requires AreContexts(below, T.SubContexts(signal.subs, Points(LineageOf(ctx))))
    ensures var roots, nodes := (if ctx.point.isRootCause then [ctx] else []) + below, {ctx} + inner;
      && Built(nodes, parent) && RootCausesOf(roots, nodes) && AncestorsFirst(roots, nodes)
      && AreContexts(roots, T.Contexts(signal, Points(LineageOf(parent))))
  {
    ContextsAbove(ctx, below, signal, parent);
    BuiltAbove(ctx, parent, inner);
    FirstThenBelow(ctx, below, inner);
  }

  lemma ContextsAbove(ctx: InterruptCtx, below: seq<InterruptCtx>, signal: T.Signal, parent: InterruptCtx?)
    requires ctx.point == signal.point && ctx.lineage == LineageOf(parent)
    requires AreContexts(below, T.SubContexts(signal.subs, Points(LineageOf(ctx))))
    ensures AreContexts((if ctx.point.isRootCause then [ctx] else []) + below,
                        T.Contexts(signal, Points(LineageOf(parent))))
  {
    assert Points(LineageOf(ctx)) == [signal.point] + Points(LineageOf(parent)) == PathOf(ctx);
  }

  lemma BuiltAbove(ctx: InterruptCtx, parent: InterruptCtx?, inner: set<InterruptCtx>)
    requires Built(inner, ctx)
    requires ctx.address == ctx.point.address && ctx.parent == parent && ctx.lineage == LineageOf(parent)
    ensures Built({ctx} + inner, parent)
  {
  }

  lemma FirstThenBelow(ctx: InterruptCtx, below: seq<InterruptCtx>, inner: set<InterruptCtx>)
    requires AncestorsFirst(below, inner)
    requires forall y :: y in ctx.lineage ==> y != ctx && y !in inner
    ensures AncestorsFirst((if ctx.point.isRootCause then [ctx] else []) + below, {ctx} + inner)
  {
    var first := if ctx.point.isRootCause then [ctx] else [];
    var roots := first + below;
    forall i, y | 0 <= i < |roots| && y in roots[i].lineage && y.point.isRootCause && y in {ctx} + inner
      ensures y in roots[..i]
    {
      if i >= |first| {
        assert roots[i] == below[i - |first|];
        assert roots[..i] == first + below[..i - |first|];
        if y == ctx {
          assert y in first;
        } else {
          assert y in below[..i - |first|];
        }
      }
    }
  }

  lemma OneThenOther(first: seq<InterruptCtx>, rest: seq<InterruptCtx>,
                     nodes1: set<InterruptCtx>, nodes2: set<InterruptCtx>)
    requires AncestorsFirst(first, nodes1) && AncestorsFirst(rest, nodes2)
    requires forall i, y :: 0 <= i < |first| && y in first[i].lineage ==> y !in nodes2
    requires forall i, y :: 0 <= i < |rest| && y in rest[i].lineage ==> y !in nodes1
    ensures AncestorsFirst(first + rest, nodes1 + nodes2)
  {
    var roots := first + rest;
    forall i, y | 0 <= i < |roots| && y in roots[i].lineage && y.point.isRootCause && y in nodes1 + nodes2
      ensures y in roots[..i]
    {
      if i < |first| {
        assert roots[..i] == first[..i];
      } else {
        assert roots[i] == rest[i - |first|];
        assert roots[..i] == first + rest[..i - |first|];
      }
    }
  }

  method BuildSubs(subs: seq<T.Signal>, ctx: InterruptCtx)
    returns (roots: seq<InterruptCtx>, ghost nodes: set<InterruptCtx>)
    ensures fresh(nodes) && Built(nodes, ctx)
    ensures RootCausesOf(roots, nodes) && AncestorsFirst(roots, nodes)
    ensures AreContexts(roots, T.SubContexts(subs, Points(LineageOf(ctx))))
    decreases subs, 0
  {
    if subs == [] {
      roots, nodes := [], {};
      return;
    }
    var first, rest;
    ghost var nodes1, nodes2;
    first, nodes1 := BuildContexts(subs[0], ctx);
    rest, nodes2 := BuildSubs(subs[1..], ctx);
    roots, nodes := first + rest, nodes1 + nodes2;
    SideBySide(first, rest, nodes1, nodes2, subs, ctx);
  }

  lemma SideBySide(first: seq<InterruptCtx>, rest: seq<InterruptCtx>,
                   nodes1: set<InterruptCtx>, nodes2: set<InterruptCtx>,
                   subs: seq<T.Signal>, ctx: InterruptCtx)
    requires subs != [] && nodes1 !! nodes2
    requires forall y :: y in LineageOf(ctx) ==> y !in nodes1 && y !in nodes2
    requires Built(nodes1, ctx) && RootCausesOf(first, nodes1) && AncestorsFirst(first, nodes1)
    requires Built(nodes2, ctx) && RootCausesOf(rest, nodes2) && AncestorsFirst(rest, nodes2)
    requires AreContexts(first, T.Contexts(subs[0], Points(LineageOf(ctx))))
    requires AreContexts(rest, T.SubContexts(subs[1..], Points(LineageOf(ctx))))
    ensures Built(nodes1 + nodes2, ctx) && RootCausesOf(first + rest, nodes1 + nodes2)
    ensures AncestorsFirst(first + rest, nodes1 + nodes2)
    ensures AreContexts(first + rest, T.SubContexts(subs, Points(LineageOf(ctx))))
  {
    OneThenOther(first, rest, nodes1, nodes2);
  }

  ghost function Members(roots: seq<InterruptCtx>): set<InterruptCtx> {
    set x | x in roots
  }

  ghost predicate Finished(x: InterruptCtx, allowed: set<string>)
    reads {x} + set y | y in x.lineage
  {
    Filtered(x, allowed) && CutAddresses(x, allowed)
  }

  /** One round of the loop: finishes its root cause and unfinishes no other. */
  method FilterOne(ctx: InterruptCtx, allowed: set<string>,
                   ghost nodes: set<InterruptCtx>, ghost done: set<InterruptCtx>)
    requires Consistent(nodes, done, allowed) && ctx in nodes && ctx.point.isRootCause && AboveDone(ctx, done)
    modifies nodes
    ensures Consistent(nodes, done + {ctx}, allowed) && Finished(ctx, allowed)
    ensures forall x :: x in nodes && old(Finished(x, allowed)) ==> Finished(x, allowed)
  {
    FilterParentChain(ctx, allowed, nodes, done);
    label Linked:
    EncapsulateContextAddress(ctx, allowed, nodes, done);
    forall x | x in nodes && old(Finished(x, allowed))
      ensures Finished(x, allowed)
    {
      KeptInside(x.lineage, allowed);
      forall y | y in KeptOf(x.lineage, allowed)
        ensures y.parent == Nearest(y.lineage, allowed) && y.address == Restrict(y.point.address, allowed)
      {
        AncestorsOf(nodes, x, y);
        assert old@Linked(y.parent) == Nearest(y.lineage, allowed);
      }
    }
  }

  lemma ReadyFor(roots: seq<InterruptCtx>, k: nat, nodes: set<InterruptCtx>)
    requires k < |roots| && roots[k] in nodes && Forest(nodes) && AncestorsFirst(roots, nodes)
    ensures AboveDone(roots[k], Members(roots[..k]))
  {
    forall y | y in roots[k].lineage && y.point.isRootCause
      ensures y in roots[..k]
    {
      AncestorsOf(nodes, roots[k], y);
    }
  }

  ghost predicate AllFinished(nodes: set<InterruptCtx>, done: set<InterruptCtx>, allowed: set<string>)
    reads nodes
  {
    forall x :: x in done ==> x in nodes && (forall y :: y in x.lineage ==> y in nodes) && Finished(x, allowed)
  }

  /** One round keeps all that are finished so, and finishes one more. */
  method FilterNext(ctx: InterruptCtx, allowed: set<string>,
                    ghost nodes: set<InterruptCtx>, ghost done: set<InterruptCtx>)
    requires Consistent(nodes, done, allowed) && ctx in nodes && ctx.point.isRootCause && AboveDone(ctx, done)
    requires AllFinished(nodes, done, allowed)
    modifies nodes
    ensures Consistent(nodes, done + {ctx}, allowed) && AllFinished(nodes, done + {ctx}, allowed)
  {
    forall y | y in ctx.lineage
      ensures y in nodes
    {
      AncestorsOf(nodes, ctx, y);
    }
    FilterOne(ctx, allowed, nodes, done);
  }

  /** Filters all root causes in turn. Each ends up with exactly its kept ancestors, in order,
      and with every address on that chain cut, whatever was done for the others. */
  method FilterAll(roots: seq<InterruptCtx>, allowed: set<string>, ghost nodes: set<InterruptCtx>)
    requires Consistent(nodes, {}, allowed) && AncestorsFirst(roots, nodes)
    requires forall i :: 0 <= i < |roots| ==> roots[i] in nodes && roots[i].point.isRootCause
    modifies nodes
    ensures Consistent(nodes, Members(roots), allowed) && AllFinished(nodes, Members(roots), allowed)
  {
    assert Members(roots[..0]) == {};
    for k := 0 to |roots|
      invariant Consistent(nodes, Members(roots[..k]), allowed)
      invariant AllFinished(nodes, Members(roots[..k]), allowed)
    {
      ReadyFor(roots, k, nodes);
      FilterNext(roots[k], allowed, nodes, Members(roots[..k]));
      OneMember(roots, k);
    }
    assert roots[..|roots|] == roots;
  }

  lemma OneMember(roots: seq<InterruptCtx>, k: nat)
    requires k < |roots|
    ensures Members(roots[..k + 1]) == Members(roots[..k]) + {roots[k]}
  {
    assert roots[..k + 1] == roots[..k] + [roots[k]];
  }

  lemma AllChains(roots: seq<InterruptCtx>, allowed: set<string>, nodes: set<InterruptCtx>)
    requires Consistent(nodes, Members(roots), allowed) && AllFinished(nodes, Members(roots), allowed)
    ensures forall i :: 0 <= i < |roots| ==> roots[i] in nodes && CutAddresses(roots[i], allowed)
    ensures forall i :: 0 <= i < |roots| ==>
      Chain(roots[i], nodes, Members(roots), allowed) == KeptOf(roots[i].lineage, allowed)
  {
    forall i | 0 <= i < |roots|
      ensures Chain(roots[i], nodes, Members(roots), allowed) == KeptOf(roots[i].lineage, allowed)
    {
      FilteredChain(roots[i], nodes, Members(roots), allowed);
    }
  }

  /** The whole operation; without allowed types nothing is filtered. */
  method IoInterruptContexts(signal: T.Signal, allowed: set<string>)
    returns (roots: seq<InterruptCtx>, ghost nodes: set<InterruptCtx>)
    ensures AreContexts(roots, T.Contexts(signal, []))
    ensures allowed == {} ==> Built(nodes, null)
    ensures forall i :: 0 <= i < |roots| ==> roots[i] in nodes
    ensures allowed != {} ==>
      && Consistent(nodes, Members(roots), allowed)
      && forall i :: 0 <= i < |roots| ==>
           && CutAddresses(roots[i], allowed)
           && Chain(roots[i], nodes, Members(roots), allowed) == KeptOf(roots[i].lineage, allowed)
    ensures T.RootCausesAreLeaves(signal) ==>
      forall i :: 0 <= i < |roots| ==> KeptOf(roots[i].lineage, allowed) == Intended(roots[i].lineage, allowed)
  {
    roots, nodes := BuildContexts(signal, null);
    if T.RootCausesAreLeaves(signal) {
      InnerPoints(signal, []);
      forall i | 0 <= i < |roots|
        ensures KeptOf(roots[i].lineage, allowed) == Intended(roots[i].lineage, allowed)
      {
        InnerLineage(roots[i]);
        KeptIsIntended(roots[i].lineage, allowed);
      }
    }
    assert Points(LineageOf(null)) == [];
    if allowed != {} {
      FilterAll(roots, allowed, nodes);
      AllChains(roots, allowed, nodes);
    }
  }

  // ---------------------------------------------------------------- kept as intended

  /** The intended ancestors: those whose address ends in an allowed segment. */
  ghost function Intended(lineage: seq<InterruptCtx>, allowed: set<string>): seq<InterruptCtx> {
    if lineage == [] then []
    else if EndsAllowed(lineage[0].point.address, allowed) then [lineage[0]] + Intended(lineage[1..], allowed)
    else Intended(lineage[1..], allowed)
  }

  /** What is kept is what is intended exactly when no ancestor that is a root cause itself has an
      allowed segment without ending in one. With leaves as the only root causes that is always so. */
  lemma {:induction false} KeptIsIntended(lineage: seq<InterruptCtx>, allowed: set<string>)
    ensures KeptOf(lineage, allowed) == Intended(lineage, allowed) <==>
      forall y :: y in lineage && y.point.isRootCause && Restrict(y.point.address, allowed) != [] ==>
        EndsAllowed(y.point.address, allowed)
  {
    if lineage != [] {
      var x, rest := lineage[0], lineage[1..];
      assert lineage == [x] + rest;
      KeptIsIntended(rest, allowed);
      RestrictLast(x.point.address, allowed);
      KeptCount(rest, allowed);
      var kept, intended := KeptOf(rest, allowed), Intended(rest, allowed);
      if EndsAllowed(x.point.address, allowed) {
        assert ([x] + kept)[1..] == kept && ([x] + intended)[1..] == intended;
      } else if Kept(x, allowed) {
        assert |KeptOf(lineage, allowed)| > |Intended(lineage, allowed)|;
        assert x in lineage;
      }
    }
  }

  /** Nothing intended is ever dropped. */
  lemma {:induction false} KeptCount(lineage: seq<InterruptCtx>, allowed: set<string>)
    ensures |Intended(lineage, allowed)| <= |KeptOf(lineage, allowed)|
  {
    if lineage != [] {
      KeptCount(lineage[1..], allowed);
      RestrictLast(lineage[0].point.address, allowed);
    }
  }

  /** A context whose ancestors are no root causes. */
  ghost predicate InnerClear(path: T.Path) {
    forall k :: 1 <= k < |path| ==> !path[k].isRootCause
  }

  lemma InnerLineage(x: InterruptCtx)
    requires InnerClear(PathOf(x))
    ensures forall y :: y in x.lineage ==> !y.point.isRootCause
  {
    forall k | 0 <= k < |x.lineage|
      ensures !x.lineage[k].point.isRootCause
    {
      assert PathOf(x)[k + 1] == x.lineage[k].point;
    }
  }

  lemma {:induction false} InnerPoints(t: T.Signal, above: T.Path)
    requires T.RootCausesAreLeaves(t) && forall k :: 0 <= k < |above| ==> !above[k].isRootCause
    ensures forall i :: 0 <= i < |T.Contexts(t, above)| ==> InnerClear(T.Contexts(t, above)[i])
    decreases t, 1
  {
    if t.subs != [] {
      InnerPointsSubs(t.subs, [t.point] + above);
    }
  }

  lemma {:induction false} InnerPointsSubs(subs: seq<T.Signal>, here: T.Path)
    requires forall i :: 0 <= i < |subs| ==> T.RootCausesAreLeaves(subs[i])
    requires forall k :: 0 <= k < |here| ==> !here[k].isRootCause
    ensures forall i :: 0 <= i < |T.SubContexts(subs, here)| ==> InnerClear(T.SubContexts(subs, here)[i])
    decreases subs, 0
  {
    if subs != [] {
      InnerPoints(subs[0], here);
      InnerPointsSubs(subs[1..], here);
    }
  }

  /** An ancestor that is a root cause and does not end in an allowed segment, but has one,
      is kept for those below it once its own address has been cut. */
  lemma InnerRootCauseSurvives(x: InterruptCtx)
    requires x.point.isRootCause
    requires x.point.address == [T.Segment("agent", "a"), T.Segment("node", "n")]
    ensures KeptOf([x], {"agent"}) == [x] && Intended([x], {"agent"}) == []
  {
    var address := x.point.address;
    assert address[..1][..0] == [];
    assert Restrict(address[..1], {"agent"}) == [] + [address[0]];
  }
}
