/** Reading the contexts off a tree and rebuilding it are inverse to each other. */
module InterruptTreeProperties {

  import opened Wrappers
  import opened InterruptTree

  // ---------------------------------------------------------------- the tree added at once

  function AddTree(table: Table, t: Signal, parent: Option<string>): Table
    decreases t, 1
  {
    AddTrees(Attach(Enter(table, t.point), t.point.id, parent), t.subs, t.point.id)
  }

  function AddTrees(table: Table, subs: seq<Signal>, parent: string): Table
    decreases subs, 0
  {
    if subs == [] then table else AddTrees(AddTree(table, subs[0], Some(parent)), subs[1..], parent)
  }

  function PathIds(path: Path): set<string> {
    set p | p in path :: p.id
  }

  lemma {:induction false} KeysOfGetOrCreate(table: Table, path: Path)
    ensures GetOrCreate(table, path).entries.Keys <= table.entries.Keys + PathIds(path)
    ensures table.entries.Keys <= GetOrCreate(table, path).entries.Keys
    ensures path != [] ==> path[0].id in GetOrCreate(table, path).entries
    decreases path
  {
    if path != [] && path[0].id !in table.entries {
      KeysOfGetOrCreate(Enter(table, path[0]), path[1..]);
      assert PathIds(path[1..]) <= PathIds(path);
      assert path[0] in path;
    }
  }

  lemma {:induction false} KeysOfAddTree(table: Table, t: Signal, parent: Option<string>)
    ensures AddTree(table, t, parent).entries.Keys == table.entries.Keys + Ids(t)
    decreases t, 1
  {
    KeysOfAddTrees(Attach(Enter(table, t.point), t.point.id, parent), t.subs, t.point.id);
  }

  lemma {:induction false} KeysOfAddTrees(table: Table, subs: seq<Signal>, parent: string)
    ensures AddTrees(table, subs, parent).entries.Keys == table.entries.Keys + SubIds(subs)
    decreases subs, 0
  {
    if subs != [] {
      KeysOfAddTree(table, subs[0], Some(parent));
      KeysOfAddTrees(AddTree(table, subs[0], Some(parent)), subs[1..], parent);
    }
  }

  lemma EnterTwice(table: Table, p: Point, q: Point)
    requires p.id != q.id
    ensures Enter(Enter(table, p), q) == Enter(Enter(table, q), p)
  {
  }

  lemma AttachCommutes(table: Table, p: Point, id: string, parent: Option<string>)
    requires parent != Some(p.id)
    ensures Attach(Enter(table, p), id, parent) == Enter(Attach(table, id, parent), p)
  {
  }

  lemma OnPath(path: Path)
    requires path != []
    ensures path[0].id in PathIds(path) && PathIds(path[1..]) <= PathIds(path)
    ensures |path| > 1 ==> path[1].id in PathIds(path)
  {
    assert path[0] in path;
    assert |path| > 1 ==> path[1] in path;
  }

  /** A node not on the path may as well be entered after the path was looked up. */
  lemma {:induction false} EnterCommutes(table: Table, p: Point, path: Path)
    requires p.id !in table.entries && p.id !in PathIds(path)
    ensures GetOrCreate(Enter(table, p), path) == Enter(GetOrCreate(table, path), p)
    decreases path
  {
    if path != [] {
      OnPath(path);
      if path[0].id !in table.entries {
        var q, rest := path[0], path[1..];
        EnterTwice(table, p, q);
        EnterCommutes(Enter(table, q), p, rest);
        AttachCommutes(GetOrCreate(Enter(table, q), rest), p, q.id, Head(rest));
      }
    }
  }

  lemma {:induction false} AddAllConcat(table: Table, a: seq<Path>, b: seq<Path>)
    ensures AddAll(table, a + b) == AddAll(AddAll(table, a), b)
    decreases a
  {
    if a == [] {
      assert a + b == b;
    } else {
      assert (a + b)[1..] == a[1..] + b;
      AddAllConcat(GetOrCreate(table, a[0]), a[1..], b);
    }
  }

  /** A new node with a path above it: its ancestors first, then the node. */
  lemma LookupNewNode(table: Table, p: Point, above: Path)
    requires p.id !in table.entries && p.id !in PathIds(above)
    ensures GetOrCreate(table, [p] + above) == Attach(Enter(GetOrCreate(table, above), p), p.id, Head(above))
  {
    EnterCommutes(table, p, above);
    assert ([p] + above)[1..] == above;
  }

  lemma {:induction false} ContextsAddTree(table: Table, t: Signal, above: Path)
    requires LeavesAreRootCauses(t) && Unique(t)
    requires Ids(t) !! table.entries.Keys && Ids(t) !! PathIds(above)
    ensures AddAll(table, Contexts(t, above)) == AddTree(GetOrCreate(table, above), t, Head(above))
    decreases t, 1
  {
    var here := [t.point] + above;
    LookupNewNode(table, t.point, above);
    KeysOfGetOrCreate(table, here);
    assert PathIds(here) == {t.point.id} + PathIds(above) by {
      assert forall p :: p in here <==> p == t.point || p in above;
    }
    if t.point.isRootCause {
      var added := GetOrCreate(table, here);
      AddAllConcat(table, [here], SubContexts(t.subs, here));
      OneContext(table, here);
      SubContextsAddTrees(added, t.subs, here);
    } else {
      assert [] + SubContexts(t.subs, here) == SubContexts(t.subs, here);
      SubContextsAddTrees(table, t.subs, here);
    }
  }

  lemma {:induction false} SubContextsAddTrees(table: Table, subs: seq<Signal>, here: Path)
    requires here != [] && (subs != [] || here[0].id in table.entries)
    requires forall i :: 0 <= i < |subs| ==> LeavesAreRootCauses(subs[i])
    requires UniqueSubs(subs)
    requires SubIds(subs) !! table.entries.Keys && SubIds(subs) !! PathIds(here)
    ensures AddAll(table, SubContexts(subs, here)) == AddTrees(GetOrCreate(table, here), subs, here[0].id)
    decreases subs, 0
  {
    if subs != [] {
      var first, rest := subs[0], subs[1..];
      AddAllConcat(table, Contexts(first, here), SubContexts(rest, here));
      ContextsAddTree(table, first, here);
      KeysOfGetOrCreate(table, here);
      KeysOfAddTree(GetOrCreate(table, here), first, Head(here));
      SubContextsAddTrees(AddTree(GetOrCreate(table, here), first, Head(here)), rest, here);
    }
  }

  // ---------------------------------------------------------------- what the table then says

  lemma {:induction false} SubIdsHas(subs: seq<Signal>, i: nat)
    requires i < |subs|
    ensures Ids(subs[i]) <= SubIds(subs)
  {
    if i > 0 {
      SubIdsHas(subs[1..], i - 1);
    }
  }

  lemma {:induction false} RepresentsFrame(entries: map<string, Entry>, entries': map<string, Entry>, t: Signal)
    requires Represents(entries, t)
    requires forall k :: k in Ids(t) && k in entries ==> k in entries' && entries'[k] == entries[k]
    ensures Represents(entries', t)
  {
    forall i | 0 <= i < |t.subs|
      ensures Represents(entries', t.subs[i])
    {
      SubIdsHas(t.subs, i);
      RepresentsFrame(entries, entries', t.subs[i]);
    }
  }

  lemma {:induction false} AddTreeRepresents(table: Table, t: Signal, parent: Option<string>)
    requires Unique(t) && Ids(t) !! table.entries.Keys
    requires parent.Some? ==> parent.value in table.entries
    ensures var r := AddTree(table, t, parent);
      && Represents(r.entries, t)
      && r.root == (if parent.None? then Some(t.point.id) else table.root)
      && (forall k :: k in table.entries && Some(k) != parent ==> k in r.entries && r.entries[k] == table.entries[k])
      && (parent.Some? ==>
            && parent.value in r.entries
            && r.entries[parent.value] ==
               table.entries[parent.value].(subs := table.entries[parent.value].subs + [t.point.id]))
    decreases t, 1
  {
    var start := Attach(Enter(table, t.point), t.point.id, parent);
    AddTreesRepresent(start, t.subs, t.point.id);
    var r := AddTree(table, t, parent);
    assert r.entries[t.point.id].subs == IdList(t.subs);
  }

  function IdList(subs: seq<Signal>): (r: seq<string>)
    ensures |r| == |subs| && forall i :: 0 <= i < |subs| ==> r[i] == subs[i].point.id
  {
    if subs == [] then [] else [subs[0].point.id] + IdList(subs[1..])
  }

  /** What adding trees below a node does to the table. */
  ghost predicate GrownBy(table: Table, r: Table, subs: seq<Signal>, parent: string) {
    && (forall i :: 0 <= i < |subs| ==> Represents(r.entries, subs[i]))
    && r.root == table.root
    && (forall k :: k in table.entries && k != parent ==> k in r.entries && r.entries[k] == table.entries[k])
    && parent in table.entries && parent in r.entries
    && r.entries[parent] == table.entries[parent].(subs := table.entries[parent].subs + IdList(subs))
  }

  lemma {:induction false} AddTreesRepresent(table: Table, subs: seq<Signal>, parent: string)
    requires UniqueSubs(subs) && SubIds(subs) !! table.entries.Keys && parent in table.entries
    ensures GrownBy(table, AddTrees(table, subs, parent), subs, parent)
    decreases subs, 0
  {
    if subs == [] {
      assert table.entries[parent].subs + [] == table.entries[parent].subs;
    } else {
      var first, rest := subs[0], subs[1..];
      var mid := AddTree(table, first, Some(parent));
      AddTreeRepresents(table, first, Some(parent));
      KeysOfAddTree(table, first, Some(parent));
      AddTreesRepresent(mid, rest, parent);
      assert parent !in Ids(first);
      assert Ids(first) !! table.entries.Keys;
      GrowsOn(table, mid, AddTrees(mid, rest, parent), subs, parent);
    }
  }

  lemma GrowsOn(table: Table, mid: Table, r: Table, subs: seq<Signal>, parent: string)
    requires subs != [] && parent in table.entries && parent in mid.entries && parent !in Ids(subs[0])
    requires Represents(mid.entries, subs[0]) && mid.root == table.root
    requires forall k :: k in table.entries && k != parent ==> k in mid.entries && mid.entries[k] == table.entries[k]
    requires mid.entries[parent] == table.entries[parent].(subs := table.entries[parent].subs + [subs[0].point.id])
    requires Ids(subs[0]) <= mid.entries.Keys
    requires GrownBy(mid, r, subs[1..], parent)
    ensures GrownBy(table, r, subs, parent)
  {
    FirstStays(table, mid, r, subs[0], subs[1..], parent);
    IdsTogether(table.entries[parent].subs, subs);
    assert forall i :: 0 < i < |subs| ==> subs[i] == subs[1..][i - 1];
  }

  lemma FirstStays(table: Table, mid: Table, r: Table, first: Signal, rest: seq<Signal>, parent: string)
    requires Represents(mid.entries, first) && parent !in Ids(first)
    requires GrownBy(mid, r, rest, parent)
    ensures Represents(r.entries, first)
  {
    RepresentsFrame(mid.entries, r.entries, first);
  }

  lemma IdsTogether(before: seq<string>, subs: seq<Signal>)
    requires subs != []
    ensures before + [subs[0].point.id] + IdList(subs[1..]) == before + IdList(subs)
  {
  }

  // ---------------------------------------------------------------- what is lost otherwise

  lemma {:induction false} KeysOfAddAll(table: Table, contexts: seq<Path>, id: string)
    requires id !in table.entries
    requires forall i :: 0 <= i < |contexts| ==> id !in PathIds(contexts[i])
    ensures id !in AddAll(table, contexts).entries
    decreases contexts
  {
    if contexts != [] {
      KeysOfGetOrCreate(table, contexts[0]);
      KeysOfAddAll(GetOrCreate(table, contexts[0]), contexts[1..], id);
    }
  }

  /** An ID that is neither in the tree nor above it is on none of its contexts. */
  lemma {:induction false} ForeignId(t: Signal, above: Path, id: string)
    requires id !in Ids(t) && id !in PathIds(above)
    ensures forall i :: 0 <= i < |Contexts(t, above)| ==> id !in PathIds(Contexts(t, above)[i])
    decreases t, 1
  {
    var here := [t.point] + above;
    assert id !in PathIds(here) by {
      assert forall p :: p in here <==> p == t.point || p in above;
    }
    ForeignIdSubs(t.subs, here, id);
  }

  lemma {:induction false} ForeignIdSubs(subs: seq<Signal>, here: Path, id: string)
    requires id !in SubIds(subs) && id !in PathIds(here)
    ensures forall i :: 0 <= i < |SubContexts(subs, here)| ==> id !in PathIds(SubContexts(subs, here)[i])
    decreases subs, 0
  {
    if subs != [] {
      ForeignId(subs[0], here, id);
      ForeignIdSubs(subs[1..], here, id);
    }
  }

  /** A leaf that is no root cause is on no context. */
  lemma {:induction false} LostLeaf(t: Signal, above: Path) returns (id: string)
    requires !LeavesAreRootCauses(t) && Unique(t) && Ids(t) !! PathIds(above)
    ensures id in Ids(t)
    ensures forall i :: 0 <= i < |Contexts(t, above)| ==> id !in PathIds(Contexts(t, above)[i])
    decreases t, 1
  {
    var here := [t.point] + above;
    assert PathIds(here) == {t.point.id} + PathIds(above) by {
      assert forall p :: p in here <==> p == t.point || p in above;
    }
    if t.subs == [] {
      id := t.point.id;
    } else {
      id := LostLeafSubs(t.subs, here);
      assert id != t.point.id;
      assert id !in PathIds(here);
    }
  }

  lemma {:induction false} LostLeafSubs(subs: seq<Signal>, here: Path) returns (id: string)
    requires UniqueSubs(subs) && SubIds(subs) !! PathIds(here)
    requires exists i :: 0 <= i < |subs| && !LeavesAreRootCauses(subs[i])
    ensures id in SubIds(subs)
    ensures forall i :: 0 <= i < |SubContexts(subs, here)| ==> id !in PathIds(SubContexts(subs, here)[i])
    decreases subs, 0
  {
    if !LeavesAreRootCauses(subs[0]) {
      id := LostLeaf(subs[0], here);
      ForeignIdSubs(subs[1..], here, id);
    } else {
      var i :| 0 <= i < |subs| && !LeavesAreRootCauses(subs[i]);
      assert subs[1..][i - 1] == subs[i];
      id := LostLeafSubs(subs[1..], here);
      ForeignId(subs[0], here, id);
    }
  }

  lemma {:induction false} RepresentsAllIds(entries: map<string, Entry>, t: Signal)
    requires Represents(entries, t)
    ensures Ids(t) <= entries.Keys
    decreases t, 1
  {
    RepresentsSubIds(entries, t.subs);
  }

  lemma {:induction false} RepresentsSubIds(entries: map<string, Entry>, subs: seq<Signal>)
    requires forall i :: 0 <= i < |subs| ==> Represents(entries, subs[i])
    ensures SubIds(subs) <= entries.Keys
    decreases subs, 0
  {
    if subs != [] {
      RepresentsAllIds(entries, subs[0]);
      assert forall i :: 0 <= i < |subs[1..]| ==> subs[1..][i] == subs[i + 1];
      RepresentsSubIds(entries, subs[1..]);
    }
  }

  // ---------------------------------------------------------------- the round trip

  /** With distinct IDs, the tree is rebuilt from its contexts, children in order and nothing
      but the saved state lost, exactly when every leaf is a root cause. */
  lemma RebuildsExactly(t: Signal)
    requires Unique(t)
    ensures var r := FromContexts(Contexts(t, []));
      (r.root == Some(t.point.id) && Represents(r.entries, t)) <==> LeavesAreRootCauses(t)
  {
    var r := FromContexts(Contexts(t, []));
    if LeavesAreRootCauses(t) {
      ContextsAddTree(EMPTY, t, []);
      AddTreeRepresents(EMPTY, t, None);
    } else {
      var id := LostLeaf(t, []);
      KeysOfAddAll(EMPTY, Contexts(t, []), id);
      if Represents(r.entries, t) {
        RepresentsAllIds(r.entries, t);
      }
    }
  }

  /** A root with two leaves, of which the second is no root cause: that leaf is not rebuilt. */
  lemma LeafNotRebuilt()
    ensures var root, kept, lost := Point("r", [], "", false), Point("a", [], "", true), Point("b", [], "", false);
      var t := Signal(root, "", [Signal(kept, "", []), Signal(lost, "", [])]);
      && Unique(t)
      && FromContexts(Contexts(t, [])) == Table(map["r" := Entry(root, ["a"]), "a" := Entry(kept, [])], Some("r"))
  {
    var root, kept, lost := Point("r", [], "", false), Point("a", [], "", true), Point("b", [], "", false);
    var a, b := Signal(kept, "", []), Signal(lost, "", []);
    var t := Signal(root, "", [a, b]);
    assert "r" != "a" && "r" != "b" && "a" != "b";
    assert Unique(t) by {
      assert SubIds([b]) == {"b"} && SubIds([a, b]) == {"a", "b"};
      assert Unique(a) && Unique(b) && UniqueSubs([a, b][1..]);
    }
    LeavesContexts(root, kept, lost);
    var t2 := Enter(Enter(EMPTY, kept), root);
    assert [kept, root][1..] == [root] && [root][1..] == [];
    assert GetOrCreate(t2, []) == t2;
    assert GetOrCreate(Enter(EMPTY, kept), [root]) == Attach(t2, "r", None);
    var path := [kept, root];
    assert GetOrCreate(EMPTY, path) == Attach(Attach(t2, "r", None), "a", Some("r"));
    OneContext(EMPTY, path);
    assert [] + ["a"] == ["a"];
    assert FromContexts([path]).entries == map["r" := Entry(root, ["a"]), "a" := Entry(kept, [])];
  }

  lemma LeavesContexts(root: Point, kept: Point, lost: Point)
    requires !root.isRootCause && kept.isRootCause && !lost.isRootCause
    ensures Contexts(Signal(root, "", [Signal(kept, "", []), Signal(lost, "", [])]), []) == [[kept, root]]
  {
    var a, b := Signal(kept, "", []), Signal(lost, "", []);
    LeafContexts(a, [root]);
    LeafContexts(b, [root]);
    assert [kept] + [root] == [kept, root];
    assert [a, b][1..] == [b] && [b][1..] == [];
    assert SubContexts([b], [root]) == [];
    assert [root] + [] == [root];
    assert SubContexts([a, b], [root]) == [[kept, root]];
  }

  lemma OneContext(table: Table, path: Path)
    ensures AddAll(table, [path]) == GetOrCreate(table, path)
  {
    assert [path][1..] == [];
  }

  lemma LeafContexts(leaf: Signal, above: Path)
    requires leaf.subs == []
    ensures Contexts(leaf, above) == if leaf.point.isRootCause then [[leaf.point] + above] else []
  {
    assert SubContexts([], [leaf.point] + above) == [];
  }

  /** The table holds the nodes of the tree and no others. */
  lemma RebuildsNothingElse(t: Signal)
    requires Unique(t) && LeavesAreRootCauses(t)
    ensures FromContexts(Contexts(t, [])).entries.Keys == Ids(t)
  {
    ContextsAddTree(EMPTY, t, []);
    KeysOfAddTree(EMPTY, t, None);
  }

  /** Two trees read from the same table at the same node are the same but for the saved state. */
  lemma {:induction false} RepresentsOneTree(entries: map<string, Entry>, t: Signal, u: Signal)
    requires Represents(entries, t) && Represents(entries, u) && t.point.id == u.point.id
    ensures WithoutState(t) == WithoutState(u)
  {
    forall i | 0 <= i < |t.subs|
      ensures WithoutState(t.subs[i]) == WithoutState(u.subs[i])
    {
      RepresentsOneTree(entries, t.subs[i], u.subs[i]);
    }
  }

  function WithoutState(t: Signal): Signal {
    Signal(t.point, "", seq(|t.subs|, i requires 0 <= i < |t.subs| => WithoutState(t.subs[i])))
  }
}
