/** What a set of writes leaves does not depend on their order. */
module FieldMappingProperties {

  import opened Wrappers
  import opened FieldMapping

  // ---------------------------------------------------------------- the nested value

  datatype Tree = Leaf(value: Value) | Branch(entries: map<string, Tree>)

  lemma Child(store: Store, home: Homes, w: Written, a: nat, key: string)
    requires Holds(store, home, w, []) && a in home && a < |store| && key in store[a]
    ensures store[a][key] != Nil
    ensures store[a][key].Plain? ==> home[a] + [key] in w && w[home[a] + [key]] == store[a][key].value
    ensures store[a][key].Ref? ==>
      var b := store[a][key].address;
      a < b < |store| && b in home && home[b] == home[a] + [key] && home[b] !in w
  {
    assert CellOk(store, home, w, [], a, key);
  }

  /** The nested value a map stands for. */
  ghost function TreeAt(store: Store, home: Homes, w: Written, a: nat): map<string, Tree>
    requires Holds(store, home, w, []) && a in home && a < |store|
    decreases |store| - a
  {
    map key | key in store[a] :: TreeIn(store, home, w, a, key)
  }

  ghost function TreeIn(store: Store, home: Homes, w: Written, a: nat, key: string): Tree
    requires Holds(store, home, w, []) && a in home && a < |store| && key in store[a]
    decreases |store| - a, 0
  {
    Child(store, home, w, a, key);
    match store[a][key]
    case Plain(v) => Leaf(v)
    case Ref(b) => Branch(TreeAt(store, home, w, b))
  }

  /** The value at the end of a path of keys. */
  function ReadAt(entries: map<string, Tree>, path: Path): Option<Value>
    decreases |path|
  {
    if path == [] || path[0] !in entries then None
    else
      match entries[path[0]]
      case Leaf(v) => if |path| == 1 then Some(v) else None
      case Branch(sub) => ReadAt(sub, path[1..])
  }

  /** Every path written reads back its value, and nothing else can be read. */
  lemma {:induction false} ReadsBack(store: Store, home: Homes, w: Written, a: nat, path: Path)
    requires Holds(store, home, w, []) && a in home && a < |store| && path != []
    ensures ReadAt(TreeAt(store, home, w, a), path) ==
      if home[a] + path in w then Some(w[home[a] + path]) else None
    decreases |path|
  {
    var key, rest := path[0], path[1..];
    assert home[a] + path == home[a] + [key] + rest;
    if key in store[a] {
      Child(store, home, w, a, key);
    }
    if key in store[a] && store[a][key].Ref? && rest != [] {
      ReadsBack(store, home, w, store[a][key].address, rest);
    } else {
      ReadsHere(store, home, w, a, key, rest);
    }
  }

  /** What can be said of a path where the walk ends. */
  lemma ReadsHere(store: Store, home: Homes, w: Written, a: nat, key: string, rest: Path)
    requires Holds(store, home, w, []) && a in home && a < |store|
    requires key in store[a] && store[a][key].Ref? ==> rest == []
    ensures var p := home[a] + [key] + rest;
      p in w <==> rest == [] && key in store[a] && store[a][key].Plain?
    ensures rest == [] && key in store[a] && store[a][key].Plain? ==>
      w[home[a] + [key] + rest] == store[a][key].value
  {
    var q := home[a] + [key];
    assert CellOk(store, home, w, [], a, key);
    if rest == [] {
      assert q + rest == q;
    } else {
      assert q < q + rest;
    }
  }

  /** What was written determines the nested value, however the maps came to be. */
  lemma {:induction false} Determined(s: Store, h: Homes, t: Store, g: Homes, w: Written, a: nat, b: nat)
    requires Holds(s, h, w, []) && a in h && a < |s|
    requires Holds(t, g, w, []) && b in g && b < |t|
    requires h[a] == g[b]
    ensures TreeAt(s, h, w, a) == TreeAt(t, g, w, b)
    decreases |s| - a
  {
    forall key: string
      ensures key in s[a] <==> key in t[b]
      ensures key in s[a] ==> TreeIn(s, h, w, a, key) == TreeIn(t, g, w, b, key)
    {
      assert CellOk(s, h, w, [], a, key) && CellOk(t, g, w, [], b, key);
      if key in s[a] {
        Child(s, h, w, a, key);
        Child(t, g, w, b, key);
        if s[a][key].Ref? {
          Determined(s, h, t, g, w, s[a][key].address, t[b][key].address);
        }
      }
    }
  }

  // ---------------------------------------------------------------- many writes

  datatype Mapping = Mapping(path: Path, value: Value)

  /** The writes of a sequence, one after the other; nothing when one fails. */
  function WriteAll(w: Written, ms: seq<Mapping>): Option<Written> {
    if ms == [] then Some(w)
    else
      match WriteAll(w, ms[..|ms| - 1])
      case None => None
      case Some(before) =>
        var last := ms[|ms| - 1];
        if last.path == [] || Blocked(before, last.path) then None else Some(Write(before, last.path, last.value))
  }

  ghost predicate PrefixFree(ms: seq<Mapping>) {
    && (forall i :: 0 <= i < |ms| ==> ms[i].path != [])
    && (forall i, j :: 0 <= i < |ms| && 0 <= j < |ms| && i != j ==> !(ms[i].path <= ms[j].path))
  }

  /** `w` holds exactly these mappings. */
  ghost predicate Exactly(w: Written, ms: seq<Mapping>) {
    && (forall i :: 0 <= i < |ms| ==> ms[i].path in w && w[ms[i].path] == ms[i].value)
    && (forall p :: p in w ==> Mapping(p, w[p]) in ms)
  }

  /** Writes to paths none of which is a prefix of another all succeed, and all their values
      are kept. */
  lemma {:induction false} AllWritten(ms: seq<Mapping>)
    requires PrefixFree(ms)
    ensures WriteAll(map[], ms).Some? && Exactly(WriteAll(map[], ms).value, ms)
  {
    if ms != [] {
      var n := |ms| - 1;
      AllWritten(ms[..n]);
      assert ms == ms[..n] + [ms[n]];
      OneMore(ms[..n], WriteAll(map[], ms[..n]).value, ms[n]);
    }
  }

  lemma OneMore(ms: seq<Mapping>, w: Written, last: Mapping)
    requires Exactly(w, ms)
    requires forall i :: 0 <= i < |ms| ==> !(ms[i].path <= last.path) && !(last.path <= ms[i].path)
    ensures !Blocked(w, last.path) && Exactly(Write(w, last.path, last.value), ms + [last])
  {
    forall p | p in w
      ensures !(p <= last.path) && !(last.path <= p)
    {
      assert Mapping(p, w[p]) in ms;
    }
    var after := Write(w, last.path, last.value);
    forall p | p in after
      ensures Mapping(p, after[p]) in ms + [last]
    {
      if p != last.path {
        assert Mapping(p, w[p]) in ms;
      }
    }
  }

  /** The order of the writes does not matter. */
  lemma OrderIrrelevant(a: seq<Mapping>, b: seq<Mapping>)
    requires PrefixFree(a) && multiset(a) == multiset(b)
    ensures WriteAll(map[], a).Some? && WriteAll(map[], a) == WriteAll(map[], b)
  {
    PermutedPrefixFree(a, b);
    AllWritten(a);
    AllWritten(b);
    SameWritten(a, b, WriteAll(map[], a).value, WriteAll(map[], b).value);
  }

  lemma SameWritten(a: seq<Mapping>, b: seq<Mapping>, v: Written, w: Written)
    requires Exactly(v, a) && Exactly(w, b) && multiset(a) == multiset(b)
    ensures v == w
  {
    forall m: Mapping
      ensures m in a <==> m in b
    {
      assert m in a <==> m in multiset(a);
      assert m in b <==> m in multiset(b);
    }
    forall p | p in v
      ensures p in w && w[p] == v[p]
    {
      var m := Mapping(p, v[p]);
      assert m in b;
      var i :| 0 <= i < |b| && b[i] == m;
    }
    forall p | p in w
      ensures p in v
    {
      var m := Mapping(p, w[p]);
      assert m in a;
      var i :| 0 <= i < |a| && a[i] == m;
    }
  }

  /** No path occurs twice, so a permutation of the mappings is as free of prefixes. */
  lemma PermutedPrefixFree(a: seq<Mapping>, b: seq<Mapping>)
    requires PrefixFree(a) && multiset(a) == multiset(b)
    ensures PrefixFree(b)
  {
    forall i | 0 <= i < |b|
      ensures b[i] in a
    {
      assert b[i] in multiset(b);
    }
    forall i, j | 0 <= i < |b| && 0 <= j < |b| && i != j
      ensures !(b[i].path <= b[j].path)
    {
      var k :| 0 <= k < |a| && a[k] == b[i];
      var l :| 0 <= l < |a| && a[l] == b[j];
      if k == l {
        Twice(b, i, j);
        Once(a, k);
      }
    }
  }

  lemma Twice(b: seq<Mapping>, i: nat, j: nat)
    requires i < |b| && j < |b| && i != j && b[i] == b[j]
    ensures multiset(b)[b[i]] >= 2
  {
    var lo, hi := if i < j then i else j, if i < j then j else i;
    assert b == b[..lo] + [b[lo]] + b[lo + 1..hi] + [b[hi]] + b[hi + 1..];
  }

  lemma Once(a: seq<Mapping>, k: nat)
    requires k < |a| && forall i :: 0 <= i < |a| && i != k ==> a[i] != a[k]
    ensures multiset(a)[a[k]] == 1
  {
    assert a == a[..k] + [a[k]] + a[k + 1..];
    assert a[k] !in a[..k] && a[k] !in a[k + 1..];
  }

  // ---------------------------------------------------------------- when the order matters

  /** However the mappings are ordered, all are written, and the result is the same. */
  ghost predicate AnyOrder(ms: seq<Mapping>) {
    forall b: seq<Mapping> :: multiset(b) == multiset(ms) ==>
      WriteAll(map[], b).Some? && WriteAll(map[], b) == WriteAll(map[], ms)
  }

  /** Of mappings to different paths, the order of the writes does not matter exactly when no path
      is empty or a prefix of another. */
  lemma OrderMattersExactly(ms: seq<Mapping>)
    requires forall i, j :: 0 <= i < j < |ms| ==> ms[i].path != ms[j].path
    ensures AnyOrder(ms) <==> PrefixFree(ms)
  {
    if PrefixFree(ms) {
      forall b: seq<Mapping> | multiset(b) == multiset(ms)
        ensures WriteAll(map[], b).Some? && WriteAll(map[], b) == WriteAll(map[], ms)
      {
        OrderIrrelevant(ms, b);
      }
    } else {
      var b := FailingOrder(ms);
    }
  }

  /** An order in which a write fails: a path, then one that leads through it. */
  lemma FailingOrder(ms: seq<Mapping>) returns (b: seq<Mapping>)
    requires forall i, j :: 0 <= i < j < |ms| ==> ms[i].path != ms[j].path
    requires !PrefixFree(ms)
    ensures multiset(b) == multiset(ms) && WriteAll(map[], b).None?
  {
    if i :| 0 <= i < |ms| && ms[i].path == [] {
      b := ms;
      EmptyPathFails(map[], ms, i);
    } else {
      var i, j :| 0 <= i < |ms| && 0 <= j < |ms| && i != j && ms[i].path <= ms[j].path;
      var rest := Without(ms, i, j);
      b := [ms[i], ms[j]] + rest;
      BothWritten(ms[i], ms[j]);
      StaysFailed(map[], [ms[i], ms[j]], rest);
    }
  }

  /** The mappings except those at two places. */
  lemma Without(ms: seq<Mapping>, i: nat, j: nat) returns (rest: seq<Mapping>)
    requires i < |ms| && j < |ms| && i != j
    ensures multiset([ms[i], ms[j]] + rest) == multiset(ms)
  {
    var lo, hi := if i < j then i else j, if i < j then j else i;
    rest := ms[..lo] + ms[lo + 1..hi] + ms[hi + 1..];
    assert ms == ms[..lo] + [ms[lo]] + ms[lo + 1..hi] + [ms[hi]] + ms[hi + 1..];
  }

  lemma {:induction false} EmptyPathFails(w: Written, ms: seq<Mapping>, i: nat)
    requires i < |ms| && ms[i].path == []
    ensures WriteAll(w, ms).None?
  {
    if i < |ms| - 1 {
      EmptyPathFails(w, ms[..|ms| - 1], i);
    }
  }

  lemma {:induction false} StaysFailed(w: Written, ms: seq<Mapping>, more: seq<Mapping>)
    requires WriteAll(w, ms).None?
    ensures WriteAll(w, ms + more).None?
    decreases |more|
  {
    if more == [] {
      assert ms + more == ms;
    } else {
      var n := |more| - 1;
      StaysFailed(w, ms, more[..n]);
      assert (ms + more)[..|ms| + n] == ms + more[..n];
    }
  }

  /** A key and a path through it: written in one order, refused in the other. */
  lemma OrderMatters()
    ensures var key, through := Mapping(["a"], 1), Mapping(["a", "b"], 2);
      && WriteAll(map[], [key, through]) == None
      && WriteAll(map[], [through, key]) == Some(map[["a"] := 1])
  {
    var key, through := Mapping(["a"], 1), Mapping(["a", "b"], 2);
    assert key.path < through.path;
    BothWritten(key, through);
    assert [through, key][..1] == [through] && [through][..0] == [];
    var w := Write(map[], through.path, 2);
    assert WriteAll(map[], [through]) == Some(w);
    assert w.Keys == {through.path};
    assert Write(w, key.path, 1) == map[["a"] := 1];
  }

  lemma BothWritten(p: Mapping, q: Mapping)
    requires p.path != [] && q.path != [] && p.path != q.path
    ensures WriteAll(map[], [p, q]).None? <==> p.path < q.path
  {
    assert [p, q][..1] == [p] && [p][..0] == [];
    var w := Write(map[], p.path, p.value);
    assert WriteAll(map[], [p]) == Some(w);
    assert w.Keys == {p.path};
  }
}
