/**
 Writing values into nested maps by path. Maps live in a store and refer to each other by
 address, as the original's do; `Tree` is the nested value they stand for.
 */
module FieldMapping {

  import opened Wrappers

  /** A value taken from a predecessor; it is stored as it is. */
  type Value = int

  const SEPARATOR: char := '\U{1F}'

  type Path = seq<string>

  // ---------------------------------------------------------------- paths

  function Component(s: string): (r: nat)
    ensures r <= |s| && (r < |s| ==> s[r] == SEPARATOR)
    ensures forall i :: 0 <= i < r ==> s[i] != SEPARATOR
  {
    if s == [] || s[0] == SEPARATOR then 0 else 1 + Component(s[1..])
  }

  /** The components between separators: always at least one. */
  function Split(s: string): (r: Path)
    ensures r != []
    decreases |s|
  {
    var n := Component(s);
    if n == |s| then [s] else [s[..n]] + Split(s[n + 1..])
  }

  function SplitFieldPath(s: string): Path {
    if Split(s) == [""] then [] else Split(s)
  }

  function Join(p: Path): string {
    if p == [] then []
    else if |p| == 1 then p[0]
    else p[0] + [SEPARATOR] + Join(p[1..])
  }

  lemma {:induction false} JoinOfSplit(s: string)
    ensures Join(Split(s)) == s
    decreases |s|
  {
    var n := Component(s);
    if n < |s| {
      JoinOfSplit(s[n + 1..]);
      JoinFirst(s[..n], Split(s[n + 1..]));
      assert s == s[..n] + [SEPARATOR] + s[n + 1..];
    }
  }

  lemma JoinFirst(component: string, rest: Path)
    requires rest != []
    ensures Join([component] + rest) == component + [SEPARATOR] + Join(rest)
  {
    assert ([component] + rest)[1..] == rest;
  }

  /** Only the empty text is no path at all. */
  lemma PathOfText(s: string)
    ensures SplitFieldPath(s) == [] <==> s == ""
    ensures s != "" ==> SplitFieldPath(s) == Split(s)
  {
    JoinOfSplit(s);
  }

  /** A path has no separator left in it. */
  lemma {:induction false} SplitComponents(s: string)
    ensures forall i :: 0 <= i < |Split(s)| ==> SEPARATOR !in Split(s)[i]
    decreases |s|
  {
    var n := Component(s);
    if n < |s| {
      SplitComponents(s[n + 1..]);
    }
  }

  /** So a path is what separators make of a text, and every path of such components is read off
      the text that joins them. */
  lemma {:induction false} SplitOfJoin(p: Path)
    requires p != [] && forall i :: 0 <= i < |p| ==> SEPARATOR !in p[i]
    ensures Split(Join(p)) == p
    decreases |p|
  {
    var s := Join(p);
    if |p| == 1 {
      ComponentEnds(p[0], "");
      assert p[0] + "" == p[0] && s == p[0];
    } else {
      var rest := [SEPARATOR] + Join(p[1..]);
      assert s == p[0] + rest;
      ComponentEnds(p[0], rest);
      assert s[..|p[0]|] == p[0] && s[|p[0]| + 1..] == Join(p[1..]);
      SplitOfJoin(p[1..]);
    }
  }

  lemma {:induction false} ComponentEnds(first: string, rest: string)
    requires SEPARATOR !in first && (rest == [] || rest[0] == SEPARATOR)
    ensures Component(first + rest) == |first|
  {
    if first == [] {
      assert first + rest == rest;
    } else {
      assert (first + rest)[1..] == first[1..] + rest;
      ComponentEnds(first[1..], rest);
    }
  }

  // ---------------------------------------------------------------- what has been written

  /** The values written so far, by path. */
  type Written = map<Path, Value>

  /** Writing replaces everything at or below the path. */
  function Write(w: Written, path: Path, taken: Value): Written {
    (map r | r in w && !(path <= r) :: w[r])[path := taken]
  }

  /** A value on the way to the path is in the way: it is no map to go on into. */
  predicate Blocked(w: Written, path: Path) {
    exists r :: r in w && r < path
  }

  /** Path `q` leads into a map: one that holds a value further on, or one opened by the write
      that has come as far as `trail`. */
  predicate Opened(w: Written, trail: Path, q: Path) {
    q <= trail || exists r :: r in w && q < r
  }

  // ---------------------------------------------------------------- the store of maps

  /** What a map holds at a key: a plain value, a nil, or another map, by its address. */
  datatype Cell = Plain(value: Value) | Nil | Ref(address: nat)

  type GoMap = map<string, Cell>

  type Store = seq<GoMap>

  /** The path at which each map in use can be found. */
  type Homes = map<nat, Path>

  /** The cell of map `a` at `key` holds what was written at its path. */
  ghost predicate CellOk(store: Store, home: Homes, w: Written, trail: Path, a: nat, key: string)
    requires a in home && a < |store|
  {
    var q := home[a] + [key];
    if q in w then key in store[a] && store[a][key] == Plain(w[q])
    else if Opened(w, trail, q) then
      && key in store[a] && store[a][key].Ref?
      && var b := store[a][key].address;
         a < b && b in home && home[b] == q
    else key !in store[a]
  }

  ghost predicate RefersTo(store: Store, home: Homes, a: nat, p: Path, b: nat)
    requires a in home && p != []
  {
    var key := p[|p| - 1];
    a < |store| && home[a] == p[..|p| - 1] && key in store[a] && store[a][key] == Ref(b)
  }

  /** A map other than the root is referred to from the map one step before it. */
  ghost predicate Referenced(store: Store, home: Homes, b: nat)
    requires b in home
  {
    var p := home[b];
    p != [] ==> exists a :: a in home && RefersTo(store, home, a, p, b)
  }

  ghost predicate Homed(store: Store, home: Homes) {
    && 0 in home && home[0] == []
    && (forall a :: a in home ==> a < |store|)
    && (forall a, b :: a in home && b in home && home[a] == home[b] ==> a == b)
    && (forall b {:trigger Referenced(store, home, b)} :: b in home ==> Referenced(store, home, b))
  }

  ghost predicate Apart(w: Written, trail: Path) {
    && (forall r :: r in w ==> r != [] && !(r <= trail))
    && (forall q, r :: q in w && r in w ==> !(q < r))
  }

  /** The store holds exactly what was written, and the maps opened along `trail`. */
  ghost predicate Holds(store: Store, home: Homes, w: Written, trail: Path) {
    && Homed(store, home) && Apart(w, trail)
    && forall a, key :: a in home ==> CellOk(store, home, w, trail, a, key)
  }

  // ---------------------------------------------------------------- the three steps of a write

  /** Going on into a map that is there. */
  lemma GoOn(store: Store, home: Homes, w: Written, trail: Path, a: nat, key: string)
    requires Holds(store, home, w, trail) && a in home && home[a] == trail
    requires key in store[a] && store[a][key].Ref?
    ensures var b := store[a][key].address;
      a < b && b in home && home[b] == trail + [key] && Holds(store, home, w, trail + [key])
  {
    var q := trail + [key];
    assert CellOk(store, home, w, trail, a, key);
    forall r | r in w
      ensures !(r <= q)
    {
      if r <= q {
        Shorter(r, trail, key);
      }
    }
    forall c, key' | c in home
      ensures CellOk(store, home, w, q, c, key')
    {
      assert CellOk(store, home, w, trail, c, key');
      var p := home[c] + [key'];
      if p <= q && !(p <= trail) {
        Shorter(p, trail, key);
        SameCell(home, c, key', a, key);
      }
    }
  }

  /** A prefix of `trail + [key]` is that path or a prefix of `trail`. */
  lemma Shorter(r: Path, trail: Path, key: string)
    requires r <= trail + [key]
    ensures r <= trail || r == trail + [key]
  {
    if |r| <= |trail| {
      assert (trail + [key])[..|r|] == trail[..|r|];
    }
  }

  lemma SameCell(home: Homes, c: nat, key': string, a: nat, key: string)
    requires c in home && a in home && home[c] + [key'] == home[a] + [key]
    ensures home[c] == home[a] && key' == key
  {
    var p, q := home[c] + [key'], home[a] + [key];
    assert p[..|home[c]|] == home[c] && q[..|home[a]|] == home[a];
    assert p[|home[c]|] == key' && q[|home[a]|] == key;
  }

  function Linked(store: Store, a: nat, key: string): Store
    requires a < |store|
  {
    store[a := store[a][key := Ref(|store|)]] + [map[]]
  }

  /** Making the map that is missing. */
  lemma MakeMap(store: Store, home: Homes, w: Written, trail: Path, a: nat, key: string)
    requires Holds(store, home, w, trail) && a in home && home[a] == trail
    requires key !in store[a]
    ensures Holds(Linked(store, a, key), home[|store| := trail + [key]], w, trail + [key])
  {
    var f, q := |store|, trail + [key];
    StaysApart(store, home, w, trail, a, key);
    var home' := home[f := q];
    forall c, key' | c in home'
      ensures CellOk(Linked(store, a, key), home', w, q, c, key')
    {
      MadeCell(store, home, w, trail, a, key, c, key');
    }
    MadeHomes(store, home, trail, a, key);
  }

  lemma StaysApart(store: Store, home: Homes, w: Written, trail: Path, a: nat, key: string)
    requires Holds(store, home, w, trail) && a in home && home[a] == trail && key !in store[a]
    ensures Apart(w, trail + [key])
  {
    assert CellOk(store, home, w, trail, a, key);
    forall r | r in w
      ensures !(r <= trail + [key])
    {
      if r <= trail + [key] {
        Shorter(r, trail, key);
      }
    }
  }

  lemma MadeCell(store: Store, home: Homes, w: Written, trail: Path, a: nat, key: string, c: nat, key': string)
    requires Holds(store, home, w, trail) && a in home && home[a] == trail
    requires key !in store[a] && (c in home || c == |store|)
    ensures CellOk(Linked(store, a, key), home[|store| := trail + [key]], w, trail + [key], c, key')
  {
    var f, q := |store|, trail + [key];
    assert CellOk(store, home, w, trail, a, key);
    if c == f {
      NothingBelow(w, trail, q, key');
    } else {
      assert CellOk(store, home, w, trail, c, key');
      var p := home[c] + [key'];
      if p <= q && !(p <= trail) {
        Shorter(p, trail, key);
      }
      if p == q {
        SameCell(home, c, key', a, key);
      }
    }
  }

  lemma MadeHomes(store: Store, home: Homes, trail: Path, a: nat, key: string)
    requires Homed(store, home) && a in home && home[a] == trail && key !in store[a]
    ensures Homed(Linked(store, a, key), home[|store| := trail + [key]])
  {
    var home' := home[|store| := trail + [key]];
    MadeDistinct(store, home, trail, a, key);
    forall b | b in home'
      ensures Referenced(Linked(store, a, key), home', b)
    {
      MadeHome(store, home, trail, a, key, b);
    }
  }

  lemma MadeDistinct(store: Store, home: Homes, trail: Path, a: nat, key: string)
    requires Homed(store, home) && a in home && home[a] == trail && key !in store[a]
    ensures var home' := home[|store| := trail + [key]];
      && (forall c :: c in home' ==> c < |Linked(store, a, key)|)
      && (forall c, d :: c in home' && d in home' && home'[c] == home'[d] ==> c == d)
  {
    NewHome(store, home, a, key);
  }

  lemma MadeHome(store: Store, home: Homes, trail: Path, a: nat, key: string, b: nat)
    requires Homed(store, home) && a in home && home[a] == trail && key !in store[a]
    requires b in home || b == |store|
    ensures Referenced(Linked(store, a, key), home[|store| := trail + [key]], b)
  {
    var f, q := |store|, trail + [key];
    if b == f {
      assert q[..|q| - 1] == trail;
      assert RefersTo(Linked(store, a, key), home[f := q], a, q, f);
    } else {
      assert Referenced(store, home, b);
      StillReferenced(store, home, Linked(store, a, key), home[f := q], b);
    }
  }

  lemma StillReferenced(store: Store, home: Homes, store': Store, home': Homes, b: nat)
    requires b in home && Referenced(store, home, b)
    requires forall c :: c in home ==> c in home' && home'[c] == home[c]
    requires |store| <= |store'|
    requires forall c, key :: 0 <= c < |store| && key in store[c] && store[c][key] == Ref(b) ==>
      key in store'[c] && store'[c][key] == Ref(b)
    ensures b in home' && Referenced(store', home', b)
  {
    var p := home[b];
    if p != [] {
      var a :| a in home && RefersTo(store, home, a, p, b);
      assert RefersTo(store', home', a, p, b);
    }
  }

  /** A map at home one step after another map is referred to from there. */
  lemma HomeCell(store: Store, home: Homes, a: nat, key: string, b: nat)
    requires Homed(store, home) && a in home && b in home && home[b] == home[a] + [key]
    ensures key in store[a] && store[a][key] == Ref(b)
  {
    assert Referenced(store, home, b);
    var p := home[b];
    assert p[..|p| - 1] == home[a];
    var c :| c in home && RefersTo(store, home, c, p, b);
  }

  /** No map is at home where a key is missing. */
  lemma NewHome(store: Store, home: Homes, a: nat, key: string)
    requires Homed(store, home) && a in home && key !in store[a]
    ensures forall b :: b in home ==> home[b] != home[a] + [key]
  {
    forall b | b in home
      ensures home[b] != home[a] + [key]
    {
      if home[b] == home[a] + [key] {
        HomeCell(store, home, a, key, b);
      }
    }
  }

  /** Nothing was written below a path that leads nowhere. */
  lemma NothingBelow(w: Written, trail: Path, q: Path, key: string)
    requires q !in w && !Opened(w, trail, q)
    ensures var p := q + [key]; p !in w && !Opened(w, q, p)
  {
    var p := q + [key];
    assert q < p;
    forall r | r in w
      ensures !(p < r)
    {
      Further(q, p, r);
    }
  }

  lemma Further(q: Path, p: Path, r: Path)
    requires q < p
    ensures p < r ==> q < r
  {
    if p < r {
      assert r[..|p|] == p && p[..|q|] == q && r[..|q|] == r[..|p|][..|q|];
    }
  }

  // ---------------------------------------------------------------- the last step

  /** The maps still in use after a write at `path`. */
  function Kept(home: Homes, path: Path): Homes {
    map b | b in home && !(path <= home[b]) :: home[b]
  }

  function Put(store: Store, a: nat, key: string, taken: Value): Store
    requires a < |store|
  {
    store[a := store[a][key := Plain(taken)]]
  }

  /** Setting the value itself. */
  lemma SetValue(store: Store, home: Homes, w: Written, trail: Path, a: nat, key: string, taken: Value)
    requires Holds(store, home, w, trail) && a in home && home[a] == trail
    ensures Holds(Put(store, a, key, taken), Kept(home, trail + [key]), Write(w, trail + [key], taken), [])
    ensures !Blocked(w, trail + [key])
  {
    var path := trail + [key];
    NotBlocked(w, trail, key);
    PutApart(w, trail, key, taken);
    PutHomes(store, home, trail, a, key, taken);
    forall c, key' | c in Kept(home, path)
      ensures CellOk(Put(store, a, key, taken), Kept(home, path), Write(w, path, taken), [], c, key')
    {
      PutCell(store, home, w, trail, a, key, taken, c, key');
    }
  }

  lemma NotBlocked(w: Written, trail: Path, key: string)
    requires Apart(w, trail)
    ensures !Blocked(w, trail + [key])
  {
    forall r | r in w
      ensures !(r < trail + [key])
    {
      if r < trail + [key] {
        Shorter(r, trail, key);
      }
    }
  }

  lemma PutApart(w: Written, trail: Path, key: string, taken: Value)
    requires Apart(w, trail)
    ensures Apart(Write(w, trail + [key], taken), [])
  {
    var path := trail + [key];
    NotBlocked(w, trail, key);
    assert forall r :: r in w ==> !(r < path);
  }

  lemma PutHomes(store: Store, home: Homes, trail: Path, a: nat, key: string, taken: Value)
    requires Homed(store, home) && a in home && home[a] == trail
    ensures Homed(Put(store, a, key, taken), Kept(home, trail + [key]))
  {
    var home' := Kept(home, trail + [key]);
    forall b | b in home'
      ensures Referenced(Put(store, a, key, taken), home', b)
    {
      PutHome(store, home, trail, a, key, taken, b);
    }
  }

  lemma PutHome(store: Store, home: Homes, trail: Path, a: nat, key: string, taken: Value, b: nat)
    requires a in home && home[a] == trail && a < |store|
    requires b in home && !(trail + [key] <= home[b]) && Referenced(store, home, b)
    ensures b in Kept(home, trail + [key]) && Referenced(Put(store, a, key, taken), Kept(home, trail + [key]), b)
  {
    var path, p := trail + [key], home[b];
    if p != [] {
      var c :| c in home && RefersTo(store, home, c, p, b);
      PutReference(store, home, trail, a, key, taken, c, p, b);
    }
  }

  lemma PutReference(store: Store, home: Homes, trail: Path, a: nat, key: string, taken: Value, c: nat, p: Path, b: nat)
    requires a in home && home[a] == trail && a < |store|
    requires c in home && p != [] && !(trail + [key] <= p) && RefersTo(store, home, c, p, b)
    ensures c in Kept(home, trail + [key])
    ensures RefersTo(Put(store, a, key, taken), Kept(home, trail + [key]), c, p, b)
  {
    var last := p[|p| - 1];
    assert p == home[c] + [last];
    NotAbove(trail + [key], home[c], last);
    OtherCell(store, home, trail, a, key, taken, c, last);
  }

  lemma OtherCell(store: Store, home: Homes, trail: Path, a: nat, key: string, taken: Value, c: nat, key': string)
    requires a in home && home[a] == trail && c in home && a < |store| && c < |store|
    requires home[c] + [key'] != trail + [key]
    ensures var store' := Put(store, a, key, taken);
      (key' in store[c] <==> key' in store'[c]) && (key' in store[c] ==> store'[c][key'] == store[c][key'])
  {
  }

  lemma NotAbove(path: Path, p: Path, key: string)
    ensures path <= p ==> path <= p + [key]
  {
    if path <= p {
      assert (p + [key])[..|path|] == p[..|path|];
    }
  }

  lemma PutCell(store: Store, home: Homes, w: Written, trail: Path, a: nat, key: string, taken: Value,
                c: nat, key': string)
    requires Holds(store, home, w, trail) && a in home && home[a] == trail
    requires c in Kept(home, trail + [key])
    ensures CellOk(Put(store, a, key, taken), Kept(home, trail + [key]), Write(w, trail + [key], taken), [], c, key')
  {
    var path, q := trail + [key], home[c] + [key'];
    assert CellOk(store, home, w, trail, c, key');
    if q == path {
      SameCell(home, c, key', a, key);
    } else {
      NotBelow(path, home[c], key');
      OpenedAfter(w, trail, key, taken, q);
    }
  }

  /** A path that is not at or below `path`, nor one step above a step to it, stays apart. */
  lemma NotBelow(path: Path, p: Path, key: string)
    requires !(path <= p) && p + [key] != path
    ensures !(path <= p + [key])
  {
    if path <= p + [key] {
      Shorter(path, p, key);
    }
  }

  /** Which paths lead into maps after the write, away from what it replaced. */
  lemma OpenedAfter(w: Written, trail: Path, key: string, taken: Value, q: Path)
    requires !(trail + [key] <= q) && q != []
    ensures Opened(Write(w, trail + [key], taken), [], q) <==> Opened(w, trail, q)
  {
    var path := trail + [key];
    if q <= trail {
      assert q < path && path in Write(w, path, taken);
    }
    if q < path {
      Shorter(q, trail, key);
    }
    if r :| r in w && q < r {
      if path <= r {
        Comparable(q, path, r);
        assert q < path && path in Write(w, path, taken);
      } else {
        assert r in Write(w, path, taken);
      }
    }
  }

  lemma Comparable(q: Path, p: Path, r: Path)
    requires q <= r && p <= r
    ensures q <= p || p <= q
  {
    if |q| <= |p| {
      assert r[..|p|][..|q|] == r[..|q|];
    } else {
      assert r[..|q|][..|p|] == r[..|p|];
    }
  }

  // ---------------------------------------------------------------- the writing loop

  /** Where the loop stands: at a map, at a fresh value that may still become a map, or at a
      value that cannot be set. */
  datatype Destination = At(address: nat) | Fresh | Stuck

  /** The map and key the destination was found under. */
  datatype Parent = Parent(map_: nat, key: string)

  /** `base` is the store without the nil that stands for a fresh destination. */
  ghost predicate Standing(base: Store, home: Homes, w: Written, trail: Path, dest: Destination,
                           parent: Option<Parent>, store: Store)
  {
    match dest
    case At(a) =>
      && store == base && Holds(base, home, w, trail) && a in home && home[a] == trail
      && (parent.Some? ==>
            parent.value.map_ < a && parent.value.key in base[parent.value.map_] &&
            base[parent.value.map_][parent.value.key] == Ref(a))
    case Fresh =>
      && parent.Some?
      && var Parent(a, key) := parent.value;
         && a in home && Holds(base, home, w, home[a]) && trail == home[a] + [key]
         && key !in base[a] && store == base[a := base[a][key := Nil]]
    case Stuck => true
  }

  /** The store in which the destination is a map. */
  ghost function Made(base: Store, dest: Destination, parent: Option<Parent>): Store
    requires dest.Fresh? ==> parent.Some? && parent.value.map_ < |base|
  {
    if dest.Fresh? then Linked(base, parent.value.map_, parent.value.key) else base
  }

  ghost function MadeHomesOf(base: Store, home: Homes, trail: Path, dest: Destination): Homes {
    if dest.Fresh? then home[|base| := trail] else home
  }

  lemma MadeStanding(base: Store, home: Homes, w: Written, trail: Path, dest: Destination, parent: Option<Parent>,
                     store: Store, a: nat)
    requires Standing(base, home, w, trail, dest, parent, store) && !dest.Stuck?
    requires a == if dest.Fresh? then |store| else dest.address
    ensures dest.Fresh? ==> parent.value.map_ < |base|
    ensures var made, home' := Made(base, dest, parent), MadeHomesOf(base, home, trail, dest);
      Holds(made, home', w, trail) && a in home' && home'[a] == trail && a < |made|
  {
    if dest.Fresh? {
      MakeMap(base, home, w, home[parent.value.map_], parent.value.map_, parent.value.key);
    }
  }

  function Set(store: Store, a: nat, key: string, cell: Cell): Store
    requires a < |store|
  {
    store[a := store[a][key := cell]]
  }

  lemma SetFresh(base: Store, p: nat, k: string, key: string, cell: Cell)
    requires p < |base| && k !in base[p]
    ensures var f, grown := |base|, Set(base, p, k, Nil) + [map[]];
      Set(Set(grown, f, key, cell), p, k, Ref(f)) == Set(Linked(base, p, k), f, key, cell)
  {
    var f, grown := |base|, Set(base, p, k, Nil) + [map[]];
    var x, y := Set(Set(grown, f, key, cell), p, k, Ref(f)), Set(Linked(base, p, k), f, key, cell);
    assert x[p] == base[p][k := Nil][k := Ref(f)] == y[p];
    assert x[f] == map[key := cell] == y[f];
  }

  lemma SetAgain(base: Store, p: nat, k: string, a: nat, key: string, cell: Cell)
    requires p < a < |base| && k in base[p] && base[p][k] == Ref(a)
    ensures var x := Set(base, a, key, cell); Set(x, p, k, Ref(a)) == x
  {
    var x := Set(base, a, key, cell);
    assert x[p] == base[p] && base[p][k := Ref(a)] == base[p];
  }

  function WriteBack(store: Store, parent: Option<Parent>, a: nat): Store
    requires parent.Some? ==> parent.value.map_ < |store|
  {
    if parent.None? then store else Set(store, parent.value.map_, parent.value.key, Ref(a))
  }

  /** Setting a cell of the destination and writing the destination back to its parent, in
      that order, amounts to setting the cell in the made store. */
  lemma WrittenBack(base: Store, home: Homes, w: Written, trail: Path, dest: Destination, parent: Option<Parent>,
                    store: Store, grown: Store, a: nat, key: string, cell: Cell)
    requires Standing(base, home, w, trail, dest, parent, store) && !dest.Stuck?
    requires a == if dest.Fresh? then |store| else dest.address
    requires grown == if dest.Fresh? then store + [map[]] else store
    ensures dest.Fresh? ==> parent.value.map_ < |base|
    ensures a < |grown| && a < |Made(base, dest, parent)| && (parent.Some? ==> parent.value.map_ < |grown|)
    ensures WriteBack(Set(grown, a, key, cell), parent, a) == Set(Made(base, dest, parent), a, key, cell)
  {
    MadeStanding(base, home, w, trail, dest, parent, store, a);
    if dest.Fresh? {
      SetFresh(base, parent.value.map_, parent.value.key, key, cell);
    } else if parent.Some? {
      SetAgain(base, parent.value.map_, parent.value.key, a, key, cell);
    }
  }

  /** Writing an existing destination back to its parent changes nothing. */
  lemma WrittenBackSame(base: Store, p: nat, k: string, a: nat)
    requires p < |base| && k in base[p] && base[p][k] == Ref(a)
    ensures Set(base, p, k, Ref(a)) == base
  {
    assert base[p][k := Ref(a)] == base[p];
  }

  lemma Descend(store: Store, home: Homes, w: Written, trail: Path, a: nat, key: string, path: Path)
    requires Holds(store, home, w, trail) && a in home && home[a] == trail && key in store[a]
    requires trail + [key] < path
    ensures store[a][key].Ref? ==>
      var b := store[a][key].address;
      a < b && b in home && home[b] == trail + [key] && Holds(store, home, w, trail + [key])
    ensures !store[a][key].Ref? ==> Blocked(w, path)
  {
    assert CellOk(store, home, w, trail, a, key);
    if store[a][key].Ref? {
      GoOn(store, home, w, trail, a, key);
    } else {
      assert trail + [key] in w;
    }
  }

  /** The state of the writing loop. */
  datatype Walk = Walk(store: Store, dest: Destination, parent: Option<Parent>)

  /** What the proof keeps beside it: the store without a fresh destination's nil, the homes of
      its maps, and the path walked so far. */
  datatype Shadow = Shadow(base: Store, home: Homes, trail: Path)

  ghost predicate Following(sh: Shadow, w: Written, walk: Walk) {
    Standing(sh.base, sh.home, w, sh.trail, walk.dest, walk.parent, walk.store)
  }

  /** The address of the destination, once it is a map, and the store that has that map. */
  function Place(walk: Walk): nat
    requires !walk.dest.Stuck?
  {
    if walk.dest.Fresh? then |walk.store| else walk.dest.address
  }

  function Grown(walk: Walk): Store {
    if walk.dest.Fresh? then walk.store + [map[]] else walk.store
  }

  ghost predicate CanStep(walk: Walk) {
    && !walk.dest.Stuck?
    && Place(walk) < |Grown(walk)|
    && (walk.parent.Some? ==> walk.parent.value.map_ < |Grown(walk)|)
  }

  /** One round of the loop that is not the last. */
  ghost function Stepped(walk: Walk, key: string): Walk
    requires CanStep(walk)
  {
    var a, grown := Place(walk), Grown(walk);
    var parent := Some(Parent(a, key));
    if key !in grown[a] then Walk(WriteBack(Set(grown, a, key, Nil), walk.parent, a), Fresh, parent)
    else if grown[a][key].Ref? then Walk(WriteBack(grown, walk.parent, a), At(grown[a][key].address), parent)
    else Walk(WriteBack(grown, walk.parent, a), Stuck, parent)
  }

  /** The last round. */
  ghost function Finished(walk: Walk, key: string, taken: Value): Store
    requires CanStep(walk)
  {
    WriteBack(Set(Grown(walk), Place(walk), key, Plain(taken)), walk.parent, Place(walk))
  }

  lemma Steps(sh: Shadow, w: Written, walk: Walk)
    requires Following(sh, w, walk) && !walk.dest.Stuck?
    ensures CanStep(walk)
  {
    MadeStanding(sh.base, sh.home, w, sh.trail, walk.dest, walk.parent, walk.store, Place(walk));
    WrittenBack(sh.base, sh.home, w, sh.trail, walk.dest, walk.parent, walk.store, Grown(walk), Place(walk), "", Nil);
  }

  lemma Advance(sh: Shadow, w: Written, walk: Walk, key: string, path: Path) returns (next: Shadow)
    requires Following(sh, w, walk) && CanStep(walk) && sh.trail + [key] < path
    ensures Following(next, w, Stepped(walk, key)) && next.trail == sh.trail + [key]
    ensures Stepped(walk, key).dest == Stuck ==> Blocked(w, path)
    ensures Stepped(walk, key).dest != Fresh ==> walk.dest.At? && Stepped(walk, key).store == walk.store
  {
    var a, grown := Place(walk), Grown(walk);
    MadeStanding(sh.base, sh.home, w, sh.trail, walk.dest, walk.parent, walk.store, a);
    var made, homes := Made(sh.base, walk.dest, walk.parent), MadeHomesOf(sh.base, sh.home, sh.trail, walk.dest);
    if key !in grown[a] {
      WrittenBack(sh.base, sh.home, w, sh.trail, walk.dest, walk.parent, walk.store, grown, a, key, Nil);
    } else {
      Descend(made, homes, w, sh.trail, a, key, path);
      if walk.parent.Some? {
        WrittenBackSame(sh.base, walk.parent.value.map_, walk.parent.value.key, a);
      }
    }
    next := Shadow(made, homes, sh.trail + [key]);
  }

  lemma Conclude(sh: Shadow, w: Written, walk: Walk, key: string, path: Path, taken: Value) returns (home: Homes)
    requires Following(sh, w, walk) && CanStep(walk) && path == sh.trail + [key]
    ensures !Blocked(w, path)
    ensures Holds(Finished(walk, key, taken), home, Write(w, path, taken), [])
  {
    var a, grown := Place(walk), Grown(walk);
    MadeStanding(sh.base, sh.home, w, sh.trail, walk.dest, walk.parent, walk.store, a);
    WrittenBack(sh.base, sh.home, w, sh.trail, walk.dest, walk.parent, walk.store, grown, a, key, Plain(taken));
    var homes := MadeHomesOf(sh.base, sh.home, sh.trail, walk.dest);
    SetValue(Made(sh.base, walk.dest, walk.parent), homes, w, sh.trail, a, key, taken);
    home := Kept(homes, path);
  }

  /** Makes the destination a map, if it is not one yet, sets the value there and writes the
      destination back to its parent. */
  method Finish(walk: Walk, key: string, taken: Value) returns (store: Store)
    requires CanStep(walk)
    ensures store == Finished(walk, key, taken)
  {
    store := walk.store;
    var destAddress := if walk.dest == Fresh then |store| else walk.dest.address;
    if walk.dest == Fresh {
      store := store + [map[]];
    }
    store := Set(store, destAddress, key, Plain(taken));
    store := WriteBack(store, walk.parent, destAddress);
  }

  /** Makes the destination a map, if it is not one yet, and goes one key further down. */
  method Round(walk: Walk, key: string) returns (next: Walk)
    requires CanStep(walk)
    ensures next == Stepped(walk, key)
  {
    var store: Store, dest := walk.store, walk.dest;
    var destAddress := if dest == Fresh then |store| else dest.address;
    if dest == Fresh {
      store := store + [map[]];
    }
    if key !in store[destAddress] {
      store := Set(store, destAddress, key, Nil);
      dest := Fresh;
    } else if store[destAddress][key].Ref? {
      dest := At(store[destAddress][key].address);
    } else {
      dest := Stuck;
    }
    store := WriteBack(store, walk.parent, destAddress);
    next := Walk(store, dest, Some(Parent(destAddress, key)));
  }

  lemma Begin(store: Store, home: Homes, w: Written)
    requires Holds(store, home, w, [])
    ensures Following(Shadow(store, home, []), w, Walk(store, At(0), None))
  {
  }

  /** What the loop keeps: the walk stands at the end of a part of the path; it has changed
      nothing unless it is making new maps; it is stuck only where a value is in the way. */
  ghost predicate Underway(sh: Shadow, w: Written, walk: Walk, store0: Store, path: Path, rest: Path) {
    && rest != [] && sh.trail + rest == path
    && Following(sh, w, walk)
    && (walk.dest == Stuck ==> Blocked(w, path))
    && (walk.dest != Fresh ==> walk.store == store0)
  }

  lemma OneFurther(trail: Path, rest: Path, path: Path)
    requires |rest| > 1 && trail + rest == path
    ensures trail + [rest[0]] + rest[1..] == path && trail + [rest[0]] < path
  {
    assert rest == [rest[0]] + rest[1..];
  }

  lemma Onward(sh: Shadow, w: Written, walk: Walk, store0: Store, path: Path, rest: Path) returns (next: Shadow)
    requires Underway(sh, w, walk, store0, path, rest) && |rest| > 1 && walk.dest != Stuck
    ensures CanStep(walk) && Underway(next, w, Stepped(walk, rest[0]), store0, path, rest[1..])
  {
    Steps(sh, w, walk);
    OneFurther(sh.trail, rest, path);
    next := Advance(sh, w, walk, rest[0], path);
  }

  /** The loop: down the path, making maps where none are, and writing each one back to the map
      it was found in. */
  method WalkDown(store0: Store, ghost home0: Homes, ghost w: Written, path: Path)
    returns (walk: Walk, ghost sh: Shadow)
    requires Holds(store0, home0, w, []) && path != []
    ensures walk.dest == Stuck || Underway(sh, w, walk, store0, path, [path[|path| - 1]])
    ensures walk.dest == Stuck ==> Blocked(w, path) && walk.store == store0
  {
    var toPaths := path;
    walk, sh := Walk(store0, At(0), None), Shadow(store0, home0, []);
    Begin(store0, home0, w);
    while |toPaths| > 1 && walk.dest != Stuck
      invariant Underway(sh, w, walk, store0, path, toPaths)
      invariant toPaths[|toPaths| - 1] == path[|path| - 1]
      decreases |toPaths|
    {
      var key := toPaths[0];
      sh := Onward(sh, w, walk, store0, path, toPaths);
      walk := Round(walk, key);
      toPaths := toPaths[1..];
    }
    assert walk.dest != Stuck ==> toPaths == [path[|path| - 1]];
  }

  method WriteValue(store0: Store, ghost home0: Homes, ghost w: Written, path: Path, taken: Value)
    returns (ok: bool, store: Store, ghost home: Homes)
    requires Holds(store0, home0, w, []) && path != []
    ensures ok <==> !Blocked(w, path)
    ensures ok ==> Holds(store, home, Write(w, path, taken), [])
    ensures !ok ==> store == store0
  {
    var walk;
    ghost var sh;
    walk, sh := WalkDown(store0, home0, w, path);
    if walk.dest == Stuck {
      return false, walk.store, home0;
    }
    var key := path[|path| - 1];
    home := Ending(sh, w, walk, store0, path, key, taken);
    store := Finish(walk, key, taken);
    ok := true;
  }

  lemma Ending(sh: Shadow, w: Written, walk: Walk, store0: Store, path: Path, key: string, taken: Value)
    returns (home: Homes)
    requires Underway(sh, w, walk, store0, path, [key]) && walk.dest != Stuck
    ensures CanStep(walk) && !Blocked(w, path)
    ensures Holds(Finished(walk, key, taken), home, Write(w, path, taken), [])
  {
    Steps(sh, w, walk);
    home := Conclude(sh, w, walk, key, path, taken);
  }

  /** The values of a map of plain values, by their paths of one key. */
  function OneStep(taken: map<string, Value>): Written {
    map key | key in taken :: [key] := taken[key]
  }

  function PlainMap(taken: map<string, Value>): GoMap {
    map key | key in taken :: Plain(taken[key])
  }

  function RootOnly(): Homes {
    map[0 := []]
  }

  lemma OneStepApart(taken: map<string, Value>)
    ensures Apart(OneStep(taken), [])
  {
    var w := OneStep(taken);
    forall r | r in w
      ensures |r| == 1
    {
    }
  }

  lemma OneStepCell(store: Store, home: Homes, w: Written, taken: map<string, Value>, key: string)
    requires store == [PlainMap(taken)] && home == RootOnly() && w == OneStep(taken)
    ensures CellOk(store, home, w, [], 0, key)
  {
    var q := home[0] + [key];
    assert q == [key];
    assert q in w <==> key in taken;
    assert forall r :: r in w ==> |r| == 1;
    assert !Opened(w, [], q);
  }

  lemma WholeHolds(store: Store, home: Homes, w: Written, taken: map<string, Value>)
    requires store == [PlainMap(taken)] && home == RootOnly() && w == OneStep(taken)
    ensures Holds(store, home, w, [])
  {
    OneStepApart(taken);
    forall a, key | a in home
      ensures CellOk(store, home, w, [], a, key)
    {
      OneStepCell(store, home, w, taken, key);
    }
  }

  class Target {
    var store: Store
    ghost var home: Homes
    ghost var written: Written

    ghost predicate Valid()
      reads this
    {
      Holds(store, home, written, [])
    }

    constructor ()
      ensures Valid() && written == map[]
    {
      store := [map[]];
      home := map[0 := []];
      written := map[];
    }

    /** Writes a map of plain values to the empty path: it becomes the whole destination. */
    method AssignWhole(taken: map<string, Value>)
      modifies this
      ensures Valid() && written == OneStep(taken)
    {
      var whole := PlainMap(taken);
      ghost var homes := RootOnly();
      WholeHolds([whole], homes, OneStep(taken), taken);
      store, home, written := [whole], homes, OneStep(taken);
    }

    /** Writes one plain value. It fails, changing nothing, exactly when a value is in the way or
        the path is empty, as a plain value cannot become the whole destination. */
    method AssignOne(taken: Value, to: string) returns (ok: bool)
      requires Valid()
      modifies this
      ensures ok <==> to != "" && !Blocked(old(written), SplitFieldPath(to))
      ensures ok ==> Valid() && written == Write(old(written), SplitFieldPath(to), taken)
      ensures !ok ==> store == old(store) && Valid()
    {
      if |to| == 0 {
        return false;
      }
      var toPaths := SplitFieldPath(to);
      var done, after;
      ghost var homes;
      done, after, homes := WriteValue(store, home, written, toPaths, taken);
      if done {
        store, home, written := after, homes, Write(written, toPaths, taken);
      }
      ok := done;
    }
  }
}
