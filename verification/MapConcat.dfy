/**
 Merging stream chunks that are maps: the values of one key are gathered over the chunks and
 merged by their type. Texts are joined, registered scalars keep the last value, values of
 other types may be set once, and maps are merged recursively.
 */
module MapConcat {

  import opened Wrappers

  /** A value of dynamic type: `Last` of a scalar type with a keep-the-last function, `Once` of a
      type without a function, where 0 stands for the type's zero value. */
  datatype Value =
    | Nil
    | Text(text: string)
    | Last(scalarType: nat, value: int)
    | Once(otherType: nat, content: nat)
    | Nested(mapType: nat, entries: map<string, Value>)

  type Chunk = map<string, Value>

  /** Which of several failures is met first depends on the order in which keys are visited. */
  datatype Failure = Failure

  datatype TypeTag = NilTag | TextTag | LastTag(scalarType: nat) | OnceTag(otherType: nat) | MapTag(mapType: nat)

  function TypeOf(v: Value): TypeTag {
    match v
    case Nil => NilTag
    case Text(_) => TextTag
    case Last(t, _) => LastTag(t)
    case Once(t, _) => OnceTag(t)
    case Nested(t, _) => MapTag(t)
  }

  // ---------------------------------------------------------------- how deep maps are nested

  ghost predicate Bounds(heights: set<nat>, n: nat) {
    forall h :: h in heights ==> h <= n
  }

  lemma {:induction false} BoundExists(heights: set<nat>) returns (n: nat)
    ensures Bounds(heights, n)
    decreases |heights|
  {
    n := 0;
    if heights != {} {
      var h :| h in heights;
      var m := BoundExists(heights - {h});
      n := if h < m then m else h;
      assert forall j :: j in heights ==> j == h || j in heights - {h};
    }
  }

  ghost function Bound(heights: set<nat>): (n: nat)
    ensures Bounds(heights, n)
  {
    assert exists n :: Bounds(heights, n) by {
      var n := BoundExists(heights);
    }
    var n :| Bounds(heights, n);
    n
  }

  ghost function Height(v: Value): nat {
    match v
    case Nested(_, entries) => 1 + Bound(set k | k in entries.Keys :: Height(entries[k]))
    case _ => 0
  }

  ghost function ChunkHeight(m: Chunk): nat {
    Bound(set k | k in m.Keys :: Height(m[k]))
  }

  function Max(a: nat, b: nat): nat {
    if a < b then b else a
  }

  ghost function Heights(vals: seq<Value>): nat {
    if vals == [] then 0 else Max(Heights(vals[..|vals| - 1]), Height(vals[|vals| - 1]))
  }

  ghost function ChunkHeights(ms: seq<Chunk>): nat {
    if ms == [] then 0 else Max(ChunkHeights(ms[..|ms| - 1]), ChunkHeight(ms[|ms| - 1]))
  }

  lemma EntryHeight(m: Chunk, k: string)
    requires k in m
    ensures Height(m[k]) <= ChunkHeight(m)
  {
    var heights := set k | k in m.Keys :: Height(m[k]);
    assert Height(m[k]) in heights;
    assert Bounds(heights, Bound(heights));
  }

  lemma NestedHeight(t: nat, entries: Chunk)
    ensures Height(Nested(t, entries)) == 1 + ChunkHeight(entries)
  {
  }

  // ---------------------------------------------------------------- the merge

  /** The values of a key, over the chunks that have it. */
  function Collect(ms: seq<Chunk>, key: string): seq<Value> {
    if ms == [] then []
    else
      var n := |ms| - 1;
      Collect(ms[..n], key) + if key in ms[n] then [ms[n][key]] else []
  }

  lemma {:induction false} CollectLower(ms: seq<Chunk>, key: string)
    ensures Heights(Collect(ms, key)) <= ChunkHeights(ms)
  {
    if ms != [] {
      var n := |ms| - 1;
      var before := Collect(ms[..n], key);
      CollectLower(ms[..n], key);
      if key in ms[n] {
        EntryHeight(ms[n], key);
        assert (before + [ms[n][key]])[..|before|] == before;
      } else {
        assert before + [] == before;
      }
    }
  }

  ghost function Keys(ms: seq<Chunk>): set<string> {
    if ms == [] then {} else Keys(ms[..|ms| - 1]) + ms[|ms| - 1].Keys
  }

  predicate SameType(vals: seq<Value>) {
    forall i :: 0 <= i < |vals| ==> TypeOf(vals[i]) == TypeOf(vals[0])
  }

  function Joined(vals: seq<Value>): string {
    if vals == [] then []
    else Joined(vals[..|vals| - 1]) + if vals[|vals| - 1].Text? then vals[|vals| - 1].text else ""
  }

  /** The one content that is not the zero value, if there is at most one. */
  function SetOnce(vals: seq<Value>): Option<nat> {
    if vals == [] then Some(0)
    else
      var before := SetOnce(vals[..|vals| - 1]);
      var last := vals[|vals| - 1];
      if before.None? || !last.Once? || last.content == 0 then before
      else if before.value == 0 then Some(last.content)
      else None
  }

  function EntriesOf(v: Value): Chunk {
    if v.Nested? then v.entries else map[]
  }

  ghost predicate AllNested(vals: seq<Value>) {
    forall i :: 0 <= i < |vals| ==> vals[i].Nested?
  }

  function Maps(vals: seq<Value>): (r: seq<Chunk>)
    ensures |r| == |vals| && forall i :: 0 <= i < |r| ==> r[i] == EntriesOf(vals[i])
  {
    if vals == [] then [] else Maps(vals[..|vals| - 1]) + [EntriesOf(vals[|vals| - 1])]
  }

  lemma {:induction false} MapsLower(vals: seq<Value>)
    requires vals != [] && AllNested(vals)
    ensures ChunkHeights(Maps(vals)) < Heights(vals)
    decreases |vals|
  {
    var n := |vals| - 1;
    var before := Maps(vals[..n]);
    assert Maps(vals)[..n] == before;
    NestedHeight(vals[n].mapType, vals[n].entries);
    if n > 0 {
      MapsLower(vals[..n]);
    }
  }

  /** A nil among several values cannot be merged: as the first one it has no type to go by. */
  ghost function Merge(vals: seq<Value>): Result<Value, Failure>
    decreases Heights(vals), 0
  {
    if vals == [] then Err(Failure.Failure)
    else if |vals| == 1 then Ok(vals[0])
    else if vals[0].Nil? || !SameType(vals) then Err(Failure.Failure)
    else
      match vals[0]
      case Text(_) => Ok(Text(Joined(vals)))
      case Last(_, _) => Ok(vals[|vals| - 1])
      case Once(t, _) => if SetOnce(vals).None? then Err(Failure.Failure) else Ok(Once(t, SetOnce(vals).value))
      case Nested(t, _) =>
        assert AllNested(vals) by {
          assert forall i :: 0 <= i < |vals| ==> TypeOf(vals[i]) == MapTag(t);
        }
        MapsLower(vals);
        match ConcatMaps(Maps(vals))
        case Err(e) => Err(e)
        case Ok(m) => Ok(Nested(t, m))
  }

  ghost predicate Fails(ms: seq<Chunk>)
    decreases ChunkHeights(ms), 1
  {
    exists key :: key in Keys(ms) && (CollectLower(ms, key); Merge(Collect(ms, key)).Err?)
  }

  ghost function MergedMap(ms: seq<Chunk>): (r: Chunk)
    requires !Fails(ms)
    ensures r.Keys == Keys(ms)
    ensures forall key :: key in Keys(ms) ==> (CollectLower(ms, key); Merge(Collect(ms, key)) == Ok(r[key]))
    decreases ChunkHeights(ms), 2
  {
    map key | key in Keys(ms) :: (CollectLower(ms, key); Merge(Collect(ms, key)).value)
  }

  ghost function ConcatMaps(ms: seq<Chunk>): Result<Chunk, Failure>
    decreases ChunkHeights(ms), 3
  {
    if Fails(ms) then Err(Failure.Failure) else Ok(MergedMap(ms))
  }
}
