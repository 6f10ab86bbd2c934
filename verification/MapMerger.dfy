/** The merging loops, which visit keys in any order, proved to compute the merge. */
module MapMerger {

  import opened Wrappers
  import opened MapConcat

  method ConcatStrings(vals: seq<Value>) returns (b: string)
    ensures b == Joined(vals)
  {
    b := "";
    var i := 0;
    while i < |vals|
      invariant 0 <= i <= |vals| && b == Joined(vals[..i])
    {
      assert vals[..i + 1][..i] == vals[..i];
      if vals[i].Text? {
        b := b + vals[i].text;
      }
      i := i + 1;
    }
    assert vals[..i] == vals;
  }

  lemma {:induction false} OnceDoomed(vals: seq<Value>, i: nat)
    requires i <= |vals| && SetOnce(vals[..i]).None?
    ensures SetOnce(vals).None?
    decreases |vals|
  {
    if i == |vals| {
      assert vals[..i] == vals;
    } else {
      assert vals[..|vals| - 1][..i] == vals[..i];
      OnceDoomed(vals[..|vals| - 1], i);
    }
  }

  /** Looks for the one value that is not zero. */
  method FilterZeros(vals: seq<Value>, otherType: nat) returns (r: Result<Value, Failure>)
    requires forall i :: 0 <= i < |vals| ==> vals[i].Once? && vals[i].otherType == otherType
    ensures r == if SetOnce(vals).None? then Err(Failure.Failure) else Ok(Once(otherType, SetOnce(vals).value))
  {
    var filtered: Option<Value> := None;
    var i := 0;
    while i < |vals|
      invariant 0 <= i <= |vals|
      invariant filtered.Some? ==>
        filtered.value.Once? && filtered.value.otherType == otherType && filtered.value.content != 0
      invariant SetOnce(vals[..i]) == Some(if filtered.None? then 0 else filtered.value.content)
    {
      assert vals[..i + 1][..i] == vals[..i];
      if vals[i].content != 0 {
        if filtered.Some? {
          OnceDoomed(vals, i + 1);
          return Err(Failure.Failure);
        }
        filtered := Some(vals[i]);
      }
      i := i + 1;
    }
    assert vals[..i] == vals;
    r := Ok(if filtered.None? then Once(otherType, 0) else filtered.value);
  }

  /** Whether the values have the type of the first. */
  method SameTypes(vals: seq<Value>) returns (same: bool)
    requires vals != []
    ensures same == SameType(vals)
  {
    var typ := TypeOf(vals[0]);
    var i := 1;
    while i < |vals|
      invariant 1 <= i <= |vals| && forall j :: 0 <= j < i ==> TypeOf(vals[j]) == typ
    {
      if typ != TypeOf(vals[i]) {
        return false;
      }
      i := i + 1;
    }
    same := true;
  }

  method MapsOf(vals: seq<Value>) returns (ms: seq<Chunk>)
    ensures ms == Maps(vals)
  {
    ms := [];
    var i := 0;
    while i < |vals|
      invariant 0 <= i <= |vals| && |ms| == i && forall j :: 0 <= j < i ==> ms[j] == EntriesOf(vals[j])
    {
      ms := ms + [EntriesOf(vals[i])];
      i := i + 1;
    }
  }

  method MergeValues(vals: seq<Value>) returns (r: Result<Value, Failure>)
    ensures r == Merge(vals)
    decreases Heights(vals), 0
  {
    if vals == [] {
      return Err(Failure.Failure);
    }
    if |vals| == 1 {
      return Ok(vals[0]);
    }
    if vals[0].Nil? {
      return Err(Failure.Failure);
    }
    var same := SameTypes(vals);
    if !same {
      return Err(Failure.Failure);
    }
    match vals[0]
    case Text(_) =>
      var b := ConcatStrings(vals);
      return Ok(Text(b));
    case Last(_, _) =>
      return Ok(vals[|vals| - 1]);
    case Once(t, _) =>
      r := FilterZeros(vals, t);
    case Nested(t, _) =>
      assert AllNested(vals);
      MapsLower(vals);
      var ms := MapsOf(vals);
      var m := ConcatChunks(ms);
      return if m.Err? then Err(m.error) else Ok(Nested(t, m.value));
  }

  /** The candidates gathered so far are those of the first chunks. */
  ghost predicate Gathered(rms: map<string, seq<Value>>, ms: seq<Chunk>) {
    rms.Keys == Keys(ms) && forall key :: key in rms ==> rms[key] == Collect(ms, key)
  }

  lemma {:induction false} CollectNone(ms: seq<Chunk>, key: string)
    ensures Collect(ms, key) == [] <==> key !in Keys(ms)
  {
    if ms != [] {
      CollectNone(ms[..|ms| - 1], key);
    }
  }

  /** The candidates after the keys of `m` outside `left` have been added. */
  ghost predicate Partly(rms: map<string, seq<Value>>, before: seq<Chunk>, m: Chunk, left: set<string>) {
    && rms.Keys == Keys(before) + (m.Keys - left)
    && forall key :: key in rms ==>
         rms[key] == Collect(before, key) + if key in m && key !in left then [m[key]] else []
  }

  lemma PartlyStarts(rms: map<string, seq<Value>>, before: seq<Chunk>, m: Chunk)
    requires Gathered(rms, before)
    ensures Partly(rms, before, m, m.Keys)
  {
    assert forall key :: Collect(before, key) + [] == Collect(before, key);
  }

  lemma PartlyStep(rms: map<string, seq<Value>>, before: seq<Chunk>, m: Chunk, left: set<string>, key: string)
    requires Partly(rms, before, m, left) && left <= m.Keys && key in left
    ensures Partly(rms[key := (if key in rms then rms[key] else []) + [m[key]]], before, m, left - {key})
  {
    CollectNone(before, key);
  }

  lemma PartlyEnds(rms: map<string, seq<Value>>, before: seq<Chunk>, m: Chunk)
    requires Partly(rms, before, m, {})
    ensures Gathered(rms, before + [m])
  {
    assert (before + [m])[..|before|] == before;
    assert m.Keys - {} == m.Keys;
  }

  /** Adds one chunk's values to the candidates, key by key. */
  method GatherChunk(rms0: map<string, seq<Value>>, ghost before: seq<Chunk>, m: Chunk)
    returns (rms: map<string, seq<Value>>)
    requires Gathered(rms0, before)
    ensures Gathered(rms, before + [m])
  {
    rms := rms0;
    var left := m.Keys;
    PartlyStarts(rms, before, m);
    while left != {}
      invariant left <= m.Keys && Partly(rms, before, m, left)
      decreases |left|
    {
      var key :| key in left;
      PartlyStep(rms, before, m, left, key);
      var vals := if key in rms then rms[key] else [];
      rms := rms[key := vals + [m[key]]];
      left := left - {key};
    }
    PartlyEnds(rms, before, m);
  }

  method GatherChunks(ms: seq<Chunk>) returns (rms: map<string, seq<Value>>)
    ensures Gathered(rms, ms)
  {
    rms := map[];
    var i := 0;
    while i < |ms|
      invariant 0 <= i <= |ms| && Gathered(rms, ms[..i])
    {
      assert ms[..i + 1] == ms[..i] + [ms[i]];
      rms := GatherChunk(rms, ms[..i], ms[i]);
      i := i + 1;
    }
    assert ms[..i] == ms;
  }

  /** Merges the candidates of every key, in any order. */
  method MergeCandidates(rms: map<string, seq<Value>>, ghost height: nat) returns (r: Result<Chunk, Failure>)
    requires forall key :: key in rms ==> Heights(rms[key]) <= height
    ensures r.Ok? ==> r.value.Keys == rms.Keys && forall key :: key in rms ==> Merge(rms[key]) == Ok(r.value[key])
    ensures r.Err? ==> exists key :: key in rms && Merge(rms[key]).Err?
    decreases height, 2
  {
    var ret: Chunk := map[];
    var left := rms.Keys;
    while left != {}
      invariant ret.Keys + left == rms.Keys
      invariant forall key :: key in ret ==> Merge(rms[key]) == Ok(ret[key])
      decreases |left|
    {
      var key :| key in left;
      var cv := MergeValues(rms[key]);
      if cv.Err? {
        return Err(Failure.Failure);
      }
      ret := ret[key := cv.value];
      left := left - {key};
    }
    r := Ok(ret);
  }

  method ConcatChunks(ms: seq<Chunk>) returns (r: Result<Chunk, Failure>)
    ensures r == ConcatMaps(ms)
    decreases ChunkHeights(ms), 3
  {
    var rms := GatherChunks(ms);
    forall key | key in rms
      ensures Heights(rms[key]) <= ChunkHeights(ms)
    {
      CollectLower(ms, key);
    }
    r := MergeCandidates(rms, ChunkHeights(ms));
    CandidatesMerged(rms, ms, r);
  }

  lemma CandidatesMerged(rms: map<string, seq<Value>>, ms: seq<Chunk>, r: Result<Chunk, Failure>)
    requires Gathered(rms, ms)
    requires r.Ok? ==> r.value.Keys == rms.Keys && forall key :: key in rms ==> Merge(rms[key]) == Ok(r.value[key])
    requires r.Err? ==> exists key :: key in rms && Merge(rms[key]).Err?
    ensures r == ConcatMaps(ms)
  {
    if r.Ok? {
      assert !Fails(ms);
      assert MergedMap(ms) == r.value;
    } else {
      assert Fails(ms);
      assert r.error == Failure.Failure;
    }
  }
}
