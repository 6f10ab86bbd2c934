/** Merging maps chunk by chunk gives what merging them all at once gives. */
module MapConcatProperties {

  import opened Wrappers
  import opened MapConcat
  import M = MapMerger

  // ---------------------------------------------------------------- lists of values and of chunks

  lemma {:induction false} CollectAppend(a: seq<Chunk>, b: seq<Chunk>, key: string)
    ensures Collect(a + b, key) == Collect(a, key) + Collect(b, key)
    decreases |b|
  {
    if b == [] {
      assert a + b == a;
      assert Collect(a, key) + [] == Collect(a, key);
    } else {
      var n := |b| - 1;
      CollectAppend(a, b[..n], key);
      assert (a + b)[..|a| + n] == a + b[..n];
    }
  }

  lemma {:induction false} KeysAppend(a: seq<Chunk>, b: seq<Chunk>)
    ensures Keys(a + b) == Keys(a) + Keys(b)
    decreases |b|
  {
    if b == [] {
      assert a + b == a;
    } else {
      var n := |b| - 1;
      KeysAppend(a, b[..n]);
      assert (a + b)[..|a| + n] == a + b[..n];
    }
  }

  lemma CollectTogether(a: seq<Chunk>, b: seq<Chunk>, key: string)
    ensures Collect(a + b, key) == Collect(a, key) + Collect(b, key)
    ensures Keys(a + b) == Keys(a) + Keys(b)
  {
    CollectAppend(a, b, key);
    KeysAppend(a, b);
  }

  lemma {:induction false} JoinedTogether(a: seq<Value>, b: seq<Value>)
    ensures Joined(a + b) == Joined(a) + Joined(b)
    decreases |b|
  {
    if b == [] {
      assert a + b == a;
    } else {
      var n := |b| - 1;
      JoinedTogether(a, b[..n]);
      assert (a + b)[..|a| + n] == a + b[..n];
    }
  }

  /** What is set once among the first values may stand for them. */
  lemma {:induction false} OnceTogether(a: seq<Value>, t: nat, b: seq<Value>)
    ensures SetOnce(a).None? ==> SetOnce(a + b).None?
    ensures SetOnce(a).Some? ==> SetOnce([Once(t, SetOnce(a).value)] + b) == SetOnce(a + b)
    decreases |b|
  {
    if b == [] {
      assert a + b == a;
      if SetOnce(a).Some? {
        var c := [Once(t, SetOnce(a).value)];
        assert c + b == c && c[..0] == [];
      }
    } else {
      var n := |b| - 1;
      OnceTogether(a, t, b[..n]);
      assert (a + b)[..|a| + n] == a + b[..n];
      if SetOnce(a).Some? {
        var c := [Once(t, SetOnce(a).value)];
        assert (c + b)[..1 + n] == c + b[..n];
      }
    }
  }

  lemma MapsTogether(a: seq<Value>, b: seq<Value>)
    ensures Maps(a + b) == Maps(a) + Maps(b)
  {
  }

  // ---------------------------------------------------------------- incremental merging

  lemma HeightsTogether(a: seq<Chunk>, b: seq<Chunk>, key: string)
    ensures Heights(Collect(a, key) + Collect(b, key)) <= ChunkHeights(a + b)
  {
    CollectLower(a + b, key);
    CollectTogether(a, b, key);
  }

  lemma SameTypeTogether(a: seq<Value>, b: seq<Value>, c: Value)
    requires a != [] && SameType(a) && TypeOf(c) == TypeOf(a[0])
    ensures SameType([c] + b) <==> SameType(a + b)
  {
    if SameType(a + b) {
      assert forall i :: 0 <= i < |b| ==> (a + b)[|a| + i] == b[i];
    }
    if SameType([c] + b) {
      assert forall i :: 0 <= i < |b| ==> ([c] + b)[1 + i] == b[i];
    }
  }

  lemma NotSameType(a: seq<Value>, b: seq<Value>)
    requires a != [] && !SameType(a)
    ensures !SameType(a + b)
  {
    var i :| 0 <= i < |a| && TypeOf(a[i]) != TypeOf(a[0]);
    assert (a + b)[i] == a[i] && (a + b)[0] == a[0];
  }

  /** A merged value has the type of the values it stands for. */
  lemma MergedType(a: seq<Value>)
    requires Merge(a).Ok?
    ensures a != [] && SameType(a) && TypeOf(Merge(a).value) == TypeOf(a[0])
  {
  }

  /** Values may be merged before more are added, with the same result or the same failure. */
  lemma {:induction false} MergeIncremental(a: seq<Value>, b: seq<Value>)
    requires a != []
    ensures Merge(a).Err? ==> Merge(a + b).Err?
    ensures Merge(a).Ok? ==> Merge([Merge(a).value] + b) == Merge(a + b)
    decreases Heights(a + b), 0
  {
    if b == [] {
      assert a + b == a;
      if Merge(a).Ok? {
        assert [Merge(a).value] + b == [Merge(a).value];
      }
    } else if |a| == 1 {
      assert [a[0]] + b == a + b;
    } else if a[0].Nil? {
      assert (a + b)[0] == a[0];
    } else if !SameType(a) {
      NotSameType(a, b);
    } else if SameType(a + b) {
      assert (a + b)[0] == a[0];
      MergeSameType(a, b);
    } else if Merge(a).Ok? {
      MergedType(a);
      SameTypeTogether(a, b, Merge(a).value);
    }
  }

  lemma {:induction false} MergeSameType(a: seq<Value>, b: seq<Value>)
    requires |a| > 1 && b != [] && SameType(a + b) && !a[0].Nil?
    requires SameType(a)
    ensures Merge(a).Err? ==> Merge(a + b).Err?
    ensures Merge(a).Ok? ==> Merge([Merge(a).value] + b) == Merge(a + b)
    decreases Heights(a + b), 0, 0
  {
    match a[0]
    case Text(_) => MergeTexts(a, b);
    case Last(_, _) => MergeLasts(a, b);
    case Once(t, _) => MergeOnces(a, b, t);
    case Nested(t, _) =>
      MapsTogether(a, b);
      assert AllNested(a + b);
      MapsLower(a + b);
      MapsIncremental(Maps(a), Maps(b));
      MergeNested(a, b, t);
  }

  lemma MergeTexts(a: seq<Value>, b: seq<Value>)
    requires |a| > 1 && b != [] && SameType(a + b) && SameType(a) && a[0].Text?
    ensures Merge(a).Ok? && Merge([Merge(a).value] + b) == Merge(a + b)
  {
    var c := Merge(a).value;
    SameTypeTogether(a, b, c);
    JoinedTogether(a, b);
    JoinedTogether([c], b);
    assert [c][..0] == [] && Joined([c]) == c.text;
    assert ([c] + b)[0] == c && (a + b)[0] == a[0];
  }

  lemma MergeLasts(a: seq<Value>, b: seq<Value>)
    requires |a| > 1 && b != [] && SameType(a + b) && SameType(a) && a[0].Last?
    ensures Merge(a).Ok? && Merge([Merge(a).value] + b) == Merge(a + b)
  {
    var c := Merge(a).value;
    SameTypeTogether(a, b, c);
    var x, y := [c] + b, a + b;
    assert x[0] == c && y[0] == a[0] && x[|x| - 1] == b[|b| - 1] == y[|y| - 1];
  }

  lemma MergeOnces(a: seq<Value>, b: seq<Value>, t: nat)
    requires |a| > 1 && b != [] && SameType(a + b) && SameType(a) && a[0].Once? && a[0].otherType == t
    ensures Merge(a).Err? ==> Merge(a + b).Err?
    ensures Merge(a).Ok? ==> Merge([Merge(a).value] + b) == Merge(a + b)
  {
    OnceTogether(a, t, b);
    if Merge(a).Ok? {
      SameTypeTogether(a, b, Merge(a).value);
    }
  }

  lemma MergeNested(a: seq<Value>, b: seq<Value>, t: nat)
    requires |a| > 1 && b != [] && SameType(a + b) && SameType(a) && a[0].Nested? && a[0].mapType == t
    requires Maps(a + b) == Maps(a) + Maps(b)
    requires ConcatMaps(Maps(a)).Err? ==> ConcatMaps(Maps(a) + Maps(b)).Err?
    requires ConcatMaps(Maps(a)).Ok? ==>
      ConcatMaps([ConcatMaps(Maps(a)).value] + Maps(b)) == ConcatMaps(Maps(a) + Maps(b))
    ensures Merge(a).Err? ==> Merge(a + b).Err?
    ensures Merge(a).Ok? ==> Merge([Merge(a).value] + b) == Merge(a + b)
  {
    if Merge(a).Ok? {
      var c := Merge(a).value;
      SameTypeTogether(a, b, c);
      MapsTogether([c], b);
      assert Maps([c]) == [c.entries];
    }
  }

  /** Chunks may be merged before more arrive, with the same result or the same failure. */
  lemma {:induction false} MapsIncremental(a: seq<Chunk>, b: seq<Chunk>)
    ensures ConcatMaps(a).Err? ==> ConcatMaps(a + b).Err?
    ensures ConcatMaps(a).Ok? ==> ConcatMaps([ConcatMaps(a).value] + b) == ConcatMaps(a + b)
    decreases ChunkHeights(a + b), 3
  {
    forall key | key in Keys(a)
      ensures KeyIncremental(a, b, key)
    {
      KeysIncremental(a, b, key);
    }
    if Fails(a) {
      var key :| key in Keys(a) && Merge(Collect(a, key)).Err?;
      assert KeyIncremental(a, b, key);
      CollectTogether(a, b, key);
    } else {
      KeyByKey(a, b, ConcatMaps(a).value);
    }
  }

  /** The values of one key may be merged before more are added. */
  ghost predicate KeyIncremental(a: seq<Chunk>, b: seq<Chunk>, key: string) {
    && (Merge(Collect(a, key)).Err? ==> Merge(Collect(a + b, key)).Err?)
    && (Merge(Collect(a, key)).Ok? ==>
          Merge([Merge(Collect(a, key)).value] + Collect(b, key)) == Merge(Collect(a + b, key)))
  }

  lemma {:induction false} KeysIncremental(a: seq<Chunk>, b: seq<Chunk>, key: string)
    requires key in Keys(a)
    ensures KeyIncremental(a, b, key)
    decreases ChunkHeights(a + b), 2
  {
    M.CollectNone(a, key);
    HeightsTogether(a, b, key);
    CollectTogether(a, b, key);
    MergeIncremental(Collect(a, key), Collect(b, key));
  }

  lemma KeyByKey(a: seq<Chunk>, b: seq<Chunk>, c: Chunk)
    requires ConcatMaps(a) == Ok(c)
    requires forall key :: key in Keys(a) ==> KeyIncremental(a, b, key)
    ensures ConcatMaps([c] + b) == ConcatMaps(a + b)
  {
    CollectTogether(a, b, "");
    CollectTogether([c], b, "");
    assert [c][..0] == [] && Keys([c]) == c.Keys;
    forall key
      ensures Merge(Collect([c] + b, key)) == Merge(Collect(a + b, key))
    {
      CollectTogether(a, b, key);
      CollectTogether([c], b, key);
      M.CollectNone(a, key);
      assert Collect([c], key) == if key in c then [c[key]] else [];
      if key in Keys(a) {
        assert KeyIncremental(a, b, key);
      } else {
        assert [] + Collect(b, key) == Collect(b, key);
      }
    }
    SameMerges([c] + b, a + b);
  }

  lemma SameMerges(x: seq<Chunk>, y: seq<Chunk>)
    requires Keys(x) == Keys(y)
    requires forall key :: Merge(Collect(x, key)) == Merge(Collect(y, key))
    ensures ConcatMaps(x) == ConcatMaps(y)
  {
    if !Fails(x) {
      assert MergedMap(x) == MergedMap(y);
    }
  }

  /** Merging again changes nothing. */
  lemma Idempotent(a: seq<Chunk>)
    requires ConcatMaps(a).Ok?
    ensures ConcatMaps([ConcatMaps(a).value]) == ConcatMaps(a)
  {
    MapsIncremental(a, []);
    assert a + [] == a && [ConcatMaps(a).value] + [] == [ConcatMaps(a).value];
  }

  // ---------------------------------------------------------------- no text is lost

  /** The text at the end of a path of keys. */
  function TextAt(v: Value, path: seq<string>): string
    decreases path
  {
    if path == [] then if v.Text? then v.text else ""
    else if v.Nested? && path[0] in v.entries then TextAt(v.entries[path[0]], path[1..])
    else ""
  }

  function TextsAt(vals: seq<Value>, path: seq<string>): string {
    if vals == [] then [] else TextsAt(vals[..|vals| - 1], path) + TextAt(vals[|vals| - 1], path)
  }

  lemma {:induction false} TextsAtEnd(vals: seq<Value>)
    ensures TextsAt(vals, []) == Joined(vals)
  {
    if vals != [] {
      TextsAtEnd(vals[..|vals| - 1]);
    }
  }

  lemma {:induction false} NoTexts(vals: seq<Value>, path: seq<string>)
    requires forall i :: 0 <= i < |vals| ==> TextAt(vals[i], path) == ""
    ensures TextsAt(vals, path) == ""
  {
    if vals != [] {
      NoTexts(vals[..|vals| - 1], path);
    }
  }

  lemma {:induction false} TextsBelow(vals: seq<Value>, path: seq<string>)
    requires path != [] && AllNested(vals)
    ensures TextsAt(vals, path) == TextsAt(Collect(Maps(vals), path[0]), path[1..])
  {
    if vals != [] {
      var n := |vals| - 1;
      TextsBelow(vals[..n], path);
      assert Maps(vals)[..n] == Maps(vals[..n]);
      TextsMore(Collect(Maps(vals[..n]), path[0]), vals[n], path);
    }
  }

  lemma TextsMore(found: seq<Value>, last: Value, path: seq<string>)
    requires path != [] && last.Nested?
    ensures TextsAt(found + if path[0] in last.entries then [last.entries[path[0]]] else [], path[1..])
      == TextsAt(found, path[1..]) + TextAt(last, path)
  {
    if path[0] in last.entries {
      var more := found + [last.entries[path[0]]];
      assert more[..|more| - 1] == found;
    } else {
      assert found + [] == found;
    }
  }

  /** The merged map holds at a key what the values of that key merge to. */
  lemma NestedTexts(vals: seq<Value>, path: seq<string>, ms: seq<Chunk>)
    requires |vals| > 1 && path != [] && SameType(vals) && vals[0].Nested? && Merge(vals).Ok? && ms == Maps(vals)
    ensures path[0] !in Keys(ms) ==> TextAt(Merge(vals).value, path) == TextsAt(vals, path) == ""
    ensures path[0] in Keys(ms) ==>
      && Merge(Collect(ms, path[0])).Ok?
      && TextAt(Merge(vals).value, path) == TextAt(Merge(Collect(ms, path[0])).value, path[1..])
      && TextsAt(vals, path) == TextsAt(Collect(ms, path[0]), path[1..])
  {
    assert AllNested(vals);
    TextsBelow(vals, path);
    M.CollectNone(ms, path[0]);
    assert ConcatMaps(ms) == Ok(Merge(vals).value.entries);
  }

  /** At every path, the merged value holds the texts of all the values it was merged from,
      in order. */
  lemma {:induction false} NoTextLost(vals: seq<Value>, path: seq<string>)
    requires Merge(vals).Ok?
    ensures TextAt(Merge(vals).value, path) == TextsAt(vals, path)
    decreases |path|
  {
    if |vals| == 1 {
      assert vals[..0] == [];
    } else {
      MergedType(vals);
      match vals[0]
      case Nested(t, _) =>
        if path == [] {
          NoTexts(vals, path);
        } else {
          NestedTexts(vals, path, Maps(vals));
          if path[0] in Keys(Maps(vals)) {
            NoTextLost(Collect(Maps(vals), path[0]), path[1..]);
          }
        }
      case Text(_) =>
        if path == [] {
          TextsAtEnd(vals);
        } else {
          NoTexts(vals, path);
        }
      case _ => NoTexts(vals, path);
    }
  }

  // ---------------------------------------------------------------- what is found at a path

  /** What is at the end of a path of keys; of a map only that it is one, and of which type. */
  function At(v: Value, path: seq<string>): Option<Value>
    decreases path
  {
    if path == [] then Some(if v.Nested? then Nested(v.mapType, map[]) else v)
    else if v.Nested? && path[0] in v.entries then At(v.entries[path[0]], path[1..])
    else None
  }

  function Here(v: Value, path: seq<string>): seq<Value> {
    if At(v, path).Some? then [At(v, path).value] else []
  }

  /** What the values have at the end of the path, in order. */
  function Found(vals: seq<Value>, path: seq<string>): seq<Value> {
    if vals == [] then [] else Found(vals[..|vals| - 1], path) + Here(vals[|vals| - 1], path)
  }

  predicate SameSort(a: Value, b: Value) {
    || (a.Nil? && b.Nil?)
    || (a.Text? && b.Text?)
    || (a.Last? && b.Last? && a.scalarType == b.scalarType)
    || (a.Once? && b.Once? && a.otherType == b.otherType)
    || (a.Nested? && b.Nested? && a.mapType == b.mapType)
  }

  /** Several values that cannot be one: a nil among them, values of different types, or two that
      are not zero of a type that may be set once. */
  ghost predicate Conflicts(found: seq<Value>) {
    |found| > 1 && (
      || (exists i :: 0 <= i < |found| && found[i].Nil?)
      || (exists i :: 0 <= i < |found| && !SameSort(found[i], found[0]))
      || (exists i, j ::
            0 <= i < j < |found| && found[i].Once? && found[j].Once? && found[i].content != 0 && found[j].content != 0))
  }

  ghost predicate ConflictAt(vals: seq<Value>, path: seq<string>) {
    Conflicts(Found(vals, path))
  }

  /** What several values become: their texts in order, the last scalar, the one content that is not
      zero, or a map again. */
  ghost predicate Blends(found: seq<Value>, r: Option<Value>) {
    if found == [] then r == None
    else if |found| == 1 then r == Some(found[0])
    else
      && r.Some? && (forall i :: 0 <= i < |found| ==> SameSort(found[i], r.value))
      && match r.value
         case Nil => false
         case Text(text) => text == TextsAt(found, [])
         case Last(_, value) => value == found[|found| - 1].value
         case Once(_, content) =>
           if forall i :: 0 <= i < |found| ==> found[i].content == 0 then content == 0
           else exists i :: 0 <= i < |found| && found[i].content == content != 0
         case Nested(_, entries) => entries == map[]
  }

  lemma {:induction false} FoundHere(vals: seq<Value>)
    ensures |Found(vals, [])| == |vals|
    ensures forall i :: 0 <= i < |vals| ==> Found(vals, [])[i] == At(vals[i], []).value
  {
    if vals != [] {
      FoundHere(vals[..|vals| - 1]);
    }
  }

  lemma {:induction false} FoundNone(vals: seq<Value>, path: seq<string>)
    requires forall i :: 0 <= i < |vals| ==> At(vals[i], path).None?
    ensures Found(vals, path) == []
  {
    if vals != [] {
      FoundNone(vals[..|vals| - 1], path);
    }
  }

  lemma {:induction false} FoundBelow(vals: seq<Value>, path: seq<string>)
    requires path != [] && AllNested(vals)
    ensures Found(vals, path) == Found(Collect(Maps(vals), path[0]), path[1..])
  {
    if vals != [] {
      var n := |vals| - 1;
      FoundBelow(vals[..n], path);
      assert Maps(vals)[..n] == Maps(vals[..n]);
      FoundMore(Collect(Maps(vals[..n]), path[0]), vals[n], path);
    }
  }

  lemma FoundMore(found: seq<Value>, last: Value, path: seq<string>)
    requires path != [] && last.Nested?
    ensures Found(found + if path[0] in last.entries then [last.entries[path[0]]] else [], path[1..])
      == Found(found, path[1..]) + Here(last, path)
  {
    if path[0] in last.entries {
      var more := found + [last.entries[path[0]]];
      assert more[..|more| - 1] == found;
    } else {
      assert found + [] == found;
      assert Found(found, path[1..]) + [] == Found(found, path[1..]);
    }
  }

  lemma {:induction false} OnceExactly(vals: seq<Value>)
    requires forall i :: 0 <= i < |vals| ==> vals[i].Once?
    ensures SetOnce(vals).None? <==>
      exists i, j :: 0 <= i < j < |vals| && vals[i].content != 0 && vals[j].content != 0
    ensures SetOnce(vals).Some? ==>
      if forall i :: 0 <= i < |vals| ==> vals[i].content == 0 then SetOnce(vals).value == 0
      else exists i :: 0 <= i < |vals| && vals[i].content == SetOnce(vals).value != 0
  {
    if vals != [] {
      var n := |vals| - 1;
      var before := vals[..n];
      OnceExactly(before);
      assert vals == before + [vals[n]];
      if i, j :| 0 <= i < j < |before| && before[i].content != 0 && before[j].content != 0 {
        assert vals[i].content != 0 && vals[j].content != 0;
      }
      if i :| 0 <= i < |before| &&
              before[i].content == (if SetOnce(before).Some? then SetOnce(before).value else 0) != 0 {
        assert vals[i] == before[i];
      }
      if i :| 0 <= i < |before| && before[i].content != 0 {
        assert vals[i].content != 0;
      }
    }
  }

  lemma SortIsType(a: Value, b: Value)
    ensures SameSort(a, b) <==> TypeOf(a) == TypeOf(b)
  {
  }

  lemma FoundTypes(vals: seq<Value>)
    ensures var found := Found(vals, []);
      && |found| == |vals|
      && (forall i :: 0 <= i < |vals| ==> TypeOf(found[i]) == TypeOf(vals[i]))
      && (forall i :: 0 <= i < |vals| && vals[i].Once? ==> found[i] == vals[i])
  {
    FoundHere(vals);
  }

  lemma NoConflictOfTypes(vals: seq<Value>, found: seq<Value>)
    requires |vals| > 1 && |found| == |vals| && !vals[0].Nil? && SameType(vals)
    requires forall i :: 0 <= i < |vals| ==> TypeOf(found[i]) == TypeOf(vals[i])
    requires forall i :: 0 <= i < |vals| && vals[i].Once? ==> found[i] == vals[i]
    ensures Conflicts(found) <==> vals[0].Once? && SetOnce(vals).None?
  {
    forall i | 0 <= i < |vals|
      ensures SameSort(found[i], found[0]) && !found[i].Nil? && (found[i].Once? <==> vals[0].Once?)
    {
      assert TypeOf(found[i]) == TypeOf(vals[i]) == TypeOf(vals[0]);
      SortIsType(found[i], found[0]);
    }
    if vals[0].Once? {
      assert forall i :: 0 <= i < |vals| ==> vals[i].Once?;
      assert found == vals;
      OnceExactly(vals);
    }
  }

  lemma ConflictOfTypes(vals: seq<Value>, found: seq<Value>)
    requires |vals| > 1 && |found| == |vals|
    requires forall i :: 0 <= i < |vals| ==> TypeOf(found[i]) == TypeOf(vals[i])
    ensures vals[0].Nil? ==> Conflicts(found)
    ensures !SameType(vals) ==> Conflicts(found)
  {
    assert TypeOf(found[0]) == TypeOf(vals[0]);
    if !SameType(vals) {
      var i :| 0 <= i < |vals| && TypeOf(vals[i]) != TypeOf(vals[0]);
      SortIsType(found[i], found[0]);
    }
  }

  /** Where the values themselves are: merging fails here exactly on a conflict. */
  lemma ConflictHere(vals: seq<Value>)
    requires |vals| > 1
    ensures ConflictAt(vals, []) <==>
      vals[0].Nil? || !SameType(vals) || (vals[0].Once? && SetOnce(vals).None?)
  {
    var found := Found(vals, []);
    FoundTypes(vals);
    ConflictOfTypes(vals, found);
    if !vals[0].Nil? && SameType(vals) {
      NoConflictOfTypes(vals, found);
    }
  }

  lemma BlendsHere(vals: seq<Value>)
    requires |vals| > 1 && Merge(vals).Ok?
    ensures Blends(Found(vals, []), At(Merge(vals).value, []))
  {
    var found, r := Found(vals, []), Merge(vals).value;
    FoundHere(vals);
    MergedType(vals);
    forall i | 0 <= i < |vals|
      ensures SameSort(found[i], At(r, []).value)
    {
      assert TypeOf(found[i]) == TypeOf(vals[i]) == TypeOf(vals[0]);
    }
    match vals[0]
    case Text(_) =>
      assert found == vals;
      TextsAtEnd(vals);
    case Last(_, _) => assert found == vals;
    case Once(_, _) =>
      assert found == vals;
      OnceExactly(vals);
    case Nested(_, _) =>
  }

  /** What merging leaves at a path is what the values have there, put together by their type; and
      there is no conflict at any path. */
  lemma {:induction false} MergedAt(vals: seq<Value>, path: seq<string>)
    requires Merge(vals).Ok?
    ensures !ConflictAt(vals, path)
    ensures Blends(Found(vals, path), At(Merge(vals).value, path))
    decreases |path|
  {
    if |vals| == 1 {
      assert vals[..0] == [] && Found(vals[..0], path) == [];
      assert [] + Here(vals[0], path) == Here(vals[0], path);
    } else if path == [] {
      ConflictHere(vals);
      BlendsHere(vals);
    } else {
      MergedType(vals);
      if vals[0].Nested? {
        assert AllNested(vals);
        var ms := Maps(vals);
        FoundBelow(vals, path);
        M.CollectNone(ms, path[0]);
        assert ConcatMaps(ms) == Ok(Merge(vals).value.entries);
        if path[0] in Keys(ms) {
          MergedAt(Collect(ms, path[0]), path[1..]);
        }
      } else {
        FoundNone(vals, path);
      }
    }
  }

  lemma FailingKey(ms: seq<Chunk>) returns (key: string)
    requires ConcatMaps(ms).Err?
    ensures key in Keys(ms) && Merge(Collect(ms, key)).Err?
  {
    key :| key in Keys(ms) && Merge(Collect(ms, key)).Err?;
  }

  /** Where merging fails there is a conflict at some path. */
  lemma {:induction false} ConflictFound(vals: seq<Value>) returns (path: seq<string>)
    requires vals != [] && Merge(vals).Err?
    ensures ConflictAt(vals, path)
    decreases Heights(vals)
  {
    ConflictHere(vals);
    path := [];
    if !(vals[0].Nil? || !SameType(vals) || (vals[0].Once? && SetOnce(vals).None?)) {
      assert vals[0].Nested?;
      assert AllNested(vals) by {
        assert forall i :: 0 <= i < |vals| ==> TypeOf(vals[i]) == TypeOf(vals[0]);
      }
      var ms := Maps(vals);
      MapsLower(vals);
      assert ConcatMaps(ms).Err?;
      var key := FailingKey(ms);
      CollectLower(ms, key);
      M.CollectNone(ms, key);
      var rest := ConflictFound(Collect(ms, key));
      path := [key] + rest;
      FoundBelow(vals, path);
    }
  }

  /** Values can be merged exactly when nowhere, at any path, do they conflict. */
  lemma MergesExactly(vals: seq<Value>)
    requires vals != []
    ensures Merge(vals).Ok? <==> forall path :: !ConflictAt(vals, path)
  {
    if Merge(vals).Ok? {
      forall path
        ensures !ConflictAt(vals, path)
      {
        MergedAt(vals, path);
      }
    } else {
      var path := ConflictFound(vals);
      assert ConflictAt(vals, path);
    }
  }

  /** The same for chunks: a key and a path below it. */
  lemma ChunksMergedAt(ms: seq<Chunk>, key: string, path: seq<string>)
    requires ConcatMaps(ms).Ok?
    ensures key in ConcatMaps(ms).value <==> exists i :: 0 <= i < |ms| && key in ms[i]
    ensures key in ConcatMaps(ms).value ==>
      && !ConflictAt(Collect(ms, key), path)
      && Blends(Found(Collect(ms, key), path), At(ConcatMaps(ms).value[key], path))
  {
    KeysOfChunks(ms, key);
    if key in Keys(ms) {
      MergedAt(Collect(ms, key), path);
    }
  }

  lemma {:induction false} KeysOfChunks(ms: seq<Chunk>, key: string)
    ensures key in Keys(ms) <==> exists i :: 0 <= i < |ms| && key in ms[i]
  {
    if ms != [] {
      var n := |ms| - 1;
      KeysOfChunks(ms[..n], key);
      if i :| 0 <= i < n && key in ms[..n][i] {
        assert key in ms[i];
      }
      if i :| 0 <= i < |ms| && key in ms[i] {
        assert i < n ==> key in ms[..n][i];
      }
    }
  }

  /** Chunks can be merged exactly when the values of no key conflict at any path. */
  lemma ChunksMergeExactly(ms: seq<Chunk>)
    ensures ConcatMaps(ms).Ok? <==>
      forall key, path :: key in Keys(ms) ==> !ConflictAt(Collect(ms, key), path)
  {
    if ConcatMaps(ms).Ok? {
      forall key, path | key in Keys(ms)
        ensures !ConflictAt(Collect(ms, key), path)
      {
        MergedAt(Collect(ms, key), path);
      }
    } else {
      var key := FailingKey(ms);
      M.CollectNone(ms, key);
      var path := ConflictFound(Collect(ms, key));
      assert ConflictAt(Collect(ms, key), path);
    }
  }
}
