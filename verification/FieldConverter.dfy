/** The conversion that writes a whole set of mappings into a new map, in any order. */
module FieldConverter {

  import opened Wrappers
  import opened FieldMapping
  import opened FieldMappingProperties

  /** No path is empty or a prefix of another. */
  ghost predicate Separate(mappings: map<string, Value>) {
    && "" !in mappings
    && forall k, l :: k in mappings && l in mappings && k != l ==> !(SplitFieldPath(k) <= SplitFieldPath(l))
  }

  /** `w` holds exactly the values of these keys, at the paths they stand for. */
  ghost predicate Matches(w: Written, mappings: map<string, Value>, keys: set<string>) {
    && keys <= mappings.Keys
    && (forall k :: k in keys ==> SplitFieldPath(k) in w && w[SplitFieldPath(k)] == mappings[k])
    && (forall p :: p in w ==> exists k :: k in keys && SplitFieldPath(k) == p)
  }

  lemma OneMoreKey(w: Written, mappings: map<string, Value>, keys: set<string>, key: string)
    requires Separate(mappings) && Matches(w, mappings, keys) && key in mappings && key !in keys
    ensures !Blocked(w, SplitFieldPath(key))
    ensures Matches(Write(w, SplitFieldPath(key), mappings[key]), mappings, keys + {key})
  {
    var path := SplitFieldPath(key);
    forall p | p in w
      ensures !(p <= path) && !(path <= p)
    {
      var k :| k in keys && SplitFieldPath(k) == p;
    }
    var after := Write(w, path, mappings[key]);
    forall p | p in after
      ensures exists k :: k in keys + {key} && SplitFieldPath(k) == p
    {
      if p == path {
        assert key in keys + {key};
      } else {
        var k :| k in keys && SplitFieldPath(k) == p;
        assert k in keys + {key};
      }
    }
  }

  /** What the conversion keeps of mappings that do not get in each other's way. */
  ghost predicate SoFar(w: Written, mappings: map<string, Value>, left: set<string>) {
    left <= mappings.Keys && (Separate(mappings) ==> Matches(w, mappings, mappings.Keys - left))
  }

  lemma SoFarStep(w: Written, mappings: map<string, Value>, left: set<string>, key: string)
    requires SoFar(w, mappings, left) && key in left
    ensures Separate(mappings) ==> key != "" && !Blocked(w, SplitFieldPath(key))
    ensures SoFar(Write(w, SplitFieldPath(key), mappings[key]), mappings, left - {key})
  {
    if Separate(mappings) {
      OneMoreKey(w, mappings, mappings.Keys - left, key);
      assert mappings.Keys - left + {key} == mappings.Keys - (left - {key});
    }
  }

  method ConvertTo(mappings: map<string, Value>) returns (ok: bool, target: Target)
    ensures Separate(mappings) ==> ok
    ensures ok ==> fresh(target) && target.Valid()
    ensures ok && Separate(mappings) ==> Matches(target.written, mappings, mappings.Keys)
  {
    target := new Target();
    var left := mappings.Keys;
    while left != {}
      invariant fresh(target) && target.Valid()
      invariant SoFar(target.written, mappings, left)
      decreases |left|
    {
      var mapping :| mapping in left;
      SoFarStep(target.written, mappings, left, mapping);
      var done := target.AssignOne(mappings[mapping], mapping);
      if !done {
        return false, target;
      }
      left := left - {mapping};
    }
    assert mappings.Keys - left == mappings.Keys;
    ok := true;
  }

  /** Different keys stand for different paths. */
  lemma KeyOfPath(key: string)
    ensures Join(SplitFieldPath(key)) == key
  {
    JoinOfSplit(key);
  }

  /** Every mapping reads back its value from the result, which has no other leaves. */
  lemma ConvertedReadsBack(store: Store, home: Homes, w: Written, mappings: map<string, Value>, path: Path)
    requires Holds(store, home, w, []) && Matches(w, mappings, mappings.Keys) && path != []
    ensures Join(path) in mappings && SplitFieldPath(Join(path)) == path ==>
      ReadAt(TreeAt(store, home, w, 0), path) == Some(mappings[Join(path)])
    ensures !(Join(path) in mappings && SplitFieldPath(Join(path)) == path) ==>
      ReadAt(TreeAt(store, home, w, 0), path) == None
  {
    ReadsBack(store, home, w, 0, path);
    assert home[0] + path == path;
    if path in w {
      var k :| k in mappings && SplitFieldPath(k) == path;
      KeyOfPath(k);
    }
  }

  /** Two conversions of the same mappings, in whatever orders, give the same nested value. */
  lemma ConversionsAgree(s: Store, h: Homes, v: Written, t: Store, g: Homes, w: Written, mappings: map<string, Value>)
    requires Holds(s, h, v, []) && Matches(v, mappings, mappings.Keys)
    requires Holds(t, g, w, []) && Matches(w, mappings, mappings.Keys)
    ensures TreeAt(s, h, v, 0) == TreeAt(t, g, w, 0)
  {
    MatchesOne(v, w, mappings);
    Determined(s, h, t, g, w, 0, 0);
  }

  lemma MatchesOne(v: Written, w: Written, mappings: map<string, Value>)
    requires Matches(v, mappings, mappings.Keys) && Matches(w, mappings, mappings.Keys)
    ensures v == w
  {
    forall p | p in v
      ensures p in w && v[p] == w[p]
    {
      var k :| k in mappings && SplitFieldPath(k) == p;
    }
    forall p | p in w
      ensures p in v
    {
      var k :| k in mappings && SplitFieldPath(k) == p;
    }
  }
}
