/** The serializer gives back exactly the values whose interface parts it can name. */
module SerializationProperties {

  import opened Wrappers
  import opened Serialization

  // ---------------------------------------------------------------- zero values

  lemma {:induction false} ZeroIsZero(p: Program, ty: Ty)
    requires WellFormed(p) && Known(p, ty)
    ensures TypeOf(Zero(p, ty)) == ty && WellTyped(p, Zero(p, ty)) && IsZero(p, Zero(p, ty))
    decreases Depth(p, ty), ty
  {
    match ty
    case StructTy(name) =>
      var decls := p.structs[name];
      forall i | 0 <= i < |decls|
        ensures var zero := Zero(p, decls[i].ty);
          TypeOf(zero) == decls[i].ty && WellTyped(p, zero) && IsZero(p, zero)
      {
        ZeroIsZero(p, decls[i].ty);
      }
    case ArrayTy(_, elem) => ZeroIsZero(p, elem);
    case _ =>
  }

  lemma {:induction false} ZeroUnique(p: Program, v: Val)
    requires WellFormed(p) && WellTyped(p, v)
    ensures IsZero(p, v) <==> v == Zero(p, TypeOf(v))
  {
    ZeroIsZero(p, TypeOf(v));
    match v
    case Struct(name, fields) =>
      if IsZero(p, v) {
        forall i | 0 <= i < |fields|
          ensures fields[i] == Zero(p, p.structs[name][i].ty)
        {
          ZeroUnique(p, fields[i]);
        }
        assert fields == Zero(p, TypeOf(v)).fields;
      }
    case Array(elem, items) =>
      if IsZero(p, v) {
        forall i | 0 <= i < |items|
          ensures items[i] == Zero(p, elem)
        {
          ZeroUnique(p, items[i]);
        }
        assert items == Zero(p, TypeOf(v)).items;
      }
    case _ =>
  }

  // ---------------------------------------------------------------- type names

  /** A type registered under a usable key. */
  predicate Named(p: Program, ty: Ty) {
    ty in p.rm && p.rm[ty] != ""
  }

  /** A type that its tag determines: everything in it is registered and no array, which a tag
      cannot tell from a slice, is part of it. */
  predicate Nameable(p: Program, ty: Ty) {
    match ty
    case MapTy(key, elem) => Named(p, ScalarTy(key)) && Nameable(p, elem)
    case SliceTy(elem) => Nameable(p, elem)
    case ArrayTy(_, _) => false
    case _ => Named(p, ty)
  }

  /** A type is restored from its tag exactly when the tag determines it. */
  lemma {:induction false} RestoreExtracted(p: Program, ty: Ty)
    requires WellFormed(p)
    ensures (ExtractType(p, ty).Done? && RestoreType(p, ExtractType(p, ty).value) == Done(ty)) <==> Nameable(p, ty)
  {
    match ty
    case MapTy(key, elem) =>
      RestoreExtracted(p, elem);
    case SliceTy(elem) => RestoreExtracted(p, elem);
    case ArrayTy(_, elem) =>
    case _ =>
  }

  // ---------------------------------------------------------------- the values that survive

  predicate IsNil(v: Val) {
    (v.Slice? || v.Map?) && v.isNil
  }

  /** A value that may sit in an interface: a scalar or struct of a registered type, or a
      non-nil slice whose element type its tag determines. */
  predicate FitsInterface(p: Program, v: Val) {
    match v
    case Slice(elem, isNil, _) => !isNil && Nameable(p, elem)
    case Map(_, _, _, _) => false
    case Array(_, _) => false
    case Iface(_) => false
    case _ => Named(p, TypeOf(v))
  }

  /** Every interface part fits, and every unexported field is zero. */
  predicate Restorable(p: Program, v: Val) {
    match v
    case Scalar(_, _) => true
    case Struct(name, fields) =>
      name in p.structs && |p.structs[name]| == |fields| &&
      forall i :: 0 <= i < |fields| ==>
        if p.structs[name][i].exported then Restorable(p, fields[i]) else IsZero(p, fields[i])
    case Slice(_, _, items) => forall i :: 0 <= i < |items| ==> Restorable(p, items[i])
    case Array(_, items) => forall i :: 0 <= i < |items| ==> Restorable(p, items[i])
    case Map(_, _, _, entries) => forall k :: k in entries ==> Restorable(p, entries[k])
    case Iface(dyn) => dyn.None? || (FitsInterface(p, dyn.value) && Restorable(p, dyn.value))
  }

  /** Marshalling `v` and unmarshalling the result into a place of the same static type
      succeeds and gives back `v`. */
  ghost predicate RoundTrips(p: Program, v: Val)
    requires WellFormed(p) && WellTyped(p, v)
  {
    Marshal(p, v).Done? && Place(p, Marshal(p, v).value, TypeOf(v)) == Done(v)
  }

  /** The same for the node of a value without the dropping of zeros, under any tag. */
  ghost predicate BodyRoundTrips(p: Program, v: Val, tag: Option<Tag>)
    requires WellFormed(p) && WellTyped(p, v)
  {
    Body(p, v).Done? && Fill(p, Body(p, v).value.(tag := tag), TypeOf(v)) == Done(v)
  }

  lemma {:induction false} ZeroRestorable(p: Program, v: Val)
    requires WellFormed(p) && WellTyped(p, v) && IsZero(p, v)
    ensures Restorable(p, v)
  {
    match v
    case Struct(name, fields) =>
      forall i | 0 <= i < |fields|
        ensures Restorable(p, fields[i])
      {
        ZeroRestorable(p, fields[i]);
      }
    case Array(_, items) =>
      forall i | 0 <= i < |items|
        ensures Restorable(p, items[i])
      {
        ZeroRestorable(p, items[i]);
      }
    case _ =>
  }

  /** The round trip succeeds exactly on the restorable values. */
  lemma {:induction false} RoundTripExactly(p: Program, v: Val)
    requires WellFormed(p) && WellTyped(p, v)
    ensures RoundTrips(p, v) <==> Restorable(p, v)
    decreases v, 1
  {
    if v.Iface? {
      if v.dyn.Some? {
        InterfaceExactly(p, v.dyn.value);
      }
    } else {
      ZeroUnique(p, v);
      if IsZero(p, v) {
        ZeroRestorable(p, v);
      } else {
        BodyExactly(p, v, None);
        StaticPlace(p, v);
      }
    }
  }

  /** A node without a tag is filled in by its static type. */
  lemma StaticPlace(p: Program, v: Val)
    requires WellFormed(p) && WellTyped(p, v) && !v.Iface? && !IsZero(p, v)
    ensures RoundTrips(p, v) <==> BodyRoundTrips(p, v, None)
  {
    if Body(p, v).Done? {
      var n := Body(p, v).value;
      assert n.tag == None;
      assert n == n.(tag := None);
      var r := Fill(p, n, TypeOf(v));
      assert Unmarshal(p, n, TypeOf(v)) == r;
      assert r.Done? ==> Place(p, Some(n), TypeOf(v)) == Assign(p, TypeOf(v), Some(r.value));
    }
  }

  lemma {:induction false} BodyExactly(p: Program, v: Val, tag: Option<Tag>)
    requires WellFormed(p) && WellTyped(p, v) && !v.Iface?
    ensures BodyRoundTrips(p, v, tag) <==> Restorable(p, v) && !IsNil(v)
    decreases v, 0
  {
    match v
    case Scalar(_, _) =>
    case Struct(name, fields) =>
      forall i | 0 <= i < |fields|
        ensures RoundTrips(p, fields[i]) <==> Restorable(p, fields[i])
      {
        RoundTripExactly(p, fields[i]);
      }
      StructExactly(p, v, tag);
    case Slice(_, _, items) =>
      forall i | 0 <= i < |items|
        ensures RoundTrips(p, items[i]) <==> Restorable(p, items[i])
      {
        RoundTripExactly(p, items[i]);
      }
      SliceExactly(p, v, tag);
    case Array(_, items) =>
      forall i | 0 <= i < |items|
        ensures RoundTrips(p, items[i]) <==> Restorable(p, items[i])
      {
        RoundTripExactly(p, items[i]);
      }
      ArrayExactly(p, v, tag);
    case Map(_, _, _, entries) =>
      forall k | k in entries
        ensures RoundTrips(p, entries[k]) <==> Restorable(p, entries[k])
      {
        RoundTripExactly(p, entries[k]);
      }
      MapExactly(p, v, tag);
  }

  lemma SliceExactly(p: Program, v: Val, tag: Option<Tag>)
    requires WellFormed(p) && WellTyped(p, v) && v.Slice?
    requires forall i :: 0 <= i < |v.items| ==> (RoundTrips(p, v.items[i]) <==> Restorable(p, v.items[i]))
    ensures BodyRoundTrips(p, v, tag) <==> Restorable(p, v) && !v.isNil
  {
    if Body(p, v).Done? {
      var n := Body(p, v).value.(tag := tag);
      var r := Fill(p, n, TypeOf(v));
      if BodyRoundTrips(p, v, tag) {
        forall i | 0 <= i < |v.items|
          ensures RoundTrips(p, v.items[i])
        {
          assert r.value.items[i] == Place(p, n.sliceValues[i], v.elem).value;
        }
      }
      if Restorable(p, v) && !v.isNil {
        assert forall i :: 0 <= i < |v.items| ==> RoundTrips(p, v.items[i]);
        assert r.value.items == v.items;
      }
    }
  }

  lemma ArrayExactly(p: Program, v: Val, tag: Option<Tag>)
    requires WellFormed(p) && WellTyped(p, v) && v.Array?
    requires forall i :: 0 <= i < |v.items| ==> (RoundTrips(p, v.items[i]) <==> Restorable(p, v.items[i]))
    ensures BodyRoundTrips(p, v, tag) <==> Restorable(p, v)
  {
    if Body(p, v).Done? {
      var n := Body(p, v).value.(tag := tag);
      var r := Fill(p, n, TypeOf(v));
      if BodyRoundTrips(p, v, tag) {
        forall i | 0 <= i < |v.items|
          ensures RoundTrips(p, v.items[i])
        {
          assert r.value.items[i] == Place(p, n.sliceValues[i], v.elem).value;
        }
      }
      if Restorable(p, v) {
        assert forall i :: 0 <= i < |v.items| ==> RoundTrips(p, v.items[i]);
        assert r.value.items == v.items;
      }
    }
  }

  lemma MapExactly(p: Program, v: Val, tag: Option<Tag>)
    requires WellFormed(p) && WellTyped(p, v) && v.Map?
    requires forall k :: k in v.entries ==> (RoundTrips(p, v.entries[k]) <==> Restorable(p, v.entries[k]))
    ensures BodyRoundTrips(p, v, tag) <==> Restorable(p, v) && !v.isNil
  {
    if Body(p, v).Done? {
      var n := Body(p, v).value.(tag := tag);
      var r := Fill(p, n, TypeOf(v));
      if BodyRoundTrips(p, v, tag) {
        forall k | k in v.entries
          ensures RoundTrips(p, v.entries[k])
        {
          assert r.value.entries[k] == Place(p, n.mapValues[k], v.elem).value;
        }
      }
      if Restorable(p, v) && !v.isNil {
        assert forall k :: k in v.entries ==> RoundTrips(p, v.entries[k]);
        assert r.value.entries == v.entries;
      }
    }
  }

  /** What the field table holds after the first `n` fields. */
  lemma {:induction false} MarshalledFields(p: Program, v: Val, decls: seq<Field>, n: nat)
    requires v.Struct? && |decls| == |v.fields| && n <= |decls|
    requires forall i, j :: 0 <= i < j < |decls| ==> decls[i].name != decls[j].name
    ensures var r := MarshalFields(p, v, decls, n);
      && (r.Done? <==> forall i :: 0 <= i < n && decls[i].exported ==> Marshal(p, v.fields[i]).Done?)
      && (r.Done? ==> forall i :: 0 <= i < |decls| ==>
           (decls[i].name in r.value <==> i < n && decls[i].exported) &&
           (i < n && decls[i].exported ==> r.value[decls[i].name] == Marshal(p, v.fields[i]).value))
  {
    if n > 0 {
      MarshalledFields(p, v, decls, n - 1);
    }
  }

  lemma StructExactly(p: Program, v: Val, tag: Option<Tag>)
    requires WellFormed(p) && WellTyped(p, v) && v.Struct?
    requires forall i :: 0 <= i < |v.fields| ==> (RoundTrips(p, v.fields[i]) <==> Restorable(p, v.fields[i]))
    ensures BodyRoundTrips(p, v, tag) <==> Restorable(p, v)
  {
    var decls := p.structs[v.name];
    MarshalledFields(p, v, decls, |decls|);
    forall i | 0 <= i < |decls|
      ensures IsZero(p, v.fields[i]) <==> v.fields[i] == Zero(p, decls[i].ty)
    {
      ZeroUnique(p, v.fields[i]);
    }
    if Body(p, v).Done? {
      var n := Body(p, v).value.(tag := tag);
      var r := Fill(p, n, TypeOf(v));
      if BodyRoundTrips(p, v, tag) {
        forall i | 0 <= i < |decls|
          ensures if decls[i].exported then RoundTrips(p, v.fields[i]) else IsZero(p, v.fields[i])
        {
          assert r.value.fields[i] == v.fields[i];
        }
      }
      if Restorable(p, v) {
        assert forall i :: 0 <= i < |decls| && decls[i].exported ==> RoundTrips(p, v.fields[i]);
        assert r.Done?;
        assert r.value.fields == v.fields;
      }
    }
  }

  lemma {:induction false} InterfaceExactly(p: Program, d: Val)
    requires WellFormed(p) && WellTyped(p, d) && !d.Iface?
    ensures RoundTrips(p, Iface(Some(d))) <==> FitsInterface(p, d) && Restorable(p, d)
    decreases d, 1
  {
    var tag := DynamicTag(p, d);
    if tag.Done? {
      BodyExactly(p, d, Some(tag.value));
      if Body(p, d).Done? {
        var n := Body(p, d).value.(tag := Some(tag.value));
        assert RoundTrips(p, Iface(Some(d))) <==> Unmarshal(p, n, AnyTy) == Done(d);
        InterfaceBody(p, d, n);
      }
    } else {
      match d
      case Slice(elem, _, _) => RestoreExtracted(p, elem);
      case _ =>
    }
  }

  lemma InterfaceBody(p: Program, d: Val, n: Node)
    requires WellFormed(p) && WellTyped(p, d) && !d.Iface?
    requires DynamicTag(p, d).Done? && n.tag == Some(DynamicTag(p, d).value)
    ensures Unmarshal(p, n, AnyTy) == Done(d) <==>
      (FitsInterface(p, d) || (d.Slice? && d.isNil && Nameable(p, d.elem))) && Fill(p, n, TypeOf(d)) == Done(d)
  {
    match d
    case Slice(elem, _, _) => RestoreExtracted(p, elem);
    case _ =>
  }

  /** Only the same value has the same text in the same place. */
  lemma MarshalInjective(p: Program, v: Val, w: Val)
    requires WellFormed(p) && WellTyped(p, v) && WellTyped(p, w)
    requires Restorable(p, v) && Restorable(p, w)
    requires TypeOf(v) == TypeOf(w) && Marshal(p, v) == Marshal(p, w)
    ensures v == w
  {
    RoundTripExactly(p, v);
    RoundTripExactly(p, w);
  }

  /** A nil slice in an interface comes back as an empty slice that is not nil. */
  lemma NilSliceInInterface(p: Program, elem: Ty)
    requires WellFormed(p) && Nameable(p, elem) && Known(p, elem)
    ensures var v := Iface(Some(Slice(elem, true, [])));
      Marshal(p, v).Done? && Place(p, Marshal(p, v).value, AnyTy) == Done(Iface(Some(Slice(elem, false, []))))
  {
    RestoreExtracted(p, elem);
    var d := Slice(elem, true, []);
    assert DynamicTag(p, d).Done?;
    assert |d.items| == 0;
    assert Body(p, d).Done? && Body(p, d).value.sliceValues == [];
    var n := Marshal(p, Iface(Some(d))).value.value;
    assert RestoreType(p, n.tag.value) == Done(SliceTy(elem));
    assert Fill(p, n, SliceTy(elem)).value.items == [];
    assert Unmarshal(p, n, AnyTy) == Fill(p, n, SliceTy(elem));
  }

  /** An array in an interface comes back as a slice of the same elements. */
  lemma ArrayInInterface(p: Program, elem: Ty, items: seq<Val>)
    requires WellFormed(p) && Nameable(p, elem) && WellTyped(p, Array(elem, items))
    requires forall i :: 0 <= i < |items| ==> Restorable(p, items[i])
    ensures var v := Iface(Some(Array(elem, items)));
      Marshal(p, v).Done? && Place(p, Marshal(p, v).value, AnyTy) == Done(Iface(Some(Slice(elem, false, items))))
  {
    forall i | 0 <= i < |items|
      ensures RoundTrips(p, items[i])
    {
      RoundTripExactly(p, items[i]);
    }
    RestoreExtracted(p, elem);
    var d := Array(elem, items);
    var tag := DynamicTag(p, d).value;
    var n := Body(p, d).value.(tag := Some(tag));
    assert Marshal(p, Iface(Some(d))) == Done(Some(n));
    assert RestoreType(p, tag) == Done(SliceTy(elem));
    SliceFilled(p, n, elem, items);
  }

  lemma SliceFilled(p: Program, n: Node, elem: Ty, items: seq<Val>)
    requires WellFormed(p) && Known(p, elem) && |n.sliceValues| == |items|
    requires forall i :: 0 <= i < |items| ==> Place(p, n.sliceValues[i], elem) == Done(items[i])
    ensures Fill(p, n, SliceTy(elem)) == Done(Slice(elem, false, items))
  {
    assert Fill(p, n, SliceTy(elem)).value.items == items;
  }

  /** A map in an interface is written without its key type and cannot be read back. */
  lemma MapInInterface(p: Program, key: string, elem: Ty, entries: map<string, Val>)
    requires WellFormed(p) && Known(p, MapTy(key, elem))
    requires Marshal(p, Iface(Some(Map(key, elem, false, entries)))).Done?
    ensures Place(p, Marshal(p, Iface(Some(Map(key, elem, false, entries)))).value, AnyTy).Failed?
  {
  }

  // ---------------------------------------------------------------- what is written

  /** Nothing is written exactly for the zero value of the place: an empty interface, or a value that
      is not an interface and is the zero of its type. */
  lemma NothingWrittenExactly(p: Program, v: Val)
    requires WellFormed(p) && WellTyped(p, v)
    ensures Marshal(p, v) == Done(None) <==> v == Iface(None) || (!v.Iface? && v == Zero(p, TypeOf(v)))
  {
    if !v.Iface? {
      ZeroUnique(p, v);
    }
  }

  /** The tag names the type by its key and says nothing else. */
  ghost predicate ByKey(p: Program, tag: Tag, ty: Ty) {
    tag == EMPTY_TAG.(simpleType := tag.simpleType) && tag.simpleType in p.m && p.m[tag.simpleType] == ty
  }

  /** Maps and lists are spelled out, everything else goes by its key. */
  ghost predicate Spells(p: Program, tag: Tag, ty: Ty) {
    match ty
    case MapTy(key, elem) =>
      && tag == EMPTY_TAG.(mapKeyType := tag.mapKeyType, mapValueType := tag.mapValueType)
      && tag.mapKeyType.Some? && ByKey(p, tag.mapKeyType.value, ScalarTy(key))
      && tag.mapValueType.Some? && Spells(p, tag.mapValueType.value, elem)
    case SliceTy(elem) => SpellsList(p, tag) && Spells(p, tag.sliceValueType.value, elem)
    case ArrayTy(_, elem) => SpellsList(p, tag) && Spells(p, tag.sliceValueType.value, elem)
    case _ => ByKey(p, tag, ty)
  }

  predicate SpellsList(p: Program, tag: Tag) {
    tag == EMPTY_TAG.(sliceValueType := tag.sliceValueType) && tag.sliceValueType.Some?
  }

  lemma {:induction false} ExtractedAs(p: Program, ty: Ty, tag: Tag)
    requires WellFormed(p)
    ensures ExtractType(p, ty) == Done(tag) <==> Spells(p, tag, ty)
    decreases ty
  {
    match ty
    case MapTy(key, elem) =>
      if tag.mapKeyType.Some? && tag.mapValueType.Some? {
        KeyedAs(p, ScalarTy(key), tag.mapKeyType.value);
        ExtractedAs(p, elem, tag.mapValueType.value);
      }
    case SliceTy(elem) =>
      if tag.sliceValueType.Some? {
        ExtractedAs(p, elem, tag.sliceValueType.value);
      }
    case ArrayTy(_, elem) =>
      if tag.sliceValueType.Some? {
        ExtractedAs(p, elem, tag.sliceValueType.value);
      }
    case _ => KeyedAs(p, ty, tag);
  }

  lemma KeyedAs(p: Program, ty: Ty, tag: Tag)
    requires WellFormed(p)
    ensures ExtractKey(p, ty) == Done(tag) <==> ByKey(p, tag, ty)
  {
  }

  /** What an interface holds is tagged by its type, a struct by a key of its own; of the types a map
      is made of only that of its values is told. */
  ghost predicate Heads(p: Program, tag: Tag, v: Val) {
    match v
    case Scalar(kind, _) => ByKey(p, tag, ScalarTy(kind))
    case Struct(name, _) =>
      && tag == EMPTY_TAG.(structType := tag.structType)
      && tag.structType in p.m && p.m[tag.structType] == StructTy(name)
    case Map(key, elem, _, _) =>
      && tag == EMPTY_TAG.(mapValueType := tag.mapValueType)
      && tag.mapValueType.Some? && Spells(p, tag.mapValueType.value, elem)
      && (exists name :: name in p.m && p.m[name] == ScalarTy(key))
    case Slice(elem, _, _) => SpellsList(p, tag) && Spells(p, tag.sliceValueType.value, elem)
    case Array(elem, _) => SpellsList(p, tag) && Spells(p, tag.sliceValueType.value, elem)
    case Iface(_) => false
  }

  lemma HeadedAs(p: Program, v: Val, tag: Tag)
    requires WellFormed(p) && !v.Iface?
    ensures DynamicTag(p, v) == Done(tag) <==> Heads(p, tag, v)
  {
    match v
    case Scalar(kind, _) => KeyedAs(p, ScalarTy(kind), tag);
    case Struct(_, _) =>
    case Map(key, elem, _, _) =>
      if tag.mapValueType.Some? {
        ExtractedAs(p, elem, tag.mapValueType.value);
      }
      MapKeyRegistered(p, key);
    case Slice(elem, _, _) =>
      if tag.sliceValueType.Some? {
        ExtractedAs(p, elem, tag.sliceValueType.value);
      }
    case Array(elem, _) =>
      if tag.sliceValueType.Some? {
        ExtractedAs(p, elem, tag.sliceValueType.value);
      }
  }

  lemma MapKeyRegistered(p: Program, key: string)
    requires WellFormed(p)
    ensures ExtractKey(p, ScalarTy(key)).Done? <==> exists name :: name in p.m && p.m[name] == ScalarTy(key)
  {
    if ScalarTy(key) in p.rm {
      assert p.rm[ScalarTy(key)] in p.m;
    }
  }

  /** `node` is what is written for a place that holds `v`: nothing for the zero of the place, a tag
      for what an interface holds and for nothing else, and the same for all parts. */
  ghost predicate WrittenAs(p: Program, v: Val, node: Option<Node>)
    requires WellFormed(p) && WellTyped(p, v)
    decreases v, 1
  {
    && (node.None? <==> v == Zero(p, TypeOf(v)))
    && (node.Some? ==> (node.value.tag.Some? <==> v.Iface?))
    && (node.Some? && v.Iface? ==>
          v.dyn.Some? && Heads(p, node.value.tag.value, v.dyn.value) && PartsWritten(p, v.dyn.value, node.value))
    && (node.Some? && !v.Iface? ==> PartsWritten(p, v, node.value))
  }

  /** The node holds the text of a scalar, the elements of a list in order, the values of a map by
      their keys or the exported fields of a struct by their names, and nothing else. */
  ghost predicate PartsWritten(p: Program, v: Val, n: Node)
    requires WellFormed(p) && WellTyped(p, v)
    decreases v, 0
  {
    match v
    case Scalar(_, text) => n.json == text && n.mapValues == map[] && n.sliceValues == []
    case Struct(name, fields) =>
      var decls := p.structs[name];
      && n.json == "" && n.sliceValues == []
      && (forall key :: key in n.mapValues ==>
            exists i :: 0 <= i < |decls| && decls[i].exported && decls[i].name == key)
      && (forall i :: 0 <= i < |decls| && decls[i].exported ==>
            decls[i].name in n.mapValues && WrittenAs(p, fields[i], n.mapValues[decls[i].name]))
    case Map(_, _, _, entries) =>
      && n.json == "" && n.sliceValues == [] && n.mapValues.Keys == entries.Keys
      && forall k :: k in entries ==> WrittenAs(p, entries[k], n.mapValues[k])
    case Slice(_, _, items) => ListWritten(p, v, items, n)
    case Array(_, items) => ListWritten(p, v, items, n)
    case Iface(_) => false
  }

  ghost predicate ListWritten(p: Program, v: Val, items: seq<Val>, n: Node)
    requires WellFormed(p)
    requires forall i :: 0 <= i < |items| ==> WellTyped(p, items[i])
    requires (v.Slice? || v.Array?) && v.items == items
    decreases v, 0, 0
  {
    && n.json == "" && n.mapValues == map[] && |n.sliceValues| == |items|
    && forall i :: 0 <= i < |items| ==> WrittenAs(p, items[i], n.sliceValues[i])
  }

  /** Whatever is written is written as it should be, at every depth. */
  lemma {:induction false} Written(p: Program, v: Val)
    requires WellFormed(p) && WellTyped(p, v) && Marshal(p, v).Done?
    ensures WrittenAs(p, v, Marshal(p, v).value)
    decreases v, 1
  {
    if v.Iface? {
      if v.dyn.Some? {
        HeadedAs(p, v.dyn.value, DynamicTag(p, v.dyn.value).value);
        PartsOf(p, v.dyn.value, Some(DynamicTag(p, v.dyn.value).value));
      }
    } else {
      ZeroUnique(p, v);
      if !IsZero(p, v) {
        PartsOf(p, v, None);
        BodyUntagged(p, v);
      }
    }
  }

  lemma BodyUntagged(p: Program, v: Val)
    requires Body(p, v).Done?
    ensures Body(p, v).value.tag == None && Body(p, v).value.(tag := None) == Body(p, v).value
  {
  }

  lemma {:induction false} PartsOf(p: Program, v: Val, tag: Option<Tag>)
    requires WellFormed(p) && WellTyped(p, v) && !v.Iface? && Body(p, v).Done?
    ensures PartsWritten(p, v, Body(p, v).value.(tag := tag))
    decreases v, 0
  {
    match v
    case Scalar(_, _) =>
    case Struct(name, fields) =>
      MarshalledFields(p, v, p.structs[name], |fields|);
      forall i | 0 <= i < |fields| && p.structs[name][i].exported
        ensures WrittenAs(p, fields[i], Marshal(p, fields[i]).value)
      {
        Written(p, fields[i]);
      }
      FieldNames(p, v, p.structs[name], |fields|);
    case Slice(_, _, items) =>
      forall i | 0 <= i < |items|
        ensures WrittenAs(p, items[i], Marshal(p, items[i]).value)
      {
        Written(p, items[i]);
      }
    case Array(_, items) =>
      forall i | 0 <= i < |items|
        ensures WrittenAs(p, items[i], Marshal(p, items[i]).value)
      {
        Written(p, items[i]);
      }
    case Map(_, _, _, entries) =>
      forall k | k in entries
        ensures WrittenAs(p, entries[k], Marshal(p, entries[k]).value)
      {
        Written(p, entries[k]);
      }
  }

  lemma {:induction false} FieldNames(p: Program, v: Val, decls: seq<Field>, n: nat)
    requires v.Struct? && |decls| == |v.fields| && n <= |decls|
    requires MarshalFields(p, v, decls, n).Done?
    ensures forall key :: key in MarshalFields(p, v, decls, n).value ==>
      exists i :: 0 <= i < |decls| && decls[i].exported && decls[i].name == key
  {
    if n > 0 {
      FieldNames(p, v, decls, n - 1);
      assert decls[n - 1].exported ==> decls[n - 1].name == decls[n - 1].name;
    }
  }

  // ---------------------------------------------------------------- when something cannot be written

  /** Every scalar and struct type in a type is registered. */
  predicate Registered(p: Program, ty: Ty) {
    match ty
    case MapTy(key, elem) => ScalarTy(key) in p.rm && Registered(p, elem)
    case SliceTy(elem) => Registered(p, elem)
    case ArrayTy(_, elem) => Registered(p, elem)
    case _ => ty in p.rm
  }

  lemma {:induction false} ExtractedExactly(p: Program, ty: Ty)
    ensures ExtractType(p, ty).Done? <==> Registered(p, ty)
  {
    match ty
    case MapTy(_, elem) => ExtractedExactly(p, elem);
    case SliceTy(elem) => ExtractedExactly(p, elem);
    case ArrayTy(_, elem) => ExtractedExactly(p, elem);
    case _ =>
  }

  lemma TaggedExactly(p: Program, v: Val)
    requires !v.Iface?
    ensures DynamicTag(p, v).Done? <==> Registered(p, TypeOf(v))
  {
    match v
    case Map(_, elem, _, _) => ExtractedExactly(p, elem);
    case Slice(elem, _, _) => ExtractedExactly(p, elem);
    case Array(elem, _) => ExtractedExactly(p, elem);
    case _ =>
  }

  /** Every value in an interface, outside unexported fields, is of a registered type. */
  ghost predicate Writable(p: Program, v: Val)
    requires WellTyped(p, v)
  {
    match v
    case Scalar(_, _) => true
    case Struct(name, fields) =>
      forall i :: 0 <= i < |fields| && p.structs[name][i].exported ==> Writable(p, fields[i])
    case Slice(_, _, items) => forall i :: 0 <= i < |items| ==> Writable(p, items[i])
    case Array(_, items) => forall i :: 0 <= i < |items| ==> Writable(p, items[i])
    case Map(_, _, _, entries) => forall k :: k in entries ==> Writable(p, entries[k])
    case Iface(dyn) => dyn.Some? ==> Registered(p, TypeOf(dyn.value)) && Writable(p, dyn.value)
  }

  lemma {:induction false} ZeroWritable(p: Program, v: Val)
    requires WellTyped(p, v) && IsZero(p, v)
    ensures Writable(p, v)
  {
    match v
    case Struct(_, fields) =>
      forall i | 0 <= i < |fields|
        ensures Writable(p, fields[i])
      {
        ZeroWritable(p, fields[i]);
      }
    case Array(_, items) =>
      forall i | 0 <= i < |items|
        ensures Writable(p, items[i])
      {
        ZeroWritable(p, items[i]);
      }
    case _ =>
  }

  /** A value is written exactly when every interface in it holds a value of a registered type. */
  lemma {:induction false} WrittenExactly(p: Program, v: Val)
    requires WellFormed(p) && WellTyped(p, v)
    ensures Marshal(p, v).Done? <==> Writable(p, v)
    decreases v, 1
  {
    if v.Iface? {
      if v.dyn.Some? {
        TaggedExactly(p, v.dyn.value);
        BodyWrittenExactly(p, v.dyn.value);
      }
    } else if IsZero(p, v) {
      ZeroWritable(p, v);
    } else {
      BodyWrittenExactly(p, v);
    }
  }

  lemma {:induction false} BodyWrittenExactly(p: Program, v: Val)
    requires WellFormed(p) && WellTyped(p, v) && !v.Iface?
    ensures Body(p, v).Done? <==> Writable(p, v)
    decreases v, 0
  {
    match v
    case Scalar(_, _) =>
    case Struct(name, fields) =>
      MarshalledFields(p, v, p.structs[name], |fields|);
      forall i | 0 <= i < |fields|
        ensures Marshal(p, fields[i]).Done? <==> Writable(p, fields[i])
      {
        WrittenExactly(p, fields[i]);
      }
    case Slice(_, _, items) =>
      forall i | 0 <= i < |items|
        ensures Marshal(p, items[i]).Done? <==> Writable(p, items[i])
      {
        WrittenExactly(p, items[i]);
      }
    case Array(_, items) =>
      forall i | 0 <= i < |items|
        ensures Marshal(p, items[i]).Done? <==> Writable(p, items[i])
      {
        WrittenExactly(p, items[i]);
      }
    case Map(_, _, _, entries) =>
      forall k | k in entries
        ensures Marshal(p, entries[k]).Done? <==> Writable(p, entries[k])
      {
        WrittenExactly(p, entries[k]);
      }
  }

  // ---------------------------------------------------------------- what is read fits its place

  /** Whatever node is read into a place, from wherever it comes: what ends up there has the static
      type of the place, and so have all its parts. */
  lemma {:induction false} PlaceTyped(p: Program, node: Option<Node>, ty: Ty)
    requires WellFormed(p) && Known(p, ty) && Place(p, node, ty).Done?
    ensures WellTyped(p, Place(p, node, ty).value) && TypeOf(Place(p, node, ty).value) == ty
    decreases node, 2
  {
    match node
    case None => ZeroIsZero(p, ty);
    case Some(n) => UnmarshalTyped(p, n, ty);
  }

  lemma {:induction false} UnmarshalTyped(p: Program, n: Node, ty: Ty)
    requires WellFormed(p) && Known(p, ty) && Unmarshal(p, n, ty).Done?
    ensures WellTyped(p, Unmarshal(p, n, ty).value) && !Unmarshal(p, n, ty).value.Iface?
    decreases n, 1
  {
    match n.tag
    case None => FillTyped(p, n, ty);
    case Some(tag) =>
      if tag.simpleType != "" {
        FillTyped(p, n, p.m[tag.simpleType]);
      } else if tag.structType != "" {
        FillTyped(p, n, p.m[tag.structType]);
      } else {
        RestoredKnown(p, tag);
        FillTyped(p, n, RestoreType(p, tag).value);
      }
  }

  lemma {:induction false} FillTyped(p: Program, n: Node, ty: Ty)
    requires WellFormed(p) && Known(p, ty) && Fill(p, n, ty).Done?
    ensures WellTyped(p, Fill(p, n, ty).value) && TypeOf(Fill(p, n, ty).value) == ty
    decreases n, 0
  {
    match ty
    case ScalarTy(_) =>
    case StructTy(name) =>
      var decls := p.structs[name];
      var r := Fill(p, n, ty).value;
      forall i | 0 <= i < |decls|
        ensures WellTyped(p, r.fields[i]) && TypeOf(r.fields[i]) == decls[i].ty
      {
        if decls[i].name in n.mapValues {
          PlaceTyped(p, n.mapValues[decls[i].name], decls[i].ty);
        } else {
          ZeroIsZero(p, decls[i].ty);
        }
      }
    case MapTy(_, elem) =>
      forall k | k in n.mapValues
        ensures WellTyped(p, Place(p, n.mapValues[k], elem).value)
        ensures TypeOf(Place(p, n.mapValues[k], elem).value) == elem
      {
        PlaceTyped(p, n.mapValues[k], elem);
      }
    case SliceTy(elem) =>
      forall i | 0 <= i < |n.sliceValues|
        ensures WellTyped(p, Place(p, n.sliceValues[i], elem).value)
        ensures TypeOf(Place(p, n.sliceValues[i], elem).value) == elem
      {
        PlaceTyped(p, n.sliceValues[i], elem);
      }
    case ArrayTy(length, elem) =>
      ZeroIsZero(p, elem);
      forall i | 0 <= i < |n.sliceValues|
        ensures WellTyped(p, Place(p, n.sliceValues[i], elem).value)
        ensures TypeOf(Place(p, n.sliceValues[i], elem).value) == elem
      {
        PlaceTyped(p, n.sliceValues[i], elem);
      }
  }

  // ---------------------------------------------------------------- what is refused

  /** More elements than an array has room for are refused; fewer leave the rest zero. */
  lemma ElementsInRoom(p: Program, n: Node, length: nat, elem: Ty)
    requires WellFormed(p) && Known(p, elem)
    requires forall i :: 0 <= i < |n.sliceValues| ==> Place(p, n.sliceValues[i], elem).Done?
    ensures Fill(p, n, ArrayTy(length, elem)).Done? <==> |n.sliceValues| <= length
    ensures Fill(p, n, ArrayTy(length, elem)).Done? ==>
      forall i :: |n.sliceValues| <= i < length ==> Fill(p, n, ArrayTy(length, elem)).value.items[i] == Zero(p, elem)
  {
  }

  /** A value for a field that is not exported is refused; one for no field at all is passed over. */
  lemma FieldsKnown(p: Program, n: Node, name: string)
    requires WellFormed(p) && Known(p, StructTy(name))
    requires forall i :: 0 <= i < |p.structs[name]| && p.structs[name][i].name in n.mapValues ==>
      Place(p, n.mapValues[p.structs[name][i].name], p.structs[name][i].ty).Done?
    ensures Fill(p, n, StructTy(name)).Done? <==>
      forall i :: 0 <= i < |p.structs[name]| && !p.structs[name][i].exported ==> p.structs[name][i].name !in n.mapValues
  {
  }

  /** A node that names a type nobody registered cannot be read, nor one whose type is not that of
      the place, unless the place is an interface. */
  lemma ForeignTypesRefused(p: Program, n: Node, ty: Ty, key: string)
    requires WellFormed(p) && Known(p, ty) && key != ""
    ensures key !in p.m ==> Place(p, Some(n.(tag := Some(EMPTY_TAG.(simpleType := key)))), ty).Failed?
    ensures key !in p.m ==> Place(p, Some(n.(tag := Some(EMPTY_TAG.(structType := key)))), ty).Failed?
    ensures key in p.m && p.m[key] != ty && !ty.AnyTy? ==>
      Place(p, Some(n.(tag := Some(EMPTY_TAG.(simpleType := key)))), ty).Failed? &&
      Place(p, Some(n.(tag := Some(EMPTY_TAG.(structType := key)))), ty).Failed?
  {
    if key in p.m && p.m[key] != ty && !ty.AnyTy? {
      var named := n.(tag := Some(EMPTY_TAG.(simpleType := key)));
      var record := n.(tag := Some(EMPTY_TAG.(structType := key)));
      if Fill(p, named, p.m[key]).Done? {
        FillTyped(p, named, p.m[key]);
      }
      if Fill(p, record, p.m[key]).Done? {
        FillTyped(p, record, p.m[key]);
      }
    }
  }
}
