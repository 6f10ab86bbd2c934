/**
 What a node stands for, described without the reader: which type it names, and which value of
 that type it holds. The reader gives exactly this value, for nodes from anywhere, and nothing
 where there is none.
 */
module SerializationReading {

  import opened Wrappers
  import opened Serialization
  import P = SerializationProperties

  // ---------------------------------------------------------------- types

  /** A type by its key or, for a map or a list, by the types it is made of; the first of these that
      is given counts. */
  ghost predicate Names(p: Program, tag: Tag, ty: Ty) {
    if tag.simpleType != "" then tag.simpleType in p.m && p.m[tag.simpleType] == ty
    else if tag.structType != "" then tag.structType in p.m && p.m[tag.structType] == ty
    else if tag.mapKeyType.Some? then
      && tag.mapValueType.Some? && ty.MapTy?
      && Names(p, tag.mapKeyType.value, ScalarTy(ty.key)) && Names(p, tag.mapValueType.value, ty.elem)
    else tag.sliceValueType.Some? && ty.SliceTy? && Names(p, tag.sliceValueType.value, ty.elem)
  }

  lemma {:induction false} RestoredExactly(p: Program, tag: Tag, ty: Ty)
    ensures RestoreType(p, tag) == Done(ty) <==> Names(p, tag, ty)
    decreases tag
  {
    if tag.simpleType == "" && tag.structType == "" {
      if tag.mapKeyType.Some? {
        if tag.mapValueType.Some? {
          KeyNamed(p, tag.mapKeyType.value);
          if ty.MapTy? {
            RestoredExactly(p, tag.mapKeyType.value, ScalarTy(ty.key));
            RestoredExactly(p, tag.mapValueType.value, ty.elem);
          }
        }
      } else if tag.sliceValueType.Some? && ty.SliceTy? {
        RestoredExactly(p, tag.sliceValueType.value, ty.elem);
      }
    }
  }

  lemma KeyNamed(p: Program, tag: Tag)
    ensures RestoreType(p, tag).Done? && RestoreType(p, tag).value.ScalarTy? ==>
      RestoreType(p, tag) == Done(ScalarTy(RestoreType(p, tag).value.kind))
  {
  }

  /** The type of a node: the one its tag names, or that of its place. */
  ghost predicate Says(p: Program, tag: Option<Tag>, place: Ty, ty: Ty) {
    match tag
    case None => ty == place
    case Some(t) =>
      && Names(p, t, ty)
      && (t.simpleType != "" ==> ty.ScalarTy?)
      && (t.simpleType == "" && t.structType != "" ==> ty.StructTy?)
  }

  // ---------------------------------------------------------------- values

  /** What stands in a place of this type. */
  ghost predicate Stands(p: Program, node: Option<Node>, place: Ty, v: Val)
    requires WellFormed(p) && Known(p, place)
    decreases node, 2
  {
    match node
    case None => v == Zero(p, place)
    case Some(n) =>
      if place.AnyTy? then v.Iface? && v.dyn.Some? && Carries(p, n, place, v.dyn.value)
      else TypeOf(v) == place && Carries(p, n, place, v)
  }

  ghost predicate Carries(p: Program, n: Node, place: Ty, v: Val)
    requires WellFormed(p)
    decreases n, 1
  {
    Known(p, TypeOf(v)) && Says(p, n.tag, place, TypeOf(v)) && Holds(p, n, v)
  }

  /** The text of a scalar, the elements of a list in order, the entries of a map or the fields of a
      struct by their names; what is missing is zero. */
  ghost predicate Holds(p: Program, n: Node, v: Val)
    requires WellFormed(p) && Known(p, TypeOf(v))
    decreases n, 0
  {
    match v
    case Scalar(_, text) => text == n.json
    case Struct(name, fields) =>
      var decls := p.structs[name];
      && |fields| == |decls|
      && forall i :: 0 <= i < |decls| ==>
           if decls[i].name in n.mapValues
           then decls[i].exported && Stands(p, n.mapValues[decls[i].name], decls[i].ty, fields[i])
           else fields[i] == Zero(p, decls[i].ty)
    case Map(_, elem, isNil, entries) =>
      && !isNil && entries.Keys == n.mapValues.Keys
      && forall k :: k in entries ==> Stands(p, n.mapValues[k], elem, entries[k])
    case Slice(elem, isNil, items) =>
      && !isNil && |items| == |n.sliceValues|
      && forall i :: 0 <= i < |items| ==> Stands(p, n.sliceValues[i], elem, items[i])
    case Array(elem, items) =>
      && |n.sliceValues| <= |items|
      && forall i :: 0 <= i < |items| ==>
           if i < |n.sliceValues| then Stands(p, n.sliceValues[i], elem, items[i]) else items[i] == Zero(p, elem)
    case Iface(_) => false
  }

  /** A place is filled exactly with what stands there. */
  lemma {:induction false} PlacedExactly(p: Program, node: Option<Node>, place: Ty, v: Val)
    requires WellFormed(p) && Known(p, place)
    ensures Place(p, node, place) == Done(v) <==> Stands(p, node, place, v)
    decreases node, 2
  {
    match node
    case None =>
    case Some(n) =>
      if place.AnyTy? {
        if v.Iface? && v.dyn.Some? {
          UnmarshalledExactly(p, n, place, v.dyn.value);
        }
      } else {
        UnmarshalledExactly(p, n, place, v);
      }
  }

  /** The reader gives exactly what a node carries. */
  lemma {:induction false} UnmarshalledExactly(p: Program, n: Node, place: Ty, v: Val)
    requires WellFormed(p) && Known(p, place)
    ensures Unmarshal(p, n, place) == Done(v) <==> Carries(p, n, place, v)
    decreases n, 1
  {
    match n.tag
    case None =>
      FilledExactly(p, n, place, v);
    case Some(tag) =>
      RestoredExactly(p, tag, TypeOf(v));
      if RestoreType(p, tag).Done? {
        var t := RestoreType(p, tag).value;
        RestoredKnown(p, tag);
        FilledExactly(p, n, t, v);
        TagDecides(p, n, tag, place, t);
        TagCarries(p, n, tag, place, t, v);
      } else {
        NoType(p, n, tag, place);
      }
  }

  lemma TagCarries(p: Program, n: Node, tag: Tag, place: Ty, t: Ty, v: Val)
    requires WellFormed(p) && n.tag == Some(tag) && Known(p, t) && (Names(p, tag, TypeOf(v)) <==> TypeOf(v) == t)
    ensures Carries(p, n, place, v) <==>
      && TypeOf(v) == t && Holds(p, n, v)
      && (tag.simpleType != "" ==> t.ScalarTy?)
      && (tag.simpleType == "" && tag.structType != "" ==> t.StructTy?)
  {
  }

  lemma NoType(p: Program, n: Node, tag: Tag, place: Ty)
    requires WellFormed(p) && Known(p, place) && n.tag == Some(tag) && RestoreType(p, tag).Failed?
    ensures Unmarshal(p, n, place).Failed?
  {
  }

  /** A node with a tag is read as the type the tag names, if it may name it there. */
  lemma TagDecides(p: Program, n: Node, tag: Tag, place: Ty, t: Ty)
    requires WellFormed(p) && Known(p, place) && n.tag == Some(tag) && RestoreType(p, tag) == Done(t) && Known(p, t)
    ensures Unmarshal(p, n, place) ==
      if (tag.simpleType != "" && !t.ScalarTy?) || (tag.simpleType == "" && tag.structType != "" && !t.StructTy?)
      then Failed else Fill(p, n, t)
  {
  }

  lemma {:induction false} FilledExactly(p: Program, n: Node, ty: Ty, v: Val)
    requires WellFormed(p) && Known(p, ty)
    ensures Fill(p, n, ty) == Done(v) <==> TypeOf(v) == ty && Holds(p, n, v)
    decreases n, 0
  {
    if Fill(p, n, ty).Done? {
      P.FillTyped(p, n, ty);
    }
    if TypeOf(v) == ty {
      match v
      case Struct(name, fields) =>
        forall i | 0 <= i < |fields| && i < |p.structs[name]| && p.structs[name][i].name in n.mapValues
          ensures Place(p, n.mapValues[p.structs[name][i].name], p.structs[name][i].ty) == Done(fields[i]) <==>
            Stands(p, n.mapValues[p.structs[name][i].name], p.structs[name][i].ty, fields[i])
        {
          PlacedExactly(p, n.mapValues[p.structs[name][i].name], p.structs[name][i].ty, fields[i]);
        }
        StructFilled(p, n, v);
      case Map(_, elem, isNil, entries) =>
        forall k | k in entries && k in n.mapValues
          ensures Place(p, n.mapValues[k], elem) == Done(entries[k]) <==> Stands(p, n.mapValues[k], elem, entries[k])
        {
          PlacedExactly(p, n.mapValues[k], elem, entries[k]);
        }
        MapFilled(p, n, v);
      case Slice(elem, isNil, items) =>
        forall i | 0 <= i < |items| && i < |n.sliceValues|
          ensures Place(p, n.sliceValues[i], elem) == Done(items[i]) <==> Stands(p, n.sliceValues[i], elem, items[i])
        {
          PlacedExactly(p, n.sliceValues[i], elem, items[i]);
        }
        SliceFilled(p, n, v);
      case Array(elem, items) =>
        forall i | 0 <= i < |items| && i < |n.sliceValues|
          ensures Place(p, n.sliceValues[i], elem) == Done(items[i]) <==> Stands(p, n.sliceValues[i], elem, items[i])
        {
          PlacedExactly(p, n.sliceValues[i], elem, items[i]);
        }
        ArrayFilled(p, n, v);
      case _ =>
    }
  }

  lemma StructFilled(p: Program, n: Node, v: Val)
    requires WellFormed(p) && Known(p, TypeOf(v)) && v.Struct?
    requires var decls := p.structs[v.name];
      forall i :: 0 <= i < |v.fields| && i < |decls| && decls[i].name in n.mapValues ==>
        (Place(p, n.mapValues[decls[i].name], decls[i].ty) == Done(v.fields[i]) <==>
         Stands(p, n.mapValues[decls[i].name], decls[i].ty, v.fields[i]))
    ensures Fill(p, n, TypeOf(v)) == Done(v) <==> Holds(p, n, v)
  {
    var decls, r := p.structs[v.name], Fill(p, n, TypeOf(v));
    if r == Done(v) {
      forall i | 0 <= i < |decls|
        ensures if decls[i].name in n.mapValues
                then decls[i].exported && Stands(p, n.mapValues[decls[i].name], decls[i].ty, v.fields[i])
                else v.fields[i] == Zero(p, decls[i].ty)
      {
        assert r.value.fields[i] == v.fields[i];
      }
    }
    if Holds(p, n, v) {
      forall i | 0 <= i < |decls| && decls[i].name in n.mapValues
        ensures decls[i].exported && Place(p, n.mapValues[decls[i].name], decls[i].ty) == Done(v.fields[i])
      {
      }
      assert r.Done?;
      assert r.value.fields == v.fields;
    }
  }

  lemma MapFilled(p: Program, n: Node, v: Val)
    requires WellFormed(p) && Known(p, TypeOf(v)) && v.Map?
    requires forall k :: k in v.entries && k in n.mapValues ==>
      (Place(p, n.mapValues[k], v.elem) == Done(v.entries[k]) <==> Stands(p, n.mapValues[k], v.elem, v.entries[k]))
    ensures Fill(p, n, TypeOf(v)) == Done(v) <==> Holds(p, n, v)
  {
    var r := Fill(p, n, TypeOf(v));
    if r == Done(v) {
      forall k | k in v.entries
        ensures k in n.mapValues && Stands(p, n.mapValues[k], v.elem, v.entries[k])
      {
        assert r.value.entries[k] == v.entries[k];
      }
      assert v.entries.Keys == n.mapValues.Keys;
    }
    if Holds(p, n, v) {
      forall k | k in n.mapValues
        ensures Place(p, n.mapValues[k], v.elem) == Done(v.entries[k])
      {
        assert k in v.entries.Keys;
      }
      assert r.Done?;
      assert r.value.entries == v.entries;
    }
  }

  lemma SliceFilled(p: Program, n: Node, v: Val)
    requires WellFormed(p) && Known(p, TypeOf(v)) && v.Slice?
    requires forall i :: 0 <= i < |v.items| && i < |n.sliceValues| ==>
      (Place(p, n.sliceValues[i], v.elem) == Done(v.items[i]) <==> Stands(p, n.sliceValues[i], v.elem, v.items[i]))
    ensures Fill(p, n, TypeOf(v)) == Done(v) <==> Holds(p, n, v)
  {
    var r := Fill(p, n, TypeOf(v));
    if r == Done(v) {
      forall i | 0 <= i < |v.items|
        ensures i < |n.sliceValues| && Stands(p, n.sliceValues[i], v.elem, v.items[i])
      {
        assert r.value.items[i] == v.items[i];
      }
    }
    if Holds(p, n, v) {
      assert forall i :: 0 <= i < |n.sliceValues| ==> Place(p, n.sliceValues[i], v.elem) == Done(v.items[i]);
      assert r.Done?;
      assert r.value.items == v.items;
    }
  }

  lemma ArrayFilled(p: Program, n: Node, v: Val)
    requires WellFormed(p) && Known(p, TypeOf(v)) && v.Array?
    requires forall i :: 0 <= i < |v.items| && i < |n.sliceValues| ==>
      (Place(p, n.sliceValues[i], v.elem) == Done(v.items[i]) <==> Stands(p, n.sliceValues[i], v.elem, v.items[i]))
    ensures Fill(p, n, TypeOf(v)) == Done(v) <==> Holds(p, n, v)
  {
    var r := Fill(p, n, TypeOf(v));
    if r == Done(v) {
      forall i | 0 <= i < |v.items|
        ensures if i < |n.sliceValues| then Stands(p, n.sliceValues[i], v.elem, v.items[i])
                else v.items[i] == Zero(p, v.elem)
      {
        assert r.value.items[i] == v.items[i];
      }
    }
    if Holds(p, n, v) {
      assert forall i :: 0 <= i < |n.sliceValues| ==> Place(p, n.sliceValues[i], v.elem) == Done(v.items[i]);
      assert r.Done?;
      assert r.value.items == v.items;
    }
  }
}
