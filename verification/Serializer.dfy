/** The parts of the serializer that change things in place: the registration tables,
    and the loops that fill a slice, an array, a map or a struct from the parts of a node. */
module Serializer {

  import opened Wrappers
  import opened Serialization

  class Registry {
    var m: map<string, Ty>
    var rm: map<Ty, string>

    ghost predicate Valid()
      reads this
    {
      Inverse(m, rm)
    }

    constructor ()
      ensures Valid() && m == map[] && rm == map[]
    {
      m, rm := map[], map[];
    }

    /** Refuses a key or a type that is taken; the two tables stay inverse to each other. */
    method GenericRegister(ty: Ty, key: string) returns (registered: bool)
      requires Valid()
      modifies this
      ensures Valid()
      ensures registered <==> key !in old(m) && ty !in old(rm)
      ensures registered ==> m == old(m)[key := ty] && rm == old(rm)[ty := key]
      ensures !registered ==> m == old(m) && rm == old(rm)
    {
      if key in m {
        return false;
      }
      if ty in rm {
        return false;
      }
      m := m[key := ty];
      rm := rm[ty := key];
      return true;
    }
  }

  /** Slices grow by appending, element after element. */
  method SetSliceElems(p: Program, elem: Ty, n: Node) returns (r: Outcome<Val>)
    requires WellFormed(p) && Known(p, elem)
    ensures r == Fill(p, n, SliceTy(elem))
  {
    var items: seq<Val> := [];
    for i := 0 to |n.sliceValues|
      invariant |items| == i
      invariant forall j :: 0 <= j < i ==> Place(p, n.sliceValues[j], elem) == Done(items[j])
    {
      var value := Place(p, n.sliceValues[i], elem);
      if value.Failed? {
        return Failed;
      }
      items := items + [value.value];
    }
    r := Done(Slice(elem, false, items));
    assert items == Fill(p, n, SliceTy(elem)).value.items;
  }

  /** Arrays are set index by index over their zero elements. */
  method SetArrayElems(p: Program, elem: Ty, n: Node, result: array<Val>) returns (ok: bool)
    requires WellFormed(p) && Known(p, elem)
    requires forall i :: 0 <= i < result.Length ==> result[i] == Zero(p, elem)
    modifies result
    ensures ok <==> Fill(p, n, ArrayTy(result.Length, elem)).Done?
    ensures ok ==> Fill(p, n, ArrayTy(result.Length, elem)) == Done(Array(elem, result[..]))
  {
    for i := 0 to |n.sliceValues|
      invariant i <= result.Length
      invariant forall j :: 0 <= j < i ==> Place(p, n.sliceValues[j], elem) == Done(result[j])
      invariant forall j :: i <= j < result.Length ==> result[j] == Zero(p, elem)
    {
      if i >= result.Length {
        return false;
      }
      var value := Place(p, n.sliceValues[i], elem);
      if value.Failed? {
        return false;
      }
      result[i] := value.value;
    }
    ok := true;
    assert result[..] == Fill(p, n, ArrayTy(result.Length, elem)).value.items;
  }

  /** Maps are filled in whatever order the keys come. */
  method SetMapKVs(p: Program, key: string, elem: Ty, n: Node) returns (r: Outcome<Val>)
    requires WellFormed(p) && Known(p, MapTy(key, elem))
    ensures r == Fill(p, n, MapTy(key, elem))
  {
    var entries: map<string, Val> := map[];
    var remaining := n.mapValues.Keys;
    while remaining != {}
      invariant remaining <= n.mapValues.Keys
      invariant entries.Keys == n.mapValues.Keys - remaining
      invariant forall k :: k in entries ==> Place(p, n.mapValues[k], elem) == Done(entries[k])
      decreases remaining
    {
      var k :| k in remaining;
      var value := Place(p, n.mapValues[k], elem);
      if value.Failed? {
        return Failed;
      }
      entries := entries[k := value.value];
      remaining := remaining - {k};
    }
    r := Done(Map(key, elem, false, entries));
    assert entries == Fill(p, n, MapTy(key, elem)).value.entries;
  }

  function FieldIndex(decls: seq<Field>, name: string): (r: Option<nat>)
    ensures r.Some? ==> r.value < |decls| && decls[r.value].name == name
    ensures r.None? ==> forall i :: 0 <= i < |decls| ==> decls[i].name != name
  {
    if decls == [] then None
    else if decls[|decls| - 1].name == name then Some(|decls| - 1)
    else FieldIndex(decls[..|decls| - 1], name)
  }

  /** Struct fields are set by name, in whatever order the names come; a name the struct
      does not have is skipped, one it does not export is an error. */
  method SetStructFields(p: Program, name: string, n: Node, fields: array<Val>) returns (ok: bool)
    requires WellFormed(p) && Known(p, StructTy(name))
    requires fields[..] == Zero(p, StructTy(name)).fields
    modifies fields
    ensures ok <==> Fill(p, n, StructTy(name)).Done?
    ensures ok ==> Fill(p, n, StructTy(name)) == Done(Struct(name, fields[..]))
  {
    var decls := p.structs[name];
    assert fields.Length == |decls|;
    assert forall i :: 0 <= i < |decls| ==> fields[..][i] == Zero(p, decls[i].ty);
    var remaining := n.mapValues.Keys;
    while remaining != {}
      invariant remaining <= n.mapValues.Keys
      invariant forall i :: 0 <= i < |decls| && decls[i].name in n.mapValues && decls[i].name !in remaining ==>
        decls[i].exported && Place(p, n.mapValues[decls[i].name], decls[i].ty) == Done(fields[i])
      invariant forall i :: 0 <= i < |decls| && (decls[i].name in n.mapValues ==> decls[i].name in remaining) ==>
        fields[i] == Zero(p, decls[i].ty)
      decreases remaining
    {
      var k :| k in remaining;
      remaining := remaining - {k};
      var at := FieldIndex(decls, k);
      if at.None? {
        continue;
      }
      var value := Place(p, n.mapValues[k], decls[at.value].ty);
      if value.Failed? {
        return false;
      }
      if !decls[at.value].exported {
        return false;
      }
      fields[at.value] := value.value;
    }
    ok := true;
    assert fields[..] == Fill(p, n, StructTy(name)).value.fields;
  }
}
