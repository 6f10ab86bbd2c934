/**
 The type-directed serializer: values are turned into a tree of nodes that name
 a type only where the static type does not already give it, and that leave out zero
 values. The model covers the pointer-free part without custom JSON marshalers; the
 JSON text of a scalar is that scalar.
 */
module Serialization {

  import opened Wrappers

  // ---------------------------------------------------------------- types and values

  datatype Ty =
    | ScalarTy(kind: string)
    | StructTy(name: string)
    | SliceTy(elem: Ty)
    | ArrayTy(length: nat, elem: Ty)
    | MapTy(key: string, elem: Ty)
    | AnyTy

  datatype Field = Field(name: string, ty: Ty, exported: bool)

  datatype Val =
    | Scalar(kind: string, text: string)
    | Struct(name: string, fields: seq<Val>)
    | Slice(elem: Ty, isNil: bool, items: seq<Val>)
    | Array(elem: Ty, items: seq<Val>)
    | Map(key: string, elem: Ty, isNil: bool, entries: map<string, Val>)
    | Iface(dyn: Option<Val>)

  /** The program's types: the zero of every scalar kind, the fields of every struct
      (no field name twice), the nesting depth that makes struct types well founded, and the
      two registration tables, which are inverse to each other. */
  datatype Program = Program(
    zeros: map<string, string>,
    structs: map<string, seq<Field>>,
    depth: map<string, nat>,
    m: map<string, Ty>,
    rm: map<Ty, string>)

  /** A type all of whose names are declared. */
  predicate Known(p: Program, ty: Ty) {
    match ty
    case ScalarTy(kind) => kind in p.zeros
    case StructTy(name) => name in p.structs && name in p.depth
    case SliceTy(elem) => Known(p, elem)
    case ArrayTy(_, elem) => Known(p, elem)
    case MapTy(key, elem) => key in p.zeros && Known(p, elem)
    case AnyTy => true
  }

  function Depth(p: Program, ty: Ty): nat
    requires Known(p, ty)
  {
    match ty
    case StructTy(name) => p.depth[name] + 1
    case ArrayTy(_, elem) => Depth(p, elem)
    case _ => 0
  }

  ghost predicate Inverse(m: map<string, Ty>, rm: map<Ty, string>) {
    && (forall key :: key in m ==> m[key] in rm && rm[m[key]] == key)
    && (forall ty :: ty in rm ==> rm[ty] in m && m[rm[ty]] == ty)
  }

  ghost predicate WellFormed(p: Program) {
    && Inverse(p.m, p.rm)
    && (forall key :: key in p.m ==> Known(p, p.m[key]))
    && (forall name :: name in p.structs ==> name in p.depth)
    && (forall name, i :: name in p.structs && 0 <= i < |p.structs[name]| ==>
          Known(p, p.structs[name][i].ty) && Depth(p, p.structs[name][i].ty) <= p.depth[name])
    && (forall name, i, j :: name in p.structs && 0 <= i < j < |p.structs[name]| ==>
          p.structs[name][i].name != p.structs[name][j].name)
  }

  function TypeOf(v: Val): Ty {
    match v
    case Scalar(kind, _) => ScalarTy(kind)
    case Struct(name, _) => StructTy(name)
    case Slice(elem, _, _) => SliceTy(elem)
    case Array(elem, items) => ArrayTy(|items|, elem)
    case Map(key, elem, _, _) => MapTy(key, elem)
    case Iface(_) => AnyTy
  }

  /** A value of declared type, whose parts have their declared types; an interface holds
      nothing or a value that is not itself an interface. */
  ghost predicate WellTyped(p: Program, v: Val) {
    && Known(p, TypeOf(v))
    && match v
       case Scalar(_, _) => true
       case Struct(name, fields) =>
         && |fields| == |p.structs[name]|
         && forall i :: 0 <= i < |fields| ==> WellTyped(p, fields[i]) && TypeOf(fields[i]) == p.structs[name][i].ty
       case Slice(elem, isNil, items) =>
         && (isNil ==> items == [])
         && forall i :: 0 <= i < |items| ==> WellTyped(p, items[i]) && TypeOf(items[i]) == elem
       case Array(elem, items) =>
         forall i :: 0 <= i < |items| ==> WellTyped(p, items[i]) && TypeOf(items[i]) == elem
       case Map(_, elem, isNil, entries) =>
         && (isNil ==> entries == map[])
         && forall k :: k in entries ==> WellTyped(p, entries[k]) && TypeOf(entries[k]) == elem
       case Iface(dyn) => dyn.Some? ==> !dyn.value.Iface? && WellTyped(p, dyn.value)
  }

  /** The zero value of a type. */
  function Zero(p: Program, ty: Ty): Val
    requires WellFormed(p) && Known(p, ty)
    decreases Depth(p, ty), ty
  {
    match ty
    case ScalarTy(kind) => Scalar(kind, p.zeros[kind])
    case StructTy(name) =>
      Struct(name, seq(|p.structs[name]|, i requires 0 <= i < |p.structs[name]| => Zero(p, p.structs[name][i].ty)))
    case SliceTy(elem) => Slice(elem, true, [])
    case ArrayTy(length, elem) => Array(elem, seq(length, i requires 0 <= i < length => Zero(p, elem)))
    case MapTy(key, elem) => Map(key, elem, true, map[])
    case AnyTy => Iface(None)
  }

  predicate IsZero(p: Program, v: Val) {
    match v
    case Scalar(kind, text) => kind in p.zeros && text == p.zeros[kind]
    case Struct(_, fields) => forall i :: 0 <= i < |fields| ==> IsZero(p, fields[i])
    case Slice(_, isNil, _) => isNil
    case Array(_, items) => forall i :: 0 <= i < |items| ==> IsZero(p, items[i])
    case Map(_, _, isNil, _) => isNil
    case Iface(dyn) => dyn.None?
  }

  // ---------------------------------------------------------------- the intermediate form

  datatype Tag = Tag(
    simpleType: string, structType: string,
    mapKeyType: Option<Tag>, mapValueType: Option<Tag>, sliceValueType: Option<Tag>)

  const EMPTY_TAG := Tag("", "", None, None, None)

  datatype Node = Node(
    tag: Option<Tag>, json: string,
    mapValues: map<string, Option<Node>>, sliceValues: seq<Option<Node>>)

  /** `Failed` stands for a returned error and for a run-time panic alike. */
  datatype Outcome<+T> = Done(value: T) | Failed

  // ---------------------------------------------------------------- marshalling

  /** The tag that names a type: containers are spelled out, everything else goes by its key. */
  function ExtractType(p: Program, ty: Ty): Outcome<Tag> {
    match ty
    case MapTy(key, elem) =>
      var k := ExtractKey(p, ScalarTy(key));
      var e := ExtractType(p, elem);
      if k.Failed? || e.Failed? then Failed
      else Done(EMPTY_TAG.(mapKeyType := Some(k.value), mapValueType := Some(e.value)))
    case SliceTy(elem) =>
      var e := ExtractType(p, elem);
      if e.Failed? then Failed else Done(EMPTY_TAG.(sliceValueType := Some(e.value)))
    case ArrayTy(_, elem) =>
      var e := ExtractType(p, elem);
      if e.Failed? then Failed else Done(EMPTY_TAG.(sliceValueType := Some(e.value)))
    case _ => ExtractKey(p, ty)
  }

  function ExtractKey(p: Program, ty: Ty): Outcome<Tag> {
    if ty in p.rm then Done(EMPTY_TAG.(simpleType := p.rm[ty])) else Failed
  }

  /** The tag of a value in an interface; a map gets only its value type. */
  function DynamicTag(p: Program, v: Val): Outcome<Tag> {
    match v
    case Struct(name, _) =>
      if StructTy(name) in p.rm then Done(EMPTY_TAG.(structType := p.rm[StructTy(name)])) else Failed
    case Map(key, elem, _, _) =>
      var k := ExtractKey(p, ScalarTy(key));
      var e := ExtractType(p, elem);
      if k.Failed? || e.Failed? then Failed else Done(EMPTY_TAG.(mapValueType := Some(e.value)))
    case Slice(elem, _, _) =>
      var e := ExtractType(p, elem);
      if e.Failed? then Failed else Done(EMPTY_TAG.(sliceValueType := Some(e.value)))
    case Array(elem, _) =>
      var e := ExtractType(p, elem);
      if e.Failed? then Failed else Done(EMPTY_TAG.(sliceValueType := Some(e.value)))
    case _ => ExtractKey(p, TypeOf(v))
  }

  /** What is written for a place of static type `TypeOf(v)`; nothing for a zero value. */
  function Marshal(p: Program, v: Val): Outcome<Option<Node>>
    decreases v, 2, 0
  {
    if v.Iface? then
      if v.dyn.None? then Done(None)
      else
        var tag := DynamicTag(p, v.dyn.value);
        var body := Body(p, v.dyn.value);
        if tag.Failed? || body.Failed? then Failed else Done(Some(body.value.(tag := Some(tag.value))))
    else if IsZero(p, v) then Done(None)
    else
      var body := Body(p, v);
      if body.Failed? then Failed else Done(Some(body.value))
  }

  /** The untagged node of a value. */
  function Body(p: Program, v: Val): Outcome<Node>
    decreases v, 1, 0
  {
    match v
    case Scalar(_, text) => Done(Node(None, text, map[], []))
    case Struct(name, fields) =>
      if name !in p.structs || |fields| != |p.structs[name]| then Failed
      else
        var values := MarshalFields(p, v, p.structs[name], |fields|);
        if values.Failed? then Failed else Done(Node(None, "", values.value, []))
    case Map(_, _, _, entries) =>
      if exists k :: k in entries && Marshal(p, entries[k]).Failed? then Failed
      else Done(Node(None, "", map k | k in entries :: Marshal(p, entries[k]).value, []))
    case Slice(_, _, items) =>
      if exists i :: 0 <= i < |items| && Marshal(p, items[i]).Failed? then Failed
      else Done(Node(None, "", map[], seq(|items|, i requires 0 <= i < |items| => Marshal(p, items[i]).value)))
    case Array(_, items) =>
      if exists i :: 0 <= i < |items| && Marshal(p, items[i]).Failed? then Failed
      else Done(Node(None, "", map[], seq(|items|, i requires 0 <= i < |items| => Marshal(p, items[i]).value)))
    case Iface(_) => Failed
  }

  /** The exported ones of the first `n` fields, by name. */
  function MarshalFields(p: Program, v: Val, decls: seq<Field>, n: nat): Outcome<map<string, Option<Node>>>
    requires v.Struct? && |decls| == |v.fields| && n <= |decls|
    decreases v, 0, n
  {
    if n == 0 then Done(map[])
    else
      var before := MarshalFields(p, v, decls, n - 1);
      if before.Failed? || !decls[n - 1].exported then before
      else
        var node := Marshal(p, v.fields[n - 1]);
        if node.Failed? then Failed else Done(before.value[decls[n - 1].name := node.value])
  }

  // ---------------------------------------------------------------- unmarshalling

  function RestoreType(p: Program, tag: Tag): Outcome<Ty> {
    if tag.simpleType != "" then
      if tag.simpleType in p.m then Done(p.m[tag.simpleType]) else Failed
    else if tag.structType != "" then
      if tag.structType in p.m then Done(p.m[tag.structType]) else Failed
    else if tag.mapKeyType.Some? then
      if tag.mapValueType.None? then Failed
      else
        var k := RestoreType(p, tag.mapKeyType.value);
        var e := RestoreType(p, tag.mapValueType.value);
        if k.Failed? || e.Failed? || !k.value.ScalarTy? then Failed else Done(MapTy(k.value.kind, e.value))
    else if tag.sliceValueType.Some? then
      var e := RestoreType(p, tag.sliceValueType.value);
      if e.Failed? then Failed else Done(SliceTy(e.value))
    else Failed
  }

  /** Assigning a decoded Go value, possibly nil, to a place of a static type. */
  function Assign(p: Program, ty: Ty, v: Option<Val>): Outcome<Val>
    requires WellFormed(p) && Known(p, ty)
  {
    match v
    case None => Done(Zero(p, ty))
    case Some(x) =>
      if ty.AnyTy? then Done(Iface(Some(x)))
      else if TypeOf(x) == ty then Done(x)
      else Failed
  }

  /** What ends up in a place of static type `ty`. */
  function Place(p: Program, node: Option<Node>, ty: Ty): Outcome<Val>
    requires WellFormed(p) && Known(p, ty)
    decreases node, 2
  {
    match node
    case None => Done(Zero(p, ty))
    case Some(n) =>
      var v := Unmarshal(p, n, ty);
      if v.Failed? then Failed else Assign(p, ty, Some(v.value))
  }

  /** The Go value of a node: its own tag decides the type if it has one. */
  function Unmarshal(p: Program, n: Node, ty: Ty): Outcome<Val>
    requires WellFormed(p) && Known(p, ty)
    decreases n, 1
  {
    match n.tag
    case None => Fill(p, n, ty)
    case Some(tag) =>
      if tag.simpleType != "" then
        if tag.simpleType in p.m && p.m[tag.simpleType].ScalarTy? then Fill(p, n, p.m[tag.simpleType]) else Failed
      else if tag.structType != "" then
        if tag.structType in p.m && p.m[tag.structType].StructTy? then Fill(p, n, p.m[tag.structType]) else Failed
      else
        var t := RestoreType(p, tag);
        if t.Failed? then Failed else RestoredKnown(p, tag); Fill(p, n, t.value)
  }

  lemma {:induction false} RestoredKnown(p: Program, tag: Tag)
    requires WellFormed(p)
    ensures RestoreType(p, tag).Done? ==> Known(p, RestoreType(p, tag).value)
  {
    if tag.mapKeyType.Some? {
      RestoredKnown(p, tag.mapKeyType.value);
    }
    if tag.mapValueType.Some? {
      RestoredKnown(p, tag.mapValueType.value);
    }
    if tag.sliceValueType.Some? {
      RestoredKnown(p, tag.sliceValueType.value);
    }
  }

  /** A value of a known type filled in from the parts of a node. */
  function Fill(p: Program, n: Node, ty: Ty): Outcome<Val>
    requires WellFormed(p) && Known(p, ty)
    decreases n, 0
  {
    match ty
    case ScalarTy(kind) => Done(Scalar(kind, n.json))
    case StructTy(name) =>
      var decls := p.structs[name];
      if exists i ::
        && 0 <= i < |decls| && decls[i].name in n.mapValues
        && (!decls[i].exported || Place(p, n.mapValues[decls[i].name], decls[i].ty).Failed?)
      then Failed
      else
        Done(Struct(name, seq(|decls|, i requires 0 <= i < |decls| =>
          if decls[i].name in n.mapValues then Place(p, n.mapValues[decls[i].name], decls[i].ty).value
          else Zero(p, decls[i].ty))))
    case MapTy(key, elem) =>
      if exists k :: k in n.mapValues && Place(p, n.mapValues[k], elem).Failed? then Failed
      else Done(Map(key, elem, false, map k | k in n.mapValues :: Place(p, n.mapValues[k], elem).value))
    case SliceTy(elem) =>
      if exists i :: 0 <= i < |n.sliceValues| && Place(p, n.sliceValues[i], elem).Failed? then Failed
      else
        Done(Slice(elem, false, seq(|n.sliceValues|, i requires 0 <= i < |n.sliceValues| =>
          Place(p, n.sliceValues[i], elem).value)))
    case ArrayTy(length, elem) =>
      if |n.sliceValues| > length then Failed
      else if exists i :: 0 <= i < |n.sliceValues| && Place(p, n.sliceValues[i], elem).Failed? then Failed
      else
        Done(Array(elem, seq(length, i requires 0 <= i < length =>
          if i < |n.sliceValues| then Place(p, n.sliceValues[i], elem).value else Zero(p, elem))))
    case AnyTy => Failed
  }
}
