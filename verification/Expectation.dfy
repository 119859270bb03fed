/** What a value should look like at a type: a specification of the serializer that walks the
    type's tree, what it means for a value to have a type, and where no type matters. */
module Expectation {
  import opened Text
  import opened TypeNames
  import opened TypeAst
  import opened Serialize

  // --- What a value should look like at a type -----------------------------------------------

  /** The type behind the wrappers that change nothing about how a value is scanned. */
  function Core(t: Ty): Ty {
    match t
    case LowCardinality(e) => Core(e)
    case SimpleAgg(_, e) => Core(e)
    case _ => t
  }

  function Pointee(t: Ty): Ty {
    if Core(t).Nullable? then Core(t).elem else Opaque
  }

  function ItemTy(t: Ty, i: nat): Ty {
    match Core(t)
    case Array(e) => e
    case Tuple(fields) => if i < |fields| then fields[i].ty else Opaque
    case _ => Opaque
  }

  function KeyTy(t: Ty): Ty {
    if Core(t).MapOf? then Core(t).key else Opaque
  }

  /** The type of the field of that name. */
  function FieldTy(fields: seq<Field>, name: string): Ty {
    if fields == [] then Opaque
    else
      var last := fields[|fields| - 1];
      if last.name != "" && last.name == name then last.ty else FieldTy(fields[..|fields| - 1], name)
  }

  function MemberTy(t: Ty, name: string): Ty {
    match Core(t)
    case MapOf(_, v) => v
    case Tuple(fields) => FieldTy(fields, name)
    case _ => Opaque
  }

  function ExpectedKey(k: Key, keyTy: Ty): string {
    match k
    case KTime(at) => if DateLeaf(keyTy) then at.calendar else at.stamp
    case _ => KeyText(k, "")
  }

  /** The rendering a type calls for: a time prints as a calendar date exactly when its own
      position in the type is Date or Date32. */
  function Expected(v: Value, t: Ty): Out
    decreases v, 1
  {
    match v
    case Time(at) => Text(if DateLeaf(t) then at.calendar else at.stamp)
    case VariantOf(inner) => Expected(inner, Opaque)
    case Json(nestedMap) => Expected(nestedMap, Opaque)
    case Pointer(target) => Expected(target, Pointee(t))
    case Slice(elems) => List(ExpectedItems(elems, t))
    case Map(entries) => Object(ExpectedMembers(entries, t))
    case _ => ToJson(v, "") // no type plays a part
  }

  function ExpectedItems(elems: seq<Value>, t: Ty): (items: seq<Out>)
    ensures |items| == |elems|
    ensures forall i :: 0 <= i < |elems| ==> items[i] == Expected(elems[i], ItemTy(t, i))
    decreases elems
  {
    seq(|elems|, i requires 0 <= i < |elems| => Expected(elems[i], ItemTy(t, i)))
  }

  function ExpectedMembers(entries: seq<Entry>, t: Ty): map<string, Out>
    decreases entries
  {
    if entries == [] then map[]
    else
      var e := entries[|entries| - 1];
      assert entries decreases to e;
      assert e decreases to e.val;
      var key := ExpectedKey(e.key, KeyTy(t));
      ExpectedMembers(entries[..|entries| - 1], t)[key := Expected(e.val, MemberTy(t, key))]
  }

  // --- Typing -------------------------------------------------------------------------------------

  /** No time anywhere a type could reach. */
  predicate TimeFree(v: Value) {
    match v
    case Time(_) => false
    case Pointer(target) => TimeFree(target)
    case Slice(elems) => forall i :: 0 <= i < |elems| ==> TimeFree(elems[i])
    case Map(entries) => forall i :: 0 <= i < |entries| ==> !entries[i].key.KTime? && TimeFree(entries[i].val)
    case _ => true
  }

  predicate HasField(fields: seq<Field>, name: string) {
    name != "" && exists i :: 0 <= i < |fields| && fields[i].name == name
  }

  /** v could have been scanned from a column of type t. Containers need the matching type unless
      they hold no time at all (geometric and other leaf types scan to such containers). */
  predicate WellTyped(v: Value, t: Ty) {
    TimeFree(v) || t.Opaque? ||
    match v
    case Pointer(target) => Core(t).Nullable? && WellTyped(target, Pointee(t))
    case Slice(elems) =>
      && (Core(t).Array? || (Core(t).Tuple? && |elems| == |Core(t).fields|))
      && forall i :: 0 <= i < |elems| ==> WellTyped(elems[i], ItemTy(t, i))
    case Map(entries) =>
      && (Core(t).MapOf? || (Core(t).Tuple? && AllNamed(Core(t).fields)))
      && forall i :: 0 <= i < |entries| ==> EntryTyped(entries[i], t)
    case _ => true
  }

  predicate AllNamed(fields: seq<Field>) {
    forall i :: 0 <= i < |fields| ==> fields[i].name != ""
  }

  predicate EntryTyped(e: Entry, t: Ty)
    decreases e
  {
    && (Core(t).Tuple? ==> e.key.KString? && HasField(Core(t).fields, e.key.s))
    && WellTyped(e.val, MemberTy(t, ExpectedKey(e.key, KeyTy(t))))
  }

  // --- Where no time is, no type matters ------------------------------------------------------------

  lemma {:induction false} TimeFreeKeys(k: Key, keyType: string, keyTy: Ty)
    requires !k.KTime?
    ensures KeyText(k, keyType) == KeyText(k, "") == ExpectedKey(k, keyTy)
  {
  }

  // An entry renders as expected under the type texts found for its key.
  predicate EntryAgrees(e: Entry, keyType: string, valType: string, types: map<string, string>, t: Ty) {
    var key := ExpectedKey(e.key, KeyTy(t));
    && KeyText(e.key, keyType) == key
    && ToJson(e.val, MemberType(types, valType, key)) == Expected(e.val, MemberTy(t, key))
  }

  lemma {:induction false} MembersAgree(entries: seq<Entry>, keyType: string, valType: string,
                                        types: map<string, string>, t: Ty)
    requires forall i :: 0 <= i < |entries| ==> EntryAgrees(entries[i], keyType, valType, types, t)
    ensures Members(entries, keyType, valType, types) == ExpectedMembers(entries, t)
  {
    if entries == [] {
    } else {
      MembersAgree(entries[..|entries| - 1], keyType, valType, types, t);
    }
  }

  lemma ObjectAgrees(entries: seq<Entry>, text: string, t: Ty)
    requires forall i :: 0 <= i < |entries| ==>
               EntryAgrees(entries[i], MapKeyType(text), MapValueType(text), FieldTypes(TupleParts(text)), t)
    ensures ToJson(Map(entries), text) == Expected(Map(entries), t)
  {
    MembersAgree(entries, MapKeyType(text), MapValueType(text), FieldTypes(TupleParts(text)), t);
    MapReads(entries, text);
    MapWants(entries, t);
  }

  // An item renders as expected at its position.
  predicate ItemAgrees(v: Value, parts: seq<string>, inner: string, i: nat, t: Ty) {
    ToJson(v, ItemType(parts, inner, i)) == Expected(v, ItemTy(t, i))
  }

  lemma SliceAgrees(elems: seq<Value>, text: string, parts: seq<string>, inner: string, t: Ty)
    requires TupleParts(text) == parts && ElemType(text) == inner
    requires forall i :: 0 <= i < |elems| ==> ItemAgrees(elems[i], parts, inner, i, t)
    ensures ToJson(Slice(elems), text) == Expected(Slice(elems), t)
  {
    forall i | 0 <= i < |elems| ensures Items(elems, parts, inner)[i] == ExpectedItems(elems, t)[i] {
      assert ItemAgrees(elems[i], parts, inner, i, t);
    }
    assert Items(elems, parts, inner) == ExpectedItems(elems, t);
    SliceReads(elems, text, parts, inner);
    SliceWants(elems, t);
  }

  lemma SliceReads(elems: seq<Value>, text: string, parts: seq<string>, inner: string)
    requires TupleParts(text) == parts && ElemType(text) == inner
    ensures ToJson(Slice(elems), text) == List(Items(elems, parts, inner))
  {
    SliceReflects(elems, text);
  }

  lemma SliceWants(elems: seq<Value>, t: Ty)
    ensures Expected(Slice(elems), t) == List(ExpectedItems(elems, t))
  {
  }

  lemma MapReads(entries: seq<Entry>, text: string)
    ensures ToJson(Map(entries), text)
         == Object(Members(entries, MapKeyType(text), MapValueType(text), FieldTypes(TupleParts(text))))
  {
    MapReflects(entries, text);
  }

  lemma MapWants(entries: seq<Entry>, t: Ty)
    ensures Expected(Map(entries), t) == Object(ExpectedMembers(entries, t))
  {
  }

  lemma PointerReads(target: Value, text: string)
    ensures ToJson(Pointer(target), text) == ToJson(target, ElemType(text))
  {
    assert ToJson(Pointer(target), text) == Reflect(Pointer(target), text);
  }

  lemma PointerWants(target: Value, t: Ty)
    ensures Expected(Pointer(target), t) == Expected(target, Pointee(t))
  {
  }

  // A pointer renders as its target, on either side.
  lemma PointerSides(target: Value, text: string, t: Ty)
    ensures ToJson(Pointer(target), text) == ToJson(target, ElemType(text))
    ensures Expected(Pointer(target), t) == Expected(target, Pointee(t))
  {
    PointerReads(target, text);
    PointerWants(target, t);
  }

  /** A value without times renders alike whatever the type text and whatever the type. */
  lemma {:induction false} TimeFreeRenders(v: Value, dbType: string, t: Ty)
    requires TimeFree(v)
    ensures ToJson(v, dbType) == Expected(v, t)
    decreases v, 0
  {
    match v
    case VariantOf(inner) => OpaqueRenders(inner);
    case Json(nestedMap) => OpaqueRenders(nestedMap);
    case Pointer(target) => TimeFreeRenders(target, ElemType(dbType), Pointee(t));
    case Slice(elems) =>
      var parts, inner := TupleParts(dbType), ElemType(dbType);
      forall i | 0 <= i < |elems| ensures ItemAgrees(elems[i], parts, inner, i, t) {
        TimeFreeRenders(elems[i], ItemType(parts, inner, i), ItemTy(t, i));
      }
      SliceAgrees(elems, dbType, parts, inner, t);
    case Map(entries) =>
      var keyType, valType, types := MapKeyType(dbType), MapValueType(dbType), FieldTypes(TupleParts(dbType));
      forall i | 0 <= i < |entries| ensures EntryAgrees(entries[i], keyType, valType, types, t) {
        var key := ExpectedKey(entries[i].key, KeyTy(t));
        TimeFreeKeys(entries[i].key, keyType, KeyTy(t));
        TimeFreeRenders(entries[i].val, MemberType(types, valType, key), MemberTy(t, key));
      }
      ObjectAgrees(entries, dbType, t);
    case Time(_) =>
    case _ => assert Reflect(v, dbType) == Reflect(v, "");
  }

  /** A type text that is no application and no date: nothing can be read from it. */
  predicate Untyped(text: string) {
    Trimmed(text) && TypeName(text) == (text, "") && !IsDate(text)
  }

  lemma UntypedText(text: string)
    requires Untyped(text)
    ensures ElemType(text) == text && TupleParts(text) == []
    ensures MapKeyType(text) == "" && MapValueType(text) == "" && !IsDateOnly(text)
  {
    TrimmedIsFixed(text);
    SplitJoin([]);
  }

  lemma NoTextIsUntyped()
    ensures Untyped("")
  {
    TrimmedIsFixed("");
  }

  /** Without a type, or under a text that says nothing, every time prints as a timestamp, at any
      depth. */
  lemma {:induction false} UntypedRenders(v: Value, text: string)
    requires Untyped(text)
    ensures ToJson(v, text) == Expected(v, Opaque)
    decreases v, 1
  {
    UntypedText(text);
    NoTextIsUntyped();
    match v
    case VariantOf(inner) => UntypedRenders(inner, "");
    case Json(nestedMap) => UntypedRenders(nestedMap, "");
    case Pointer(target) => UntypedRenders(target, text);
    case Slice(elems) =>
      forall i | 0 <= i < |elems| ensures ItemAgrees(elems[i], [], text, i, Opaque) {
        UntypedRenders(elems[i], text);
      }
      SliceAgrees(elems, text, [], text, Opaque);
    case Map(entries) =>
      forall i | 0 <= i < |entries| ensures EntryAgrees(entries[i], "", "", FieldTypes([]), Opaque) {
        UntypedRenders(entries[i].val, "");
      }
      ObjectAgrees(entries, text, Opaque);
    case Time(_) =>
    case _ => TimeFreeRenders(v, text, Opaque);
  }

  lemma {:induction false} OpaqueRenders(v: Value)
    ensures ToJson(v, "") == Expected(v, Opaque)
    decreases v, 2
  {
    NoTextIsUntyped();
    UntypedRenders(v, "");
  }
}
