/** Which numbers survive a reader that holds every JSON number as a double. */
module JsonNumbers {
  import opened TypeNames
  import opened Serialize
  import opened JsonSafety
  import opened JsonContent

  /** Up to here every integer is a double: 2 to the power of 53. */
  const LAST_EXACT := 0x20_0000_0000_0000

  predicate FitsDouble(i: int) {
    -LAST_EXACT <= i <= LAST_EXACT
  }

  /** Every integer written as a JSON number fits a double. */
  predicate Exact(o: Out) {
    match o
    case List(items) => forall i :: 0 <= i < |items| ==> Exact(items[i])
    case Object(members) => forall k <- members :: Exact(members[k])
    case Raw(v) => v.Int? ==> FitsDouble(v.i)
    case _ => true
  }

  /** Every signed or small integer of a value fits a double; the wide kinds do not matter. */
  predicate SmallInts(v: Value) {
    match v
    case Int(i) => FitsDouble(i)
    case Pointer(target) => SmallInts(target)
    case VariantOf(inner) => SmallInts(inner)
    case Json(nestedMap) => SmallInts(nestedMap)
    case Slice(elems) => forall i :: 0 <= i < |elems| ==> SmallInts(elems[i])
    case Map(entries) => forall i :: 0 <= i < |entries| ==> SmallInts(entries[i].val)
    case _ => true
  }

  // --- When no number is too large ------------------------------------------------------------------

  lemma {:induction false} SmallMembersExact(entries: seq<Entry>, keyType: string, valType: string,
                                             types: map<string, string>)
    requires forall i :: 0 <= i < |entries| ==> SmallInts(entries[i].val)
    ensures forall k <- Members(entries, keyType, valType, types) :: Exact(Members(entries, keyType, valType, types)[k])
    decreases entries, 0
  {
    if entries == [] {
    } else {
      var e := entries[|entries| - 1];
      assert entries decreases to e;
      assert e decreases to e.val;
      SmallMembersExact(entries[..|entries| - 1], keyType, valType, types);
      SmallIntsAreExact(e.val, MemberType(types, valType, KeyText(e.key, keyType)));
    }
  }

  lemma {:induction false} SmallItemsExact(elems: seq<Value>, parts: seq<string>, inner: string)
    requires forall i :: 0 <= i < |elems| ==> SmallInts(elems[i])
    ensures forall i :: 0 <= i < |elems| ==> Exact(Items(elems, parts, inner)[i])
    decreases elems, 0
  {
    forall i | 0 <= i < |elems| ensures Exact(Items(elems, parts, inner)[i]) {
      SmallIntsAreExact(elems[i], ItemType(parts, inner, i));
    }
  }

  /** Small integers stay exact, in any value. */
  lemma {:induction false} SmallIntsAreExact(v: Value, dbType: string)
    requires SmallInts(v)
    ensures Exact(ToJson(v, dbType))
    decreases v, 1
  {
    match v
    case VariantOf(inner) => SmallIntsAreExact(inner, "");
    case Json(nestedMap) => SmallIntsAreExact(nestedMap, "");
    case Pointer(target) =>
      OthersReflect(v, dbType);
      SmallIntsAreExact(target, ElemType(dbType));
    case Slice(elems) =>
      OthersReflect(v, dbType);
      SliceReflects(elems, dbType);
      SmallItemsExact(elems, TupleParts(dbType), ElemType(dbType));
    case Map(entries) =>
      OthersReflect(v, dbType);
      MapReflects(entries, dbType);
      SmallMembersExact(entries, MapKeyType(dbType), MapValueType(dbType), FieldTypes(TupleParts(dbType)));
    case Bool(_) => OthersReflect(v, dbType);
    case Str(_) => OthersReflect(v, dbType);
    case Int(_) => OthersReflect(v, dbType);
    case NilPointer => OthersReflect(v, dbType);
    case _ =>
  }

  // Output that is exact and holds every part of v tells that its integers are small.
  lemma {:induction false} ExactTellsSmall(v: Value, o: Out)
    requires Reads(v, o) && Exact(o)
    ensures SmallInts(v)
    decreases v
  {
    match v
    case Pointer(target) => ExactTellsSmall(target, o);
    case VariantOf(inner) => ExactTellsSmall(inner, o);
    case Json(nestedMap) => ExactTellsSmall(nestedMap, o);
    case Slice(elems) =>
      forall i | 0 <= i < |elems| ensures SmallInts(elems[i]) {
        ExactTellsSmall(elems[i], o.items[i]);
      }
    case Map(entries) =>
      var dated := EntriesRead(entries, o.members, true);
      forall i | 0 <= i < |entries| ensures SmallInts(entries[i].val) {
        assert entries decreases to entries[i];
        assert entries[i] decreases to entries[i].val;
        assert EntryReads(entries[i], o.members, dated);
        var text :|
          text in o.members && KeyReads(entries[i].key, text, dated) && Reads(entries[i].val, o.members[text]);
        ExactTellsSmall(entries[i].val, o.members[text]);
      }
    case _ =>
  }

  /** Exactly when a result holds no integer that a double would round: when no signed integer of the
      value, at any depth, exceeds 2 to the power of 53. The wide kinds are always text. */
  lemma ExactIff(v: Value, dbType: string)
    requires KeysApart(v, dbType)
    ensures Exact(ToJson(v, dbType)) <==> SmallInts(v)
  {
    if SmallInts(v) {
      SmallIntsAreExact(v, dbType);
    }
    if Exact(ToJson(v, dbType)) {
      ReadsBack(v, dbType);
      ExactTellsSmall(v, ToJson(v, dbType));
    }
  }

  /** The largest signed 64-bit integer stays a number, which a double rounds. */
  lemma LargeIntegerStaysNumber(v: Value, dbType: string)
    requires v == Int(0x7FFF_FFFF_FFFF_FFFF)
    ensures ToJson(v, dbType) == Raw(v) && JsonSafe(ToJson(v, dbType)) && !Exact(ToJson(v, dbType))
  {
    OthersReflect(v, dbType);
  }
}
