/** What stands where in the output: every part of a value at its own place, with its own content. */
module JsonContent {
  import opened Text
  import opened TypeNames
  import opened Serialize
  import opened JsonSafety

  // --- Keys that render apart ---------------------------------------------------------------------

  /** At every depth the keys of a map render apart under the type text in force there. */
  predicate KeysApart(v: Value, dbType: string)
    decreases v
  {
    match v
    case Pointer(target) => KeysApart(target, ElemType(dbType))
    case VariantOf(inner) => KeysApart(inner, "")
    case Json(nestedMap) => KeysApart(nestedMap, "")
    case Slice(elems) =>
      forall i :: 0 <= i < |elems| ==> KeysApart(elems[i], ItemType(TupleParts(dbType), ElemType(dbType), i))
    case Map(entries) =>
      EntriesApart(entries, MapKeyType(dbType), MapValueType(dbType), FieldTypes(TupleParts(dbType)))
    case _ => true
  }

  predicate EntriesApart(entries: seq<Entry>, keyType: string, valType: string, types: map<string, string>)
    decreases entries
  {
    && DistinctKeys(entries, keyType)
    && forall i :: 0 <= i < |entries| ==> EntryApart(entries[i], keyType, valType, types)
  }

  predicate EntryApart(e: Entry, keyType: string, valType: string, types: map<string, string>)
    decreases e
  {
    KeysApart(e.val, MemberType(types, valType, KeyText(e.key, keyType)))
  }

  /** String and integer keys of one kind, each key once, render apart under every key type. */
  lemma PlainKeysApart(entries: seq<Entry>, keyType: string)
    requires SameKind(entries) && forall i, j :: 0 <= i < j < |entries| ==> entries[i].key != entries[j].key
    ensures DistinctKeys(entries, keyType)
  {
    forall i, j | 0 <= i < j < |entries|
      ensures KeyText(entries[i].key, keyType) != KeyText(entries[j].key, keyType)
    {
      PlainKeysDistinct(entries[i].key, entries[j].key, keyType);
    }
  }

  // --- Every part where it belongs ----------------------------------------------------------------

  /** The text that stands for a key; a map writes all its time keys one way, as dates or as stamps. */
  predicate KeyReads(k: Key, text: string, dated: bool) {
    match k
    case KTime(at) => text == if dated then at.calendar else at.stamp
    case KString(s) => text == s
    case KUInt(n) => DecimalOf(text, n)
    case KInt(i) => DecimalOf(text, i)
    case KOther(t) => text == t
  }

  /** The output holds every part of the value at the part's own place, and nothing else: strings,
      booleans and narrow integers as they are; wide integers as their decimal text and decimals as
      their digits; finite floats as they are and the others as null, like everything that is nil;
      addresses, identifiers and times as text; bytes as a list of numbers. No entry is lost. */
  predicate Reads(v: Value, o: Out)
    decreases v, 1
  {
    match v
    case Nil => o == Null
    case NilPointer => o == Null
    case NilBigInt => o == Null
    case NilVariant => o == Null
    case Bool(b) => o == Raw(Bool(b))
    case Str(s) => o == Raw(Str(s))
    case Int(i) => o == Raw(Int(i))
    case UInt64(u) => o.Text? && DecimalOf(o.s, u)
    case BigInt(n) => o.Text? && DecimalOf(o.s, n)
    case Decimal(digits) => o == Text(digits)
    case Float64(f) => if f.Finite? then o == FloatNumber(f) else o == Null
    case Float32(f) => if f.Finite? then o == FloatNumber(f) else o == Null
    case Uuid(text) => o == Text(text)
    case Ip(text) => o == Text(text)
    case Time(at) => o == Text(at.calendar) || o == Text(at.stamp)
    case Bytes(bytes) =>
      o.List? && |o.items| == |bytes| && forall i :: 0 <= i < |bytes| ==> o.items[i] == Number(bytes[i])
    case Pointer(target) => Reads(target, o)
    case VariantOf(inner) => Reads(inner, o)
    case Json(nestedMap) => Reads(nestedMap, o)
    case Slice(elems) => o.List? && ItemsRead(elems, o.items)
    case Map(entries) =>
      && o.Object? && |o.members| == |entries|
      && (EntriesRead(entries, o.members, true) || EntriesRead(entries, o.members, false))
  }

  predicate ItemsRead(elems: seq<Value>, items: seq<Out>)
    decreases elems, 0
  {
    |items| == |elems| && forall i :: 0 <= i < |elems| ==> Reads(elems[i], items[i])
  }

  predicate EntriesRead(entries: seq<Entry>, members: map<string, Out>, dated: bool)
    decreases entries, 0
  {
    forall i :: 0 <= i < |entries| ==> EntryReads(entries[i], members, dated)
  }

  predicate EntryReads(e: Entry, members: map<string, Out>, dated: bool)
    decreases e, 0
  {
    exists text :: text in members && KeyReads(e.key, text, dated) && Reads(e.val, members[text])
  }

  lemma KeyTextReads(k: Key, keyType: string)
    ensures KeyReads(k, KeyText(k, keyType), IsDateOnly(keyType))
  {
    match k
    case KUInt(n) => ItoaIsDecimal(n);
    case KInt(i) => ItoaIsDecimal(i);
    case _ =>
  }

  lemma WideReads(n: int, dbType: string)
    ensures Reads(BigInt(n), ToJson(BigInt(n), dbType))
    ensures n >= 0 ==> Reads(UInt64(n), ToJson(UInt64(n), dbType))
  {
    WideNumbersParseBack(n, dbType);
    ItoaIsDecimal(n);
  }

  // The parts that hold no other.
  lemma ScalarReads(v: Value, dbType: string)
    requires !v.Pointer? && !v.VariantOf? && !v.Json? && !v.Slice? && !v.Map? && !v.UInt64? && !v.BigInt?
    ensures Reads(v, ToJson(v, dbType))
  {
    if v.Bool? || v.Str? || v.Int? || v.NilPointer? {
      OthersReflect(v, dbType);
    } else if v.Time? {
      TimeRenders(v.at, dbType, IsDateOnly(dbType));
    }
  }

  /** Every part of every value comes out at its own place with its own content, at every depth, under
      every type text and for every value whose keys render apart under it. */
  lemma {:induction false} ReadsBack(v: Value, dbType: string)
    requires KeysApart(v, dbType)
    ensures Reads(v, ToJson(v, dbType))
    decreases v, 1
  {
    match v
    case UInt64(u) => WideReads(u, dbType);
    case BigInt(n) => WideReads(n, dbType);
    case VariantOf(inner) => NestedRenders(v, dbType); ReadsBack(inner, "");
    case Json(nestedMap) => NestedRenders(v, dbType); ReadsBack(nestedMap, "");
    case Pointer(target) => TargetReadsBack(target, dbType);
    case Slice(elems) => SliceReadsBack(elems, dbType);
    case Map(entries) => MapReadsBack(entries, dbType);
    case _ => ScalarReads(v, dbType);
  }

  lemma {:induction false} TargetReadsBack(target: Value, dbType: string)
    requires KeysApart(target, ElemType(dbType))
    ensures Reads(Pointer(target), ToJson(Pointer(target), dbType))
    decreases target, 2
  {
    OthersReflect(Pointer(target), dbType);
    ReadsBack(target, ElemType(dbType));
  }

  lemma {:induction false} SliceReadsBack(elems: seq<Value>, dbType: string)
    requires KeysApart(Slice(elems), dbType)
    ensures Reads(Slice(elems), ToJson(Slice(elems), dbType))
    decreases elems, 1
  {
    OthersReflect(Slice(elems), dbType);
    SliceReflects(elems, dbType);
    ItemsReadBack(elems, TupleParts(dbType), ElemType(dbType));
  }

  lemma {:induction false} MapReadsBack(entries: seq<Entry>, dbType: string)
    requires KeysApart(Map(entries), dbType)
    ensures Reads(Map(entries), ToJson(Map(entries), dbType))
    decreases entries, 1
  {
    OthersReflect(Map(entries), dbType);
    MapReflects(entries, dbType);
    EntriesReadBack(entries, MapKeyType(dbType), MapValueType(dbType), FieldTypes(TupleParts(dbType)));
  }

  lemma {:induction false} ItemsReadBack(elems: seq<Value>, parts: seq<string>, inner: string)
    requires forall i :: 0 <= i < |elems| ==> KeysApart(elems[i], ItemType(parts, inner, i))
    ensures ItemsRead(elems, Items(elems, parts, inner))
    decreases elems, 0
  {
    forall i | 0 <= i < |elems| ensures Reads(elems[i], Items(elems, parts, inner)[i]) {
      ReadsBack(elems[i], ItemType(parts, inner, i));
    }
  }

  lemma {:induction false} EntriesReadBack(entries: seq<Entry>, keyType: string, valType: string,
                                           types: map<string, string>)
    requires EntriesApart(entries, keyType, valType, types)
    ensures |Members(entries, keyType, valType, types)| == |entries|
    ensures EntriesRead(entries, Members(entries, keyType, valType, types), IsDateOnly(keyType))
    decreases entries, 0
  {
    var m := Members(entries, keyType, valType, types);
    NoEntryLostIff(entries, keyType, valType, types);
    MemberValues(entries, keyType, valType, types);
    forall i | 0 <= i < |entries| ensures EntryReads(entries[i], m, IsDateOnly(keyType)) {
      assert entries decreases to entries[i];
      assert entries[i] decreases to entries[i].val;
      assert Shows(m, entries[i], keyType, valType, types) && EntryApart(entries[i], keyType, valType, types);
      KeyTextReads(entries[i].key, keyType);
      ReadsBack(entries[i].val, MemberType(types, valType, KeyText(entries[i].key, keyType)));
    }
  }
}
