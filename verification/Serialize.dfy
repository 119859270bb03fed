/** The type-directed serializer of internal/query/serialize.go: `ToJSONValue` and
    `reflectValue`, which re-parse the type text at every level of a value. */
module Serialize {
  import opened Text
  import opened TypeNames

  // --- Values -----------------------------------------------------------------------------------

  /** A float is finite or one of the three values JSON cannot hold. */
  datatype Float = Finite(value: real) | PosInf | NegInf | NaN

  /** A time value, known by its two renderings: the calendar date and the RFC 3339 stamp. */
  datatype Instant = Instant(calendar: string, stamp: string)

  /** A key of a scanned map: a time, or anything else with the text `%v` gives it. */
  datatype Key = KTime(at: Instant) | KString(s: string) | KUInt(n: nat) | KInt(i: int) | KOther(text: string)

  /** What the driver scans. `Int` covers the signed and small unsigned integers, `Pointer` a
      typed pointer that may be nil; `Map` lists its entries in the order they are visited, `Json`
      holds the nested map of a JSON column. */
  datatype Value =
    | Nil
    | Bool(b: bool)
    | Str(s: string)
    | Int(i: int)
    | UInt64(u: nat)
    | BigInt(big: int)
    | NilBigInt
    | Decimal(digits: string)
    | Float64(f: Float)
    | Float32(f: Float)
    | Uuid(text: string)
    | Ip(text: string)
    | Time(at: Instant)
    | Bytes(bytes: seq<Byte>)
    | Pointer(target: Value)
    | NilPointer
    | Slice(elems: seq<Value>)
    | Map(entries: seq<Entry>)
    | VariantOf(inner: Value)
    | NilVariant
    | Json(nestedMap: Value)

  datatype Entry = Entry(key: Key, val: Value)

  /** What is handed to the JSON encoder. `Raw` is a value passed through as it was scanned. */
  datatype Out =
    | Null
    | Text(s: string)
    | Number(n: Byte)
    | FloatNumber(f: Float)
    | List(items: seq<Out>)
    | Object(members: map<string, Out>)
    | Raw(v: Value)

  // --- The serializer -----------------------------------------------------------------------------

  function FiniteOrNull(f: Float): Out {
    if f.Finite? then FloatNumber(f) else Null
  }

  function KeyText(k: Key, keyType: string): string {
    match k
    case KTime(at) => if IsDateOnly(keyType) then at.calendar else at.stamp
    case KString(s) => s
    case KUInt(n) => Itoa(n)
    case KInt(i) => Itoa(i)
    case KOther(text) => text
  }

  function ByteList(bytes: seq<Byte>): (items: seq<Out>)
    ensures |items| == |bytes| && forall i :: 0 <= i < |bytes| ==> items[i] == Number(bytes[i])
  {
    seq(|bytes|, i requires 0 <= i < |bytes| => Number(bytes[i]))
  }

  /** The type texts of a tuple's fields; no other type has any. */
  function TupleParts(dbType: string): seq<string> {
    var (name, args) := TypeName(dbType);
    if name == "Tuple" then SplitTopLevel(args) else []
  }

  /** The type text of position i of a slice. */
  function ItemType(parts: seq<string>, inner: string, i: nat): string {
    if i < |parts| then FieldType(parts[i]) else inner
  }

  function MapKeyType(dbType: string): string {
    var (name, args) := TypeName(dbType);
    var kv := SplitTopLevel(args);
    if name == "Map" && |kv| == 2 then kv[0] else ""
  }

  function MapValueType(dbType: string): string {
    var (name, args) := TypeName(dbType);
    var kv := SplitTopLevel(args);
    if name == "Map" && |kv| == 2 then kv[1] else ""
  }

  /** The types of the fields whose text holds a name, by name; a later field wins. */
  function FieldTypes(parts: seq<string>): map<string, string> {
    if parts == [] then map[]
    else
      var last := parts[|parts| - 1];
      var sp := Find(last, ' ', 0);
      var types := FieldTypes(parts[..|parts| - 1]);
      if 0 < sp < |last| then types[last[..sp] := TrimSpace(last[sp + 1..])] else types
  }

  /** The type text of the member whose key renders as key. */
  function MemberType(types: map<string, string>, valType: string, key: string): string {
    if key in types then types[key] else valType
  }

  function ToJson(v: Value, dbType: string): Out
    decreases v, 1
  {
    match v
    case Nil => Null
    case UInt64(u) => Text(Itoa(u))
    case NilBigInt => Null
    case BigInt(n) => Text(Itoa(n))
    case Decimal(digits) => Text(digits)
    case Float64(f) => FiniteOrNull(f)
    case Float32(f) => FiniteOrNull(f)
    case Uuid(text) => Text(text)
    case Ip(text) => Text(text)
    case Time(at) => Text(if IsDateOnly(dbType) then at.calendar else at.stamp)
    case Bytes(bytes) => List(ByteList(bytes))
    case NilVariant => Null
    case VariantOf(inner) => ToJson(inner, "")
    case Json(nestedMap) => ToJson(nestedMap, "")
    case _ => Reflect(v, dbType)
  }

  function Reflect(v: Value, dbType: string): Out
    decreases v, 0
  {
    match v
    case NilPointer => Null
    case Pointer(target) => ToJson(target, ElemType(dbType))
    case Slice(elems) => List(Items(elems, TupleParts(dbType), ElemType(dbType)))
    case Map(entries) =>
      Object(Members(entries, MapKeyType(dbType), MapValueType(dbType), FieldTypes(TupleParts(dbType))))
    case _ => Raw(v)
  }

  function Items(elems: seq<Value>, parts: seq<string>, inner: string): (items: seq<Out>)
    ensures |items| == |elems|
    ensures forall i :: 0 <= i < |elems| ==> items[i] == ToJson(elems[i], ItemType(parts, inner, i))
    decreases elems
  {
    seq(|elems|, i requires 0 <= i < |elems| => ToJson(elems[i], ItemType(parts, inner, i)))
  }

  /** The members of an object, entry by entry; an entry whose key renders like an earlier one
      takes its place. */
  function Members(entries: seq<Entry>, keyType: string, valType: string, types: map<string, string>): map<string, Out>
    decreases entries
  {
    if entries == [] then map[]
    else
      var e := entries[|entries| - 1];
      assert entries decreases to e;
      assert e decreases to e.val;
      var key := KeyText(e.key, keyType);
      Members(entries[..|entries| - 1], keyType, valType, types)
      [key := ToJson(e.val, MemberType(types, valType, key))]
  }

  // --- The serializer as the program runs it ------------------------------------------------------

  lemma OthersReflect(v: Value, dbType: string)
    requires v.Bool? || v.Str? || v.Int? || v.Pointer? || v.NilPointer? || v.Slice? || v.Map?
    ensures ToJson(v, dbType) == Reflect(v, dbType)
  {
  }

  lemma SliceReflects(elems: seq<Value>, dbType: string)
    ensures Reflect(Slice(elems), dbType) == List(Items(elems, TupleParts(dbType), ElemType(dbType)))
  {
  }

  lemma MapReflects(entries: seq<Entry>, dbType: string)
    ensures Reflect(Map(entries), dbType)
         == Object(Members(entries, MapKeyType(dbType), MapValueType(dbType), FieldTypes(TupleParts(dbType))))
  {
  }

  method NumericArray(bytes: seq<Byte>) returns (items: seq<Out>)
    ensures items == ByteList(bytes)
  {
    items := [];
    for i := 0 to |bytes|
      invariant |items| == i && forall k :: 0 <= k < i ==> items[k] == Number(bytes[k])
    {
      items := items + [Number(bytes[i])];
    }
  }

  method TupleTypes(dbType: string) returns (elemTypes: seq<string>)
    ensures elemTypes == TupleParts(dbType)
  {
    var (name, args) := TypeName(dbType);
    elemTypes := [];
    if name == "Tuple" {
      elemTypes := Split(args);
    }
  }

  lemma TimeRenders(at: Instant, dbType: string, date: bool)
    requires date == IsDateOnly(dbType)
    ensures ToJson(Time(at), dbType) == Text(if date then at.calendar else at.stamp)
  {
  }

  lemma NestedRenders(v: Value, dbType: string)
    ensures v.VariantOf? ==> ToJson(v, dbType) == ToJson(v.inner, "")
    ensures v.Json? ==> ToJson(v, dbType) == ToJson(v.nestedMap, "")
  {
  }

  method ToJSONValue(v: Value, dbType: string) returns (out: Out)
    ensures out == ToJson(v, dbType)
    decreases v, 1
  {
    match v {
      case Nil => return Null;
      case UInt64(u) => return Text(Itoa(u));
      case NilBigInt => return Null;
      case BigInt(n) => return Text(Itoa(n));
      case Decimal(digits) => return Text(digits);
      case Float64(f) => return FiniteOrNull(f);
      case Float32(f) => return FiniteOrNull(f);
      case Uuid(text) => return Text(text);
      case Ip(text) => return Text(text);
      case Time(at) =>
        var date := CheckDateOnly(dbType);
        TimeRenders(at, dbType, date);
        return Text(if date then at.calendar else at.stamp);
      case Bytes(bytes) =>
        var items := NumericArray(bytes);
        return List(items);
      case NilVariant => return Null;
      case VariantOf(inner) =>
        NestedRenders(v, dbType);
        out := ToJSONValue(inner, "");
      case Json(nestedMap) =>
        NestedRenders(v, dbType);
        out := ToJSONValue(nestedMap, "");
      case _ =>
        OthersReflect(v, dbType);
        out := ReflectValue(v, dbType);
    }
  }

  method ReflectValue(v: Value, dbType: string) returns (out: Out)
    ensures out == Reflect(v, dbType)
    decreases v, 0
  {
    match v {
      case NilPointer => out := Null;
      case Pointer(target) => out := ToJSONValue(target, ElemType(dbType));
      case Slice(elems) =>
        SliceReflects(elems, dbType);
        out := ReflectSlice(elems, dbType);
      case Map(entries) =>
        MapReflects(entries, dbType);
        out := ReflectMap(entries, dbType);
      case _ => out := Raw(v);
    }
  }

  lemma ItemsSnoc(elems: seq<Value>, parts: seq<string>, inner: string, i: nat)
    requires i < |elems|
    ensures Items(elems[..i + 1], parts, inner)
         == Items(elems[..i], parts, inner) + [ToJson(elems[i], ItemType(parts, inner, i))]
  {
  }

  method ReflectSlice(elems: seq<Value>, dbType: string) returns (out: Out)
    ensures out == List(Items(elems, TupleParts(dbType), ElemType(dbType)))
    decreases elems, 2
  {
    var elemTypes := TupleTypes(dbType);
    var inner := ElemType(dbType);
    var items: seq<Out> := [];
    for i := 0 to |elems|
      invariant items == Items(elems[..i], elemTypes, inner)
    {
      ItemsSnoc(elems, elemTypes, inner, i);
      var t := inner;
      if i < |elemTypes| {
        t := FieldType(elemTypes[i]);
      }
      var item := ToJSONValue(elems[i], t);
      items := items + [item];
    }
    assert elems[..|elems|] == elems;
    out := List(items);
  }

  method MapTypes(dbType: string) returns (keyType: string, valType: string, types: map<string, string>)
    ensures keyType == MapKeyType(dbType) && valType == MapValueType(dbType)
    ensures types == FieldTypes(TupleParts(dbType))
  {
    var (name, args) := TypeName(dbType);
    keyType, valType, types := "", "", map[];
    if name == "Map" {
      var kv := Split(args);
      if |kv| == 2 {
        keyType, valType := kv[0], kv[1];
      }
    } else if name == "Tuple" {
      var parts := Split(args);
      types := NamedTypes(parts);
    }
  }

  method NamedTypes(parts: seq<string>) returns (types: map<string, string>)
    ensures types == FieldTypes(parts)
  {
    types := map[];
    for i := 0 to |parts|
      invariant types == FieldTypes(parts[..i])
    {
      assert parts[..i + 1][..i] == parts[..i];
      var sp := Find(parts[i], ' ', 0);
      if 0 < sp < |parts[i]| {
        types := types[parts[i][..sp] := TrimSpace(parts[i][sp + 1..])];
      }
    }
    assert parts[..|parts|] == parts;
  }

  method ReflectMap(entries: seq<Entry>, dbType: string) returns (out: Out)
    ensures out == Object(Members(entries, MapKeyType(dbType), MapValueType(dbType), FieldTypes(TupleParts(dbType))))
    decreases entries, 2
  {
    var keyType, valType, fieldTypes := MapTypes(dbType);
    var members: map<string, Out> := map[];
    for i := 0 to |entries|
      invariant members == Members(entries[..i], keyType, valType, fieldTypes)
    {
      assert entries[..i + 1][..i] == entries[..i];
      assert entries decreases to entries[i];
      assert entries[i] decreases to entries[i].val;
      var key := KeyText(entries[i].key, keyType);
      var vt := valType;
      if key in fieldTypes {
        vt := fieldTypes[key];
      }
      var member := ToJSONValue(entries[i].val, vt);
      members := members[key := member];
    }
    assert entries[..|entries|] == entries;
    out := Object(members);
  }
}
