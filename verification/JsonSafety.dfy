/** What the serializer guarantees of its output at every depth, whatever the type text. */
module JsonSafety {
  import opened Text
  import opened TypeNames
  import opened Serialize

  /** Nothing the JSON encoder cannot write, and nothing in raw form that is written as text: no
      infinity or NaN, and no 64-bit unsigned, big integer, decimal, time or address. Signed
      integers are raw whatever their size. */
  predicate JsonSafe(o: Out) {
    match o
    case FloatNumber(f) => f.Finite?
    case List(items) => forall i :: 0 <= i < |items| ==> JsonSafe(items[i])
    case Object(members) => forall k <- members :: JsonSafe(members[k])
    case Raw(v) => v.Bool? || v.Str? || v.Int?
    case _ => true
  }

  predicate AllSafe(members: map<string, Out>) {
    forall k <- members :: JsonSafe(members[k])
  }

  lemma {:induction false} MembersSafe(entries: seq<Entry>, keyType: string, valType: string,
                                       types: map<string, string>)
    ensures AllSafe(Members(entries, keyType, valType, types))
    decreases entries
  {
    if entries == [] {
    } else {
      var e := entries[|entries| - 1];
      assert entries decreases to e;
      assert e decreases to e.val;
      MembersSafe(entries[..|entries| - 1], keyType, valType, types);
      RendersSafe(e.val, MemberType(types, valType, KeyText(e.key, keyType)));
    }
  }

  lemma ObjectSafe(members: map<string, Out>)
    requires AllSafe(members)
    ensures JsonSafe(Object(members))
  {
  }

  lemma {:induction false} ItemsSafe(elems: seq<Value>, parts: seq<string>, inner: string)
    ensures forall i :: 0 <= i < |elems| ==> JsonSafe(Items(elems, parts, inner)[i])
    decreases elems
  {
    forall i | 0 <= i < |elems| ensures JsonSafe(Items(elems, parts, inner)[i]) {
      RendersSafe(elems[i], ItemType(parts, inner, i));
    }
  }

  lemma {:induction false} ReflectSafe(v: Value, dbType: string)
    ensures v.Pointer? || v.NilPointer? || v.Slice? || v.Map? || v.Bool? || v.Str? || v.Int? ==>
              JsonSafe(Reflect(v, dbType))
    decreases v, 0
  {
    match v
    case Pointer(target) => RendersSafe(target, ElemType(dbType));
    case Slice(elems) =>
      SliceReflects(elems, dbType);
      ItemsSafe(elems, TupleParts(dbType), ElemType(dbType));
    case Map(entries) =>
      var keyType, valType, types := MapKeyType(dbType), MapValueType(dbType), FieldTypes(TupleParts(dbType));
      MapReflects(entries, dbType);
      MembersSafe(entries, keyType, valType, types);
      ObjectSafe(Members(entries, keyType, valType, types));
    case _ =>
  }

  /** Every rendering is safe, for every value under every type text. */
  lemma {:induction false} RendersSafe(v: Value, dbType: string)
    ensures JsonSafe(ToJson(v, dbType))
    decreases v, 1
  {
    match v
    case VariantOf(inner) => RendersSafe(inner, "");
    case Json(nestedMap) => RendersSafe(nestedMap, "");
    case _ => ReflectSafe(v, dbType);
  }

  /** Numbers too wide for JSON come back from their text. */
  lemma WideNumbersParseBack(n: int, dbType: string)
    ensures ToJson(BigInt(n), dbType) == Text(Itoa(n)) && ParseInt(Itoa(n)) == n
    ensures n >= 0 ==> ToJson(UInt64(n), dbType) == Text(Itoa(n))
  {
    ItoaParses(n);
  }

  // --- Object keys ------------------------------------------------------------------------------------

  /** The texts under which the entries go into the object. */
  function KeyTexts(entries: seq<Entry>, keyType: string): (texts: seq<string>)
    ensures |texts| == |entries| && forall i :: 0 <= i < |entries| ==> texts[i] == KeyText(entries[i].key, keyType)
  {
    seq(|entries|, i requires 0 <= i < |entries| => KeyText(entries[i].key, keyType))
  }

  predicate Distinct(texts: seq<string>) {
    forall i, j :: 0 <= i < j < |texts| ==> texts[i] != texts[j]
  }

  /** No two keys render alike. */
  predicate DistinctKeys(entries: seq<Entry>, keyType: string) {
    Distinct(KeyTexts(entries, keyType))
  }

  function Elements(texts: seq<string>): set<string> {
    set t | t in texts
  }

  lemma ElementsSnoc(texts: seq<string>)
    requires texts != []
    ensures Elements(texts) == Elements(texts[..|texts| - 1]) + {texts[|texts| - 1]}
  {
    var n := |texts| - 1;
    assert texts == texts[..n] + [texts[n]];
  }

  lemma DistinctSnoc(texts: seq<string>)
    requires texts != []
    ensures var n := |texts| - 1; Distinct(texts) <==> Distinct(texts[..n]) && texts[n] !in texts[..n]
  {
    var n := |texts| - 1;
    if Distinct(texts) {
      forall i | 0 <= i < n ensures texts[..n][i] != texts[n] {}
    }
    if Distinct(texts[..n]) && texts[n] !in texts[..n] {
      forall i, j | 0 <= i < j < |texts| ensures texts[i] != texts[j] {
        assert texts[i] == texts[..n][i];
        if j < n { assert texts[j] == texts[..n][j]; }
      }
    }
  }

  lemma {:induction false} ElementCount(texts: seq<string>)
    ensures |Elements(texts)| <= |texts|
    ensures |Elements(texts)| == |texts| <==> Distinct(texts)
  {
    if texts == [] {
      assert Elements(texts) == {};
    } else {
      var before, last := texts[..|texts| - 1], texts[|texts| - 1];
      ElementCount(before);
      ElementsSnoc(texts);
      DistinctSnoc(texts);
      if last in before { assert Elements(texts) == Elements(before); }
    }
  }

  // The keys of an object are exactly the rendered keys.
  lemma {:induction false} MemberKeys(entries: seq<Entry>, keyType: string, valType: string, types: map<string, string>)
    ensures Members(entries, keyType, valType, types).Keys == Elements(KeyTexts(entries, keyType))
  {
    var texts := KeyTexts(entries, keyType);
    if entries == [] {
      assert Elements(texts) == {};
    } else {
      MemberKeys(entries[..|entries| - 1], keyType, valType, types);
      assert KeyTexts(entries[..|entries| - 1], keyType) == texts[..|entries| - 1];
      ElementsSnoc(texts);
    }
  }

  // With distinct keys every entry keeps its own rendering.
  lemma {:induction false} MemberValues(entries: seq<Entry>, keyType: string, valType: string,
                                        types: map<string, string>)
    requires DistinctKeys(entries, keyType)
    ensures var m := Members(entries, keyType, valType, types);
            forall i :: 0 <= i < |entries| ==> Shows(m, entries[i], keyType, valType, types)
  {
    if entries == [] {
    } else {
      var n, texts := |entries| - 1, KeyTexts(entries, keyType);
      var before := entries[..n];
      assert KeyTexts(before, keyType) == texts[..n];
      DistinctSnoc(texts);
      MemberValues(before, keyType, valType, types);
      var m, m' := Members(before, keyType, valType, types), Members(entries, keyType, valType, types);
      forall i | 0 <= i < n ensures Shows(m', entries[i], keyType, valType, types) {
        assert Shows(m, before[i], keyType, valType, types);
        assert texts[..n][i] != texts[n];
      }
    }
  }

  /** The entry is in the object, under its key and with its own rendering. */
  predicate Shows(m: map<string, Out>, e: Entry, keyType: string, valType: string, types: map<string, string>) {
    var k := KeyText(e.key, keyType);
    k in m && m[k] == ToJson(e.val, MemberType(types, valType, k))
  }

  lemma MembersStep(entries: seq<Entry>, keyType: string, valType: string, types: map<string, string>)
    requires entries != []
    ensures var n, e := |entries| - 1, entries[|entries| - 1];
            Members(entries, keyType, valType, types) ==
              Members(entries[..n], keyType, valType, types)
              [KeyText(e.key, keyType) := ToJson(e.val, MemberType(types, valType, KeyText(e.key, keyType)))]
  {
  }

  /** The entry visited last of those whose key renders as k. */
  predicate IsLast(entries: seq<Entry>, keyType: string, k: string, i: nat) {
    && i < |entries| && KeyText(entries[i].key, keyType) == k
    && forall j :: i < j < |entries| ==> KeyText(entries[j].key, keyType) != k
  }

  /** Where keys render alike, the entry visited last is the one that is kept, in full. */
  lemma {:induction false} LastEntryStays(entries: seq<Entry>, keyType: string, valType: string,
                                          types: map<string, string>, k: string, i: nat)
    requires IsLast(entries, keyType, k, i)
    ensures k in Members(entries, keyType, valType, types)
    ensures Members(entries, keyType, valType, types)[k] == ToJson(entries[i].val, MemberType(types, valType, k))
  {
    var n := |entries| - 1;
    MembersStep(entries, keyType, valType, types);
    if i < n {
      var before := entries[..n];
      assert before[i] == entries[i] && IsLast(before, keyType, k, i);
      LastEntryStays(before, keyType, valType, types, k, i);
    }
  }

  /** A Map loses no entry exactly when no two of its keys render alike. */
  lemma NoEntryLostIff(entries: seq<Entry>, keyType: string, valType: string, types: map<string, string>)
    ensures |Members(entries, keyType, valType, types)| == |entries| <==> DistinctKeys(entries, keyType)
  {
    var m := Members(entries, keyType, valType, types);
    MemberKeys(entries, keyType, valType, types);
    ElementCount(KeyTexts(entries, keyType));
    assert |m| == |m.Keys|;
  }

  /** String and integer keys render injectively within their kind, under any key type. */
  lemma PlainKeysDistinct(j: Key, k: Key, keyType: string)
    requires j != k && ((j.KString? && k.KString?) || (j.KUInt? && k.KUInt?) || (j.KInt? && k.KInt?))
    ensures KeyText(j, keyType) != KeyText(k, keyType)
  {
    match j
    case KUInt(n) => if Itoa(n) == Itoa(k.n) { ItoaInjective(n, k.n); }
    case KInt(n) => if Itoa(n) == Itoa(k.i) { ItoaInjective(n, k.i); }
    case KString(_) =>
  }

  predicate SameKind(entries: seq<Entry>) {
    || (forall i :: 0 <= i < |entries| ==> entries[i].key.KString?)
    || (forall i :: 0 <= i < |entries| ==> entries[i].key.KUInt?)
    || (forall i :: 0 <= i < |entries| ==> entries[i].key.KInt?)
  }

  /** A Map with string or integer keys, which a scanned Go map holds at most once each, loses no
      entry and keeps every value under its own key. */
  lemma PlainMapLosesNothing(entries: seq<Entry>, keyType: string, valType: string, types: map<string, string>)
    requires SameKind(entries)
    requires forall i, j :: 0 <= i < j < |entries| ==> entries[i].key != entries[j].key
    ensures |Members(entries, keyType, valType, types)| == |entries|
    ensures forall i :: 0 <= i < |entries| ==>
              Shows(Members(entries, keyType, valType, types), entries[i], keyType, valType, types)
  {
    forall i, j | 0 <= i < j < |entries| ensures KeyText(entries[i].key, keyType) != KeyText(entries[j].key, keyType) {
      PlainKeysDistinct(entries[i].key, entries[j].key, keyType);
    }
    NoEntryLostIff(entries, keyType, valType, types);
    MemberValues(entries, keyType, valType, types);
  }

  // Every member of one object is a member of another that shows the same entries.
  lemma MembersWithin(es: seq<Entry>, m': map<string, Out>, keyType: string, valType: string,
                      types: map<string, string>)
    requires DistinctKeys(es, keyType)
    requires forall e :: e in es ==> Shows(m', e, keyType, valType, types)
    ensures var m := Members(es, keyType, valType, types); forall k <- m :: k in m' && m'[k] == m[k]
  {
    MemberKeys(es, keyType, valType, types);
    MemberValues(es, keyType, valType, types);
    var m := Members(es, keyType, valType, types);
    forall k <- m ensures k in m' && m'[k] == m[k] {
      assert k in KeyTexts(es, keyType);
      var i :| 0 <= i < |es| && KeyTexts(es, keyType)[i] == k;
      assert Shows(m, es[i], keyType, valType, types);
      assert Shows(m', es[i], keyType, valType, types);
    }
  }

  lemma ShowsAll(es: seq<Entry>, keyType: string, valType: string, types: map<string, string>)
    requires DistinctKeys(es, keyType)
    ensures forall e :: e in es ==> Shows(Members(es, keyType, valType, types), e, keyType, valType, types)
  {
    MemberValues(es, keyType, valType, types);
  }

  /** Go visits the entries of a map in any order; with distinct keys the object is the same. */
  lemma OrderDoesNotMatter(es: seq<Entry>, fs: seq<Entry>, keyType: string, valType: string, types: map<string, string>)
    requires DistinctKeys(es, keyType) && DistinctKeys(fs, keyType)
    requires forall e :: e in es <==> e in fs
    ensures Members(es, keyType, valType, types) == Members(fs, keyType, valType, types)
  {
    ShowsAll(es, keyType, valType, types);
    ShowsAll(fs, keyType, valType, types);
    MembersWithin(es, Members(fs, keyType, valType, types), keyType, valType, types);
    MembersWithin(fs, Members(es, keyType, valType, types), keyType, valType, types);
  }
}
