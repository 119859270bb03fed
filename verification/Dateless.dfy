/** Types without dates: they ask for nothing that having no type would not give, and their text
    makes no time print as a date. */
module Dateless {
  import opened Text
  import opened TypeNames
  import opened TypeAst
  import opened TypeTexts
  import opened Serialize
  import opened Expectation

  /** Some position of the type prints times as calendar dates. */
  predicate HasDate(t: Ty) {
    match t
    case Opaque => false
    case Leaf(_, _) => DateLeaf(t)
    case Array(e) => HasDate(e)
    case Nullable(e) => HasDate(e)
    case LowCardinality(e) => HasDate(e)
    case SimpleAgg(_, e) => HasDate(e)
    case MapOf(k, v) => DateLeaf(k) || HasDate(v)
    case Tuple(fields) => exists i :: 0 <= i < |fields| && HasDate(fields[i].ty)
    case Variant(_) => false
  }

  lemma {:induction false} DateLeafHasDate(t: Ty)
    requires DateLeaf(t)
    ensures HasDate(t)
  {
    match t
    case Leaf(_, _) =>
    case Array(e) => DateLeafHasDate(e);
    case Nullable(e) => DateLeafHasDate(e);
    case LowCardinality(e) => DateLeafHasDate(e);
    case SimpleAgg(_, e) => DateLeafHasDate(e);
  }

  lemma {:induction false} CoreHasDate(t: Ty)
    ensures HasDate(Core(t)) == HasDate(t)
  {
    match t
    case LowCardinality(e) => CoreHasDate(e);
    case SimpleAgg(_, e) => CoreHasDate(e);
    case _ =>
  }

  lemma {:induction false} FieldTyHasDate(fields: seq<Field>, name: string)
    requires HasDate(FieldTy(fields, name))
    ensures exists i :: 0 <= i < |fields| && HasDate(fields[i].ty)
  {
    var n := |fields| - 1;
    if !(fields[n].name != "" && fields[n].name == name) {
      FieldTyHasDate(fields[..n], name);
      var i :| 0 <= i < n && HasDate(fields[..n][i].ty);
      assert HasDate(fields[i].ty);
    }
  }

  // Below a type without dates there are no dates.
  lemma PartsHaveNoDate(t: Ty)
    requires !HasDate(t)
    ensures !HasDate(Pointee(t)) && !DateLeaf(KeyTy(t)) && !DateLeaf(t)
    ensures forall i: nat :: !HasDate(ItemTy(t, i))
    ensures forall name :: !HasDate(MemberTy(t, name))
  {
    CoreHasDate(t);
    if DateLeaf(t) { DateLeafHasDate(t); }
    forall name ensures !HasDate(MemberTy(t, name)) {
      if Core(t).Tuple? && HasDate(FieldTy(Core(t).fields, name)) {
        FieldTyHasDate(Core(t).fields, name);
      }
    }
  }

  lemma {:induction false} MembersAlike(entries: seq<Entry>, t: Ty)
    requires forall i :: 0 <= i < |entries| ==>
               var key := ExpectedKey(entries[i].key, KeyTy(t));
               && key == ExpectedKey(entries[i].key, Opaque)
               && Expected(entries[i].val, MemberTy(t, key)) == Expected(entries[i].val, Opaque)
    ensures ExpectedMembers(entries, t) == ExpectedMembers(entries, Opaque)
  {
    if entries == [] {
    } else {
      MembersAlike(entries[..|entries| - 1], t);
    }
  }

  /** A type without dates asks for nothing that having no type would not give. */
  lemma {:induction false} NoDateIsOpaque(v: Value, t: Ty)
    requires !HasDate(t)
    ensures Expected(v, t) == Expected(v, Opaque)
    decreases v
  {
    PartsHaveNoDate(t);
    match v
    case Pointer(target) => NoDateIsOpaque(target, Pointee(t));
    case Slice(elems) =>
      forall i | 0 <= i < |elems| ensures Expected(elems[i], ItemTy(t, i)) == Expected(elems[i], Opaque) {
        NoDateIsOpaque(elems[i], ItemTy(t, i));
      }
      assert ExpectedItems(elems, t) == ExpectedItems(elems, Opaque);
    case Map(entries) =>
      forall i | 0 <= i < |entries|
        ensures var key := ExpectedKey(entries[i].key, KeyTy(t));
                && key == ExpectedKey(entries[i].key, Opaque)
                && Expected(entries[i].val, MemberTy(t, key)) == Expected(entries[i].val, Opaque)
      {
        NoDateIsOpaque(entries[i].val, MemberTy(t, ExpectedKey(entries[i].key, KeyTy(t))));
      }
      MembersAlike(entries, t);
    case _ =>
  }

  // --- Under the text of a type without dates ---------------------------------------------------

  /** No rendered key holds an opening paren, which no field's name does either. */
  predicate PlainNames(v: Value) {
    match v
    case Pointer(target) => PlainNames(target)
    case Slice(elems) => forall i :: 0 <= i < |elems| ==> PlainNames(elems[i])
    case Map(entries) => forall i :: 0 <= i < |entries| ==> PlainEntry(entries[i])
    case _ => true
  }

  predicate PlainEntry(e: Entry)
    decreases e
  {
    '(' !in KeyText(e.key, "") && PlainNames(e.val)
  }

  // The text of a field: a name before its type, or a type whose first space is inside parens.
  predicate PartOf(part: string, name: string, body: string) {
    if name == "" then var sp := Find(part, ' ', 0); sp == |part| || '(' in part[..sp]
    else Word(name) && body != "" && Trimmed(body) && part == name + " " + body
  }

  lemma FieldIsPart(f: Field)
    requires WellFormed(f.ty) && (f.name == "" || Word(f.name))
    ensures PartOf(RenderField(f), f.name, Render(f.ty))
  {
    RenderSolid(f.ty);
    if f.name == "" { SpaceAfterParen(f.ty); }
  }

  // The last part's entry in the table of field types, if it has one.
  lemma LastPart(parts: seq<string>, name: string, body: string, key: string)
    requires parts != [] && PartOf(parts[|parts| - 1], name, body)
    requires '(' !in key && key in FieldTypes(parts)
    ensures var before := FieldTypes(parts[..|parts| - 1]);
            FieldTypes(parts)[key] == body || (key in before && FieldTypes(parts)[key] == before[key])
  {
    if name != "" { FieldTypesLast(parts, name, body); }
  }

  // The table holds, under a key without parens, the body of some part.
  lemma {:induction false} PlainPartType(parts: seq<string>, names: seq<string>, bodies: seq<string>, key: string)
    requires |parts| == |names| == |bodies|
    requires forall i :: 0 <= i < |parts| ==> PartOf(parts[i], names[i], bodies[i])
    requires '(' !in key && key in FieldTypes(parts)
    ensures FieldTypes(parts)[key] in bodies
  {
    var n := |parts| - 1;
    LastPart(parts, names[n], bodies[n], key);
    if FieldTypes(parts)[key] != bodies[n] {
      PlainPartType(parts[..n], names[..n], bodies[..n], key);
    }
  }

  lemma PlainFieldType(fields: seq<Field>, key: string) returns (i: nat)
    requires WellFormed(Tuple(fields)) && '(' !in key
    ensures var types := FieldTypes(RenderFields(fields));
            key in types ==> i < |fields| && types[key] == Render(fields[i].ty)
  {
    i := 0;
    var names := seq(|fields|, k requires 0 <= k < |fields| => fields[k].name);
    var bodies := seq(|fields|, k requires 0 <= k < |fields| => Render(fields[k].ty));
    forall k | 0 <= k < |fields| ensures PartOf(RenderFields(fields)[k], names[k], bodies[k]) {
      FieldIsPart(fields[k]);
    }
    if key in FieldTypes(RenderFields(fields)) {
      PlainPartType(RenderFields(fields), names, bodies, key);
      i :| 0 <= i < |fields| && bodies[i] == FieldTypes(RenderFields(fields))[key];
    }
  }

  /** Under the text of a type without dates no time prints as a date, in any value whose keys hold
      no paren, be it of that type or not. */
  lemma {:induction false} DatelessRenders(v: Value, s: Ty)
    requires WellFormed(s) && !HasDate(s) && PlainNames(v)
    ensures ToJson(v, Render(s)) == Expected(v, Opaque)
    decreases v, 0
  {
    match v
    case Time(at) => DatelessTime(at, s);
    case VariantOf(inner) => OpaqueRenders(inner);
    case Json(nestedMap) => OpaqueRenders(nestedMap);
    case Pointer(target) => DatelessTarget(target, s);
    case Slice(elems) => DatelessItems(elems, s);
    case Map(entries) => DatelessEntries(entries, s);
    case _ => TimeFreeRenders(v, Render(s), Opaque);
  }

  lemma LeafElemUntyped(s: Ty)
    requires WellFormed(s) && s.Leaf? && |SplitTopLevel(s.params)| == 1
    ensures Untyped(ElemType(Render(s)))
  {
    LeafElem(s.head, s.params);
    PartShort(s.params, 0);
    LiteralIsUntyped(SplitTopLevel(s.params)[0]);
  }

  lemma DatelessTime(at: Instant, s: Ty)
    requires WellFormed(s) && !HasDate(s)
    ensures ToJson(Time(at), Render(s)) == Expected(Time(at), Opaque)
  {
    if DateLeaf(s) { DateLeafHasDate(s); }
    IsDateOnlyIff(s);
  }

  // What lies behind a type without dates is known or has none.
  predicate Quiet(text: string, s: Ty) {
    Untyped(text) || (text == Render(s) && WellFormed(s) && !HasDate(s))
  }

  lemma ElemIsQuiet(s: Ty)
    requires WellFormed(s) && !HasDate(s)
    ensures Quiet(ElemType(Render(s)), Behind(s, Far(s)))
  {
    if s.Leaf? {
      if |SplitTopLevel(s.params)| == 1 { LeafElemUntyped(s); } else { ElemTypeOfRender(s); }
    } else {
      FarText(s);
    }
  }

  lemma ItemIsQuiet(s: Ty, i: nat)
    requires WellFormed(s) && !HasDate(s)
    ensures Quiet(ItemType(TupleParts(Render(s)), ElemType(Render(s)), i), Behind(s, i))
  {
    if s.Leaf? {
      LeafText(s.head, s.params);
      ElemIsQuiet(s);
    } else {
      BehindText(s, i);
    }
  }

  lemma {:induction false} QuietRenders(v: Value, text: string, s: Ty)
    requires Quiet(text, s) && PlainNames(v)
    ensures ToJson(v, text) == Expected(v, Opaque)
    decreases v, 1
  {
    if Untyped(text) { UntypedRenders(v, text); } else { DatelessRenders(v, s); }
  }

  lemma {:induction false} DatelessTarget(target: Value, s: Ty)
    requires WellFormed(s) && !HasDate(s) && PlainNames(target)
    ensures ToJson(Pointer(target), Render(s)) == Expected(Pointer(target), Opaque)
    decreases target, 2
  {
    ElemIsQuiet(s);
    QuietRenders(target, ElemType(Render(s)), Behind(s, Far(s)));
    PointerSides(target, Render(s), Opaque);
  }

  lemma {:induction false} DatelessItems(elems: seq<Value>, s: Ty)
    requires WellFormed(s) && !HasDate(s) && forall i :: 0 <= i < |elems| ==> PlainNames(elems[i])
    ensures ToJson(Slice(elems), Render(s)) == Expected(Slice(elems), Opaque)
    decreases elems
  {
    var parts, inner := TupleParts(Render(s)), ElemType(Render(s));
    forall i | 0 <= i < |elems| ensures ItemAgrees(elems[i], parts, inner, i, Opaque) {
      ItemIsQuiet(s, i);
      QuietRenders(elems[i], ItemType(parts, inner, i), Behind(s, i));
    }
    SliceAgrees(elems, Render(s), parts, inner, Opaque);
  }

  lemma {:induction false} DatelessEntries(entries: seq<Entry>, s: Ty)
    requires WellFormed(s) && !HasDate(s) && forall i :: 0 <= i < |entries| ==> PlainEntry(entries[i])
    ensures ToJson(Map(entries), Render(s)) == Expected(Map(entries), Opaque)
    decreases entries
  {
    var text := Render(s);
    forall i | 0 <= i < |entries|
      ensures EntryAgrees(entries[i], MapKeyType(text), MapValueType(text), FieldTypes(TupleParts(text)), Opaque)
    {
      assert entries decreases to entries[i];
      assert entries[i] decreases to entries[i].val;
      DatelessEntry(entries[i], s);
    }
    ObjectAgrees(entries, text, Opaque);
  }

  lemma {:induction false} DatelessEntry(e: Entry, s: Ty)
    requires WellFormed(s) && !HasDate(s) && PlainEntry(e)
    ensures var text := Render(s);
            EntryAgrees(e, MapKeyType(text), MapValueType(text), FieldTypes(TupleParts(text)), Opaque)
    decreases e
  {
    var key := KeyText(e.key, "");
    NoTextIsUntyped();
    UntypedText("");
    if s.MapOf? {
      MapText(s.key, s.val);
      IsDateOnlyIff(s.key);
      DatelessRenders(e.val, s.val);
    } else {
      OtherText(s);
      var types := FieldTypes(TupleParts(Render(s)));
      if key in types {
        TupleText(s.fields);
        var i := PlainFieldType(s.fields, key);
        DatelessRenders(e.val, s.fields[i].ty);
      } else {
        OpaqueRenders(e.val);
      }
    }
  }
}
