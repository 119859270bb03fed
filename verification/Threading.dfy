/** Type threading is faithful: the serializer, which re-parses type text at every level, equals
    a specification that walks the type's tree. */
module Threading {
  import opened TypeNames
  import opened TypeAst
  import opened TypeTexts
  import opened Serialize
  import opened Expectation
  import opened Dateless

  /** Wrappers down to a leaf. */
  predicate Spine(t: Ty) {
    match t
    case Leaf(_, _) => true
    case Array(e) => Spine(e)
    case Nullable(e) => Spine(e)
    case LowCardinality(e) => Spine(e)
    case SimpleAgg(_, e) => Spine(e)
    case _ => false
  }

  /** Every transparent wrapper over something with a date in it wraps just a date, behind other
      wrappers perhaps. */
  predicate Threads(t: Ty) {
    match t
    case Array(e) => Threads(e)
    case Nullable(e) => Threads(e)
    case LowCardinality(e) => HasDate(e) ==> DateLeaf(e)
    case SimpleAgg(_, e) => HasDate(e) ==> DateLeaf(e)
    case MapOf(_, v) => Threads(v)
    case Tuple(fields) => forall i :: 0 <= i < |fields| ==> Threads(fields[i].ty)
    case _ => true
  }

  /** The transparent wrappers sit only over wrapped leaves: the Map and Tuple arms of the
      serializer do not look through them. */
  predicate Threadable(t: Ty) {
    match t
    case Array(e) => Threadable(e)
    case Nullable(e) => Threadable(e)
    case LowCardinality(e) => Spine(e)
    case SimpleAgg(_, e) => Spine(e)
    case MapOf(_, v) => Threadable(v)
    case Tuple(fields) => forall i :: 0 <= i < |fields| ==> Threadable(fields[i].ty)
    case _ => true
  }

  /** A value threads through a type: any value when transparent wrappers sit only over wrapped
      leaves, and otherwise, when they hide no date, one whose keys hold no paren. */
  predicate Fits(v: Value, t: Ty) {
    Threadable(t) || (Threads(t) && PlainNames(v))
  }

  predicate EntryFits(e: Entry, t: Ty) {
    Threadable(t) || (Threads(t) && PlainEntry(e))
  }

  lemma ItemsFit(elems: seq<Value>, t: Ty)
    requires Fits(Slice(elems), t)
    ensures t.Array? ==> forall i :: 0 <= i < |elems| ==> Fits(elems[i], t.elem)
    ensures t.Tuple? && |elems| == |t.fields| ==> forall i :: 0 <= i < |elems| ==> Fits(elems[i], t.fields[i].ty)
  {
  }

  lemma EntriesFit(entries: seq<Entry>, t: Ty)
    requires Fits(Map(entries), t)
    ensures forall i :: 0 <= i < |entries| ==> EntryFits(entries[i], t)
  {
  }

  lemma {:induction false} DateLeafIsSpine(t: Ty)
    requires DateLeaf(t)
    ensures Spine(t)
  {
    if IsWrapper(t) {
      DateLeafIsSpine(t.elem);
    }
  }

  // --- Under a transparent wrapper: the type text may lag behind ---------------------------------------

  /** e lies at or below s along the wrappers of s. */
  predicate Below(e: Ty, s: Ty) {
    e == s || (IsWrapper(s) && Below(e, s.elem))
  }

  lemma {:induction false} BelowElem(e: Ty, s: Ty)
    requires Below(e, s) && IsWrapper(e)
    ensures IsWrapper(s) && Below(e.elem, s.elem)
  {
    if e == s {
    } else {
      BelowElem(e, s.elem);
      BelowStep(e.elem, s.elem);
    }
  }

  // What is strictly below is below.
  lemma BelowStep(e: Ty, s: Ty)
    requires IsWrapper(s) && Below(e, s.elem)
    ensures Below(e, s)
  {
  }

  lemma {:induction false} BelowCore(e: Ty, s: Ty)
    requires Below(e, s)
    ensures Below(Core(e), s)
    decreases e
  {
    if e.LowCardinality? || e.SimpleAgg? {
      BelowElem(e, s);
      BelowStep(e.elem, s);
      BelowCore(e.elem, s);
    }
  }

  lemma {:induction false} BelowSpine(e: Ty, s: Ty)
    requires Below(e, s) && Spine(s)
    ensures Spine(e) && DateLeaf(e) == DateLeaf(s)
    decreases s
  {
    if e == s {
    } else {
      BelowSpine(e, s.elem);
    }
  }

  lemma {:induction false} SpineCore(e: Ty)
    requires Spine(e)
    ensures Core(e).Leaf? || Core(e).Array? || Core(e).Nullable?
  {
    if e.LowCardinality? || e.SimpleAgg? {
      SpineCore(e.elem);
    }
  }

  /** Down a chain of wrappers the text in hand may be that of any type above: only the leaf
      decides how a time prints, and the leaf is the same. */
  lemma {:induction false} SpineThreads(v: Value, e: Ty, s: Ty)
    requires WellFormed(s) && Spine(s) && Below(e, s) && WellTyped(v, e)
    ensures ToJson(v, Render(s)) == Expected(v, e)
    decreases v
  {
    BelowSpine(e, s);
    if TimeFree(v) {
      TimeFreeRenders(v, Render(s), e);
    } else {
      BelowCore(e, s);
      SpineCore(e);
      match v
      case Time(at) => IsDateOnlyIff(s);
      case Pointer(target) =>
        BelowElem(Core(e), s);
        WrapperText(s);
        SpineThreads(target, Pointee(e), s.elem);
      case Slice(elems) =>
        BelowElem(Core(e), s);
        SpineItems(elems, e, s);
    }
  }

  lemma {:induction false} SpineItems(elems: seq<Value>, e: Ty, s: Ty)
    requires WellFormed(s) && Spine(s) && IsWrapper(s) && Core(e).Array? && Below(Core(e).elem, s.elem)
    requires forall i :: 0 <= i < |elems| ==> WellTyped(elems[i], Core(e).elem)
    ensures ToJson(Slice(elems), Render(s)) == Expected(Slice(elems), e)
    decreases elems
  {
    WrapperText(s);
    forall i | 0 <= i < |elems| ensures ItemAgrees(elems[i], [], Render(s.elem), i, e) {
      SpineThreads(elems[i], Core(e).elem, s.elem);
    }
    SliceAgrees(elems, Render(s), [], Render(s.elem), e);
  }

  // --- Maps and tuples ----------------------------------------------------------------------------------

  lemma HasFieldBefore(fields: seq<Field>, name: string)
    requires HasField(fields, name) && fields[|fields| - 1].name != name
    ensures HasField(fields[..|fields| - 1], name)
  {
    var i :| 0 <= i < |fields| && fields[i].name == name;
    assert fields[..|fields| - 1][i].name == name;
  }

  lemma LastFieldType(fields: seq<Field>)
    requires fields != [] && Word(fields[|fields| - 1].name) && WellFormed(fields[|fields| - 1].ty)
    ensures var n := |fields| - 1;
            FieldTypes(RenderFields(fields))
            == FieldTypes(RenderFields(fields[..n]))[fields[n].name := Render(fields[n].ty)]
  {
    var last := fields[|fields| - 1];
    RenderTrimmed(last.ty);
    FieldsLast(fields);
    FieldTypesSnoc(RenderFields(fields), RenderFields(fields[..|fields| - 1]), last.name, Render(last.ty));
  }

  /** The fields of a named tuple are found by name. */
  lemma {:induction false} FieldTypesOf(fields: seq<Field>, name: string)
    requires forall i :: 0 <= i < |fields| ==> Word(fields[i].name) && WellFormed(fields[i].ty)
    requires HasField(fields, name)
    ensures var types := FieldTypes(RenderFields(fields));
            name in types && types[name] == Render(FieldTy(fields, name))
  {
    var n := |fields| - 1;
    LastFieldType(fields);
    if fields[n].name != name {
      HasFieldBefore(fields, name);
      FieldTypesOf(fields[..n], name);
    }
  }

  lemma {:induction false} FieldTyIsOne(fields: seq<Field>, name: string) returns (i: nat)
    requires HasField(fields, name)
    ensures i < |fields| && FieldTy(fields, name) == fields[i].ty
  {
    i := |fields| - 1;
    if fields[i].name != name {
      HasFieldBefore(fields, name);
      i := FieldTyIsOne(fields[..i], name);
    }
  }

  lemma KeyThreads(k: Key, keyTy: Ty)
    requires WellFormed(keyTy)
    ensures KeyText(k, Render(keyTy)) == ExpectedKey(k, keyTy)
  {
    IsDateOnlyIff(keyTy);
  }

  // --- The theorem ----------------------------------------------------------------------------------------

  // Under a transparent wrapper: wrapped leaves, or nothing with a date in it.
  lemma TransparentThreads(v: Value, t: Ty)
    requires WellFormed(t) && (t.LowCardinality? || t.SimpleAgg?) && Fits(v, t) && WellTyped(v, t)
    ensures ToJson(v, Render(t)) == Expected(v, t)
  {
    if DateLeaf(t.elem) { DateLeafIsSpine(t.elem); }
    if Spine(t.elem) {
      SpineThreads(v, t, t);
    } else {
      DatelessRenders(v, t);
      NoDateIsOpaque(v, t);
    }
  }

  /** For every type and every value of it that threads through, the string-driven serializer gives
      what the type calls for, at every depth. */
  lemma {:induction false} ThreadingIsFaithful(v: Value, t: Ty)
    requires WellFormed(t) && Fits(v, t) && WellTyped(v, t)
    ensures ToJson(v, Render(t)) == Expected(v, t)
    decreases v
  {
    if TimeFree(v) {
      TimeFreeRenders(v, Render(t), t);
    } else if t.LowCardinality? || t.SimpleAgg? {
      TransparentThreads(v, t);
    } else {
      match v
      case Time(at) => IsDateOnlyIff(t);
      case Pointer(target) =>
        WrapperText(t);
        ThreadingIsFaithful(target, t.elem);
        PointerSides(target, Render(t), t);
      case Slice(elems) =>
        ItemsFit(elems, t);
        if t.Array? { ArrayThreads(elems, t); } else { TupleThreads(elems, t); }
      case Map(entries) =>
        EntriesFit(entries, t);
        if t.MapOf? { MapThreads(entries, t); } else { NamedTupleThreads(entries, t); }
    }
  }

  lemma {:induction false} ArrayThreads(elems: seq<Value>, t: Ty)
    requires WellFormed(t) && t.Array?
    requires forall i :: 0 <= i < |elems| ==> WellTyped(elems[i], t.elem) && Fits(elems[i], t.elem)
    ensures ToJson(Slice(elems), Render(t)) == Expected(Slice(elems), t)
    decreases elems
  {
    WrapperText(t);
    forall i | 0 <= i < |elems| ensures ItemAgrees(elems[i], [], Render(t.elem), i, t) {
      ThreadingIsFaithful(elems[i], t.elem);
    }
    SliceAgrees(elems, Render(t), [], Render(t.elem), t);
  }

  lemma {:induction false} TupleThreads(elems: seq<Value>, t: Ty)
    requires WellFormed(t) && t.Tuple? && |elems| == |t.fields|
    requires forall i :: 0 <= i < |elems| ==> WellTyped(elems[i], t.fields[i].ty) && Fits(elems[i], t.fields[i].ty)
    ensures ToJson(Slice(elems), Render(t)) == Expected(Slice(elems), t)
    decreases elems
  {
    var parts, inner := RenderFields(t.fields), ElemType(Render(t));
    forall i | 0 <= i < |elems| ensures ItemAgrees(elems[i], parts, inner, i, t) {
      FieldTypeOfWord(t.fields[i]);
      ThreadingIsFaithful(elems[i], t.fields[i].ty);
    }
    assert TupleParts(Render(t)) == parts by { TupleText(t.fields); }
    SliceAgrees(elems, Render(t), parts, inner, t);
  }

  lemma {:induction false} MapThreads(entries: seq<Entry>, t: Ty)
    requires WellFormed(t) && t.MapOf?
    requires forall i :: 0 <= i < |entries| ==> WellTyped(entries[i].val, t.val) && EntryFits(entries[i], t)
    ensures ToJson(Map(entries), Render(t)) == Expected(Map(entries), t)
    decreases entries
  {
    MapText(t.key, t.val);
    forall i | 0 <= i < |entries|
      ensures EntryAgrees(entries[i], Render(t.key), Render(t.val), FieldTypes([]), t)
    {
      assert entries decreases to entries[i];
      MapEntryThreads(entries[i], t);
    }
    ObjectAgrees(entries, Render(t), t);
  }

  lemma {:induction false} MapEntryThreads(e: Entry, t: Ty)
    requires WellFormed(t) && t.MapOf? && WellTyped(e.val, t.val)
    requires EntryFits(e, t)
    ensures EntryAgrees(e, Render(t.key), Render(t.val), FieldTypes([]), t)
    decreases e
  {
    KeyThreads(e.key, t.key);
    ThreadingIsFaithful(e.val, t.val);
  }

  lemma {:induction false} NamedTupleThreads(entries: seq<Entry>, t: Ty)
    requires WellFormed(t) && t.Tuple? && AllNamed(t.fields)
    requires forall i :: 0 <= i < |entries| ==> EntryTyped(entries[i], t) && EntryFits(entries[i], t)
    ensures ToJson(Map(entries), Render(t)) == Expected(Map(entries), t)
    decreases entries
  {
    TupleText(t.fields);
    forall i | 0 <= i < |entries|
      ensures EntryAgrees(entries[i], "", "", FieldTypes(RenderFields(t.fields)), t)
    {
      assert entries decreases to entries[i];
      NamedMemberThreads(entries[i], t);
    }
    ObjectAgrees(entries, Render(t), t);
  }

  lemma {:induction false} NamedMemberThreads(e: Entry, t: Ty)
    requires WellFormed(t) && t.Tuple? && AllNamed(t.fields) && EntryTyped(e, t)
    requires EntryFits(e, t)
    ensures EntryAgrees(e, "", "", FieldTypes(RenderFields(t.fields)), t)
    decreases e
  {
    var name := e.key.s;
    FieldTypesOf(t.fields, name);
    var j := FieldTyIsOne(t.fields, name);
    ThreadingIsFaithful(e.val, t.fields[j].ty);
  }
}
