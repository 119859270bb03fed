/** Exactly where type threading is faithful: a transparent wrapper over something with a date that
    is not itself a date loses it, since the Map and Tuple arms of the serializer do not look
    through the wrapper and the type text lags one level behind. */
module ThreadingLimits {
  import opened TypeNames
  import opened TypeAst
  import opened TypeTexts
  import opened Serialize
  import opened Expectation
  import opened Dateless
  import opened Threading

  const SAMPLE := Instant("date", "stamp")

  predicate Transparent(t: Ty) {
    t.LowCardinality? || t.SimpleAgg?
  }

  lemma {:induction false} CoreIsFixed(t: Ty)
    ensures Core(Core(t)) == Core(t) && !Transparent(Core(t))
    ensures DateLeaf(Core(t)) == DateLeaf(t)
  {
    if Transparent(t) {
      CoreIsFixed(t.elem);
    }
  }

  lemma SameItems(elems: seq<Value>, t: Ty, u: Ty)
    requires Core(t) == Core(u)
    ensures Expected(Slice(elems), t) == Expected(Slice(elems), u)
  {
    assert forall i: nat :: ItemTy(t, i) == ItemTy(u, i);
    assert ExpectedItems(elems, t) == ExpectedItems(elems, u);
  }

  lemma SameObject(entries: seq<Entry>, t: Ty, u: Ty)
    requires Core(t) == Core(u)
    ensures Expected(Map(entries), t) == Expected(Map(entries), u)
  {
    SameMembers(entries, t, u);
  }

  lemma SameTarget(target: Value, t: Ty, u: Ty)
    requires Core(t) == Core(u)
    ensures Expected(Pointer(target), t) == Expected(Pointer(target), u)
  {
    assert Pointee(t) == Pointee(u);
  }

  // Types alike but for transparent wrappers ask for the same, and admit the same.
  lemma SameCore(v: Value, t: Ty, u: Ty)
    requires Core(t) == Core(u) && DateLeaf(t) == DateLeaf(u)
    ensures Expected(v, t) == Expected(v, u)
  {
    match v
    case Pointer(target) => SameTarget(target, t, u);
    case Slice(elems) => SameItems(elems, t, u);
    case Map(entries) => SameObject(entries, t, u);
    case _ =>
  }

  lemma SameTyping(v: Value, t: Ty, u: Ty)
    requires Core(t) == Core(u) && !t.Opaque? && !u.Opaque? && WellTyped(v, u)
    ensures WellTyped(v, t)
  {
    if v.Map? {
      assert forall e: Entry :: EntryTyped(e, u) == EntryTyped(e, t);
    }
  }

  lemma WrapperIsTransparent(v: Value, t: Ty)
    requires Transparent(t) && !t.elem.Opaque? && WellTyped(v, t.elem)
    ensures Expected(v, t) == Expected(v, t.elem) && WellTyped(v, t)
  {
    SameCore(v, t, t.elem);
    SameTyping(v, t, t.elem);
  }

  lemma {:induction false} SameMembers(entries: seq<Entry>, t: Ty, u: Ty)
    requires Core(t) == Core(u)
    ensures ExpectedMembers(entries, t) == ExpectedMembers(entries, u)
  {
    if entries == [] {
    } else {
      SameMembers(entries[..|entries| - 1], t, u);
    }
  }

  // A map of one entry.
  lemma OneWanted(e: Entry, t: Ty)
    ensures var key := ExpectedKey(e.key, KeyTy(t));
            Expected(Map([e]), t) == Object(map[key := Expected(e.val, MemberTy(t, key))])
  {
    assert [e][..0] == [];
    MapWants([e], t);
  }

  lemma OneRead(e: Entry, text: string)
    ensures var key := KeyText(e.key, MapKeyType(text));
            ToJson(Map([e]), text)
            == Object(map[key := ToJson(e.val, MemberType(FieldTypes(TupleParts(text)), MapValueType(text), key))])
  {
    assert [e][..0] == [];
    MapReads([e], text);
  }

  lemma ObjectsDiffer(k: string, x: Out, l: string, y: Out)
    requires k != l || x != y
    ensures Object(map[k := x]) != Object(map[l := y])
  {
    var a, b := map[k := x], map[l := y];
    assert k in a && a[k] == x && (k in b ==> k == l && b[k] == y);
  }

  // An entry rendered otherwise than without a type shows in the whole.
  lemma EntryShows(e: Entry, t: Ty)
    requires var key, plain := ExpectedKey(e.key, KeyTy(t)), ExpectedKey(e.key, Opaque);
             key != plain || Expected(e.val, MemberTy(t, key)) != Expected(e.val, Opaque)
    ensures Expected(Map([e]), t) != Expected(Map([e]), Opaque)
  {
    var key, plain := ExpectedKey(e.key, KeyTy(t)), ExpectedKey(e.key, Opaque);
    OneWanted(e, t);
    OneWanted(e, Opaque);
    ObjectsDiffer(key, Expected(e.val, MemberTy(t, key)), plain, Expected(e.val, Opaque));
  }

  // One item rendered otherwise than without a type shows in the whole.
  lemma ItemShows(elems: seq<Value>, t: Ty, i: nat)
    requires i < |elems| && Expected(elems[i], ItemTy(t, i)) != Expected(elems[i], Opaque)
    ensures Expected(Slice(elems), t) != Expected(Slice(elems), Opaque)
  {
    assert ExpectedItems(elems, t)[i] != ExpectedItems(elems, Opaque)[i];
  }

  lemma TargetShows(x: Value, t: Ty)
    requires Expected(x, Pointee(t)) != Expected(x, Opaque)
    ensures Expected(Pointer(x), t) != Expected(Pointer(x), Opaque)
  {
    PointerWants(x, t);
    PointerWants(x, Opaque);
  }

  // Nothing but x, at position i of n.
  function Lone(n: nat, i: nat, x: Value): (elems: seq<Value>)
    ensures |elems| == n && forall k :: 0 <= k < n ==> elems[k] == if k == i then x else Nil
  {
    seq(n, k => if k == i then x else Nil)
  }

  lemma TupleWitness(fields: seq<Field>, i: nat, x: Value) returns (w: Value)
    requires i < |fields| && PlainNames(x) && WellTyped(x, fields[i].ty)
    requires Expected(x, fields[i].ty) != Expected(x, Opaque)
    ensures PlainNames(w) && WellTyped(w, Tuple(fields)) && Expected(w, Tuple(fields)) != Expected(w, Opaque)
  {
    var elems := Lone(|fields|, i, x);
    w := Slice(elems);
    ItemShows(elems, Tuple(fields), i);
  }

  /** Every type with a date in it has a value that shows it. */
  lemma {:induction false} DateWitness(t: Ty) returns (w: Value)
    requires HasDate(t)
    ensures PlainNames(w) && WellTyped(w, t) && Expected(w, t) != Expected(w, Opaque)
  {
    match t
    case Leaf(_, _) => w := Time(SAMPLE);
    case Array(e) =>
      var x := DateWitness(e);
      w := Slice([x]);
      ItemShows([x], t, 0);
    case Nullable(e) =>
      var x := DateWitness(e);
      w := Pointer(x);
      TargetShows(x, t);
    case LowCardinality(e) =>
      w := DateWitness(e);
      WrapperIsTransparent(w, t);
    case SimpleAgg(_, e) =>
      w := DateWitness(e);
      WrapperIsTransparent(w, t);
    case MapOf(k, v) =>
      var e := EntryWitness(t);
      w := Map([e]);
    case Tuple(fields) =>
      var i :| 0 <= i < |fields| && HasDate(fields[i].ty);
      var x := DateWitness(fields[i].ty);
      w := TupleWitness(fields, i, x);
  }

  /** A Map shows its dates in one entry: under a time as key, or under the empty key. */
  lemma {:induction false} EntryWitness(t: Ty) returns (e: Entry)
    requires t.MapOf? && HasDate(t)
    ensures e == Entry(KTime(SAMPLE), Nil) || e.key == KString("")
    ensures PlainEntry(e) && WellTyped(Map([e]), t) && Expected(Map([e]), t) != Expected(Map([e]), Opaque)
    decreases t, 0
  {
    if DateLeaf(t.key) {
      e := Entry(KTime(SAMPLE), Nil);
    } else {
      var x := DateWitness(t.val);
      e := Entry(KString(""), x);
    }
    EntryShows(e, t);
  }

  // --- Maps and named tuples under a transparent wrapper ---------------------------------------

  /** Under the text of a wrapper a map finds no types, be it of a Map or of a named tuple. */
  lemma WrappedMapRenders(entries: seq<Entry>, t: Ty)
    requires WellFormed(t) && IsWrapper(t)
    ensures ToJson(Map(entries), Render(t)) == Expected(Map(entries), Opaque)
  {
    OtherText(t);
    NoTextIsUntyped();
    UntypedText("");
    OpaqueRenders(Map(entries));
    MapReads(entries, Render(t));
    MapReads(entries, "");
  }

  lemma DatelessMapThreads(v: Value, t: Ty)
    requires WellFormed(t) && Transparent(t) && Core(t).MapOf?
    requires !HasDate(t) && WellTyped(v, t)
    ensures ToJson(v, Render(t)) == Expected(v, t)
  {
    if TimeFree(v) {
      TimeFreeRenders(v, Render(t), t);
    } else {
      match v
      case Map(entries) =>
        WrappedMapRenders(entries, t);
        NoDateIsOpaque(v, t);
      case Time(at) => IsDateOnlyIff(t);
    }
  }

  lemma DatedMapFails(t: Ty) returns (w: Value)
    requires WellFormed(t) && Transparent(t) && Core(t).MapOf?
    requires HasDate(t)
    ensures WellTyped(w, t) && ToJson(w, Render(t)) != Expected(w, t)
  {
    CoreHasDate(t);
    CoreIsFixed(t);
    var e := EntryWitness(Core(t));
    w := Map([e]);
    SameCore(w, t, Core(t));
    SameTyping(w, t, Core(t));
    WrappedMapRenders([e], t);
  }

  /** Transparent wrappers over a Map thread its types faithfully exactly when the Map holds no
      Date or Date32, as key or anywhere in its values. */
  lemma WrappedMapIff(t: Ty)
    requires WellFormed(t) && Transparent(t) && Core(t).MapOf?
    ensures (forall v :: WellTyped(v, t) ==> ToJson(v, Render(t)) == Expected(v, t)) <==> !HasDate(Core(t))
  {
    CoreHasDate(t);
    if HasDate(t) {
      var w := DatedMapFails(t);
    } else {
      forall v | WellTyped(v, t) ensures ToJson(v, Render(t)) == Expected(v, t) {
        DatelessMapThreads(v, t);
      }
    }
  }

  lemma {:induction false} FieldTyAt(fields: seq<Field>, i: nat)
    requires i < |fields| && DistinctNames(fields) && fields[i].name != ""
    ensures FieldTy(fields, fields[i].name) == fields[i].ty
  {
    var n := |fields| - 1;
    if i < n {
      FieldTyAt(fields[..n], i);
    }
  }

  lemma {:induction false} CoreWellFormed(t: Ty)
    requires WellFormed(t)
    ensures WellFormed(Core(t))
  {
    if Transparent(t) {
      CoreWellFormed(t.elem);
    }
  }

  lemma FieldEntry(fields: seq<Field>, i: nat, t: Ty) returns (e: Entry)
    requires Core(t) == Tuple(fields) && DistinctNames(fields) && AllNamed(fields)
    requires i < |fields| && HasDate(fields[i].ty) && WellFormed(fields[i].ty)
    ensures EntryTyped(e, t) && Expected(Map([e]), t) != Expected(Map([e]), Opaque)
  {
    FieldTyAt(fields, i);
    var x := DateWitness(fields[i].ty);
    e := Entry(KString(fields[i].name), x);
    EntryShows(e, t);
  }

  lemma DatedField(t: Ty) returns (e: Entry)
    requires WellFormed(t) && Core(t).Tuple? && AllNamed(Core(t).fields) && HasDate(Core(t))
    ensures EntryTyped(e, t) && Expected(Map([e]), t) != Expected(Map([e]), Opaque)
  {
    var fields := Core(t).fields;
    CoreWellFormed(t);
    var i :| 0 <= i < |fields| && HasDate(fields[i].ty);
    e := FieldEntry(fields, i, t);
  }

  lemma DatedFieldFails(t: Ty) returns (es: seq<Entry>)
    requires WellFormed(t) && Transparent(t) && Core(t).Tuple? && AllNamed(Core(t).fields) && HasDate(Core(t))
    ensures WellTyped(Map(es), t) && ToJson(Map(es), Render(t)) != Expected(Map(es), t)
  {
    var e := DatedField(t);
    es := [e];
    WrappedMapRenders(es, t);
  }

  /** Transparent wrappers over a named tuple, scanned as a map, thread its types faithfully exactly
      when no field has a date in it. */
  lemma WrappedNamedTupleIff(t: Ty)
    requires WellFormed(t) && Transparent(t) && Core(t).Tuple? && AllNamed(Core(t).fields)
    ensures (forall es :: WellTyped(Map(es), t) ==> ToJson(Map(es), Render(t)) == Expected(Map(es), t))
            <==> !HasDate(Core(t))
  {
    CoreHasDate(t);
    if HasDate(t) {
      var es := DatedFieldFails(t);
    } else {
      forall es | WellTyped(Map(es), t) ensures ToJson(Map(es), Render(t)) == Expected(Map(es), t) {
        WrappedMapRenders(es, t);
        NoDateIsOpaque(Map(es), t);
      }
    }
  }

  // --- The type text lags behind -----------------------------------------------------------------

  /** A date behind wrappers, or a Map with a date, lies within n steps down the type. */
  predicate Within(t: Ty, n: nat) {
    HasDate(t) &&
    (DateLeaf(t) || t.MapOf? ||
     (n > 0 &&
      match t
      case Array(e) => Within(e, n - 1)
      case Nullable(e) => Within(e, n - 1)
      case LowCardinality(e) => Within(e, n - 1)
      case SimpleAgg(_, e) => Within(e, n - 1)
      case Tuple(fields) => exists i :: 0 <= i < |fields| && Within(fields[i].ty, n - 1)
      case _ => false))
  }

  lemma {:induction false} WithinMore(t: Ty, n: nat)
    requires Within(t, n)
    ensures Within(t, n + 1)
  {
    if !DateLeaf(t) && !t.MapOf? {
      if t.Tuple? {
        var i :| 0 <= i < |t.fields| && Within(t.fields[i].ty, n - 1);
        WithinMore(t.fields[i].ty, n - 1);
      } else {
        WithinMore(t.elem, n - 1);
      }
    }
  }

  lemma {:induction false} SomeDepth(t: Ty) returns (n: nat)
    requires HasDate(t)
    ensures Within(t, n)
  {
    if DateLeaf(t) || t.MapOf? {
      n := 0;
    } else if t.Tuple? {
      var i :| 0 <= i < |t.fields| && HasDate(t.fields[i].ty);
      n := SomeDepth(t.fields[i].ty);
      n := n + 1;
    } else {
      n := SomeDepth(t.elem);
      n := n + 1;
    }
  }

  lemma {:induction false} LeastDepth(t: Ty, n: nat) returns (m: nat)
    requires Within(t, n)
    ensures Within(t, m) && (m > 0 ==> !Within(t, m - 1))
  {
    if n > 0 && Within(t, n - 1) {
      m := LeastDepth(t, n - 1);
    } else {
      m := n;
    }
  }

  /** The text of s comes too late for a value of type t, whose dates lie within n steps. */
  predicate Lagging(t: Ty, s: Ty, n: nat) {
    if DateLeaf(t) then !DateLeaf(s) else Within(t, n) && !Within(s, n)
  }

  // One step down a tuple, the text follows a step behind.
  lemma StepLags(s: Ty, n: nat, i: nat)
    requires n > 0 && !Within(s, n)
    ensures !Within(Behind(s, i), n - 1)
  {
    if Behind(s, i) == s {
      if Within(s, n - 1) { WithinMore(s, n - 1); }
    } else if s.Tuple? && HasDate(s.fields[i].ty) {
      assert HasDate(s);
    }
  }

  lemma WithinOfDateLeaf(t: Ty, n: nat)
    requires DateLeaf(t)
    ensures Within(t, n)
  {
    DateLeafHasDate(t);
  }

  // One step down a wrapper, at a position the tuple of the text does not have.
  lemma WrapperLags(t: Ty, s: Ty, n: nat) returns (m: nat)
    requires HasDate(t) && IsWrapper(t) && Lagging(t, s, n) && !s.Leaf?
    ensures Lagging(t.elem, Behind(s, Far(s)), m)
  {
    m := if n > 0 then n - 1 else 0;
    if !DateLeaf(t) {
      StepLags(s, n, Far(s));
    }
  }

  lemma TupleLags(t: Ty, s: Ty, n: nat) returns (i: nat, m: nat)
    requires t.Tuple? && Lagging(t, s, n)
    ensures i < |t.fields| && HasDate(t.fields[i].ty) && Lagging(t.fields[i].ty, Behind(s, i), m)
  {
    m := n - 1;
    i :| 0 <= i < |t.fields| && Within(t.fields[i].ty, m);
    StepLags(s, n, i);
    if DateLeaf(Behind(s, i)) { WithinOfDateLeaf(Behind(s, i), m); }
  }

  // --- A value for which it comes too late --------------------------------------------------------

  predicate Fails(w: Value, t: Ty, text: string) {
    PlainNames(w) && WellTyped(w, t) && ToJson(w, text) != Expected(w, t)
  }

  lemma ItemFails(elems: seq<Value>, s: Ty, t: Ty, i: nat)
    requires WellFormed(s) && !s.Leaf? && i < |elems|
    requires ToJson(elems[i], Render(Behind(s, i))) != Expected(elems[i], ItemTy(t, i))
    ensures ToJson(Slice(elems), Render(s)) != Expected(Slice(elems), t)
  {
    BehindText(s, i);
    ItemDiffers(elems, Render(s), TupleParts(Render(s)), ElemType(Render(s)), t, i);
  }

  lemma ItemDiffers(elems: seq<Value>, text: string, parts: seq<string>, inner: string, t: Ty, i: nat)
    requires TupleParts(text) == parts && ElemType(text) == inner && i < |elems|
    requires ToJson(elems[i], ItemType(parts, inner, i)) != Expected(elems[i], ItemTy(t, i))
    ensures ToJson(Slice(elems), text) != Expected(Slice(elems), t)
  {
    assert Items(elems, parts, inner)[i] != ExpectedItems(elems, t)[i];
    SliceReads(elems, text, parts, inner);
    SliceWants(elems, t);
  }

  function Copies(n: nat, x: Value): (elems: seq<Value>)
    ensures |elems| == n && forall k :: 0 <= k < n ==> elems[k] == x
  {
    seq(n, _ => x)
  }

  lemma CopiesInArray(t: Ty, n: nat, x: Value)
    requires t.Array? && PlainNames(x) && WellTyped(x, t.elem)
    ensures PlainNames(Slice(Copies(n, x))) && WellTyped(Slice(Copies(n, x)), t)
  {
  }

  lemma LoneInTuple(t: Ty, i: nat, x: Value)
    requires t.Tuple? && i < |t.fields| && PlainNames(x) && WellTyped(x, t.fields[i].ty)
    ensures PlainNames(Slice(Lone(|t.fields|, i, x))) && WellTyped(Slice(Lone(|t.fields|, i, x)), t)
  {
  }

  lemma ArrayFails(t: Ty, s: Ty, x: Value) returns (w: Value)
    requires t.Array? && WellFormed(s) && !s.Leaf? && Fails(x, t.elem, Render(Behind(s, Far(s))))
    ensures Fails(w, t, Render(s))
  {
    var elems := Copies(Far(s) + 1, x);
    w := Slice(elems);
    CopiesInArray(t, Far(s) + 1, x);
    ItemFails(elems, s, t, Far(s));
  }

  lemma TupleFails(t: Ty, s: Ty, i: nat, x: Value) returns (w: Value)
    requires t.Tuple? && i < |t.fields| && WellFormed(s) && !s.Leaf?
    requires Fails(x, t.fields[i].ty, Render(Behind(s, i)))
    ensures Fails(w, t, Render(s))
  {
    var elems := Lone(|t.fields|, i, x);
    w := Slice(elems);
    LoneInTuple(t, i, x);
    ItemFails(elems, s, t, i);
  }

  lemma PointerFails(t: Ty, s: Ty, x: Value)
    requires t.Nullable? && WellFormed(s) && !s.Leaf? && Fails(x, t.elem, Render(Behind(s, Far(s))))
    ensures Fails(Pointer(x), t, Render(s))
  {
    FarText(s);
    PointerReads(x, Render(s));
    PointerWants(x, t);
  }

  lemma {:induction false} NoNamelessField(parts: seq<string>)
    ensures "" !in FieldTypes(parts)
  {
    if parts == [] {
    } else {
      NoNamelessField(parts[..|parts| - 1]);
    }
  }

  // A Map's entry finds no types under the text of anything but a Map.
  lemma MapFails(t: Ty, s: Ty) returns (w: Value)
    requires t.MapOf? && HasDate(t) && WellFormed(s) && !s.MapOf?
    ensures Fails(w, t, Render(s))
  {
    var e := EntryWitness(t);
    w := Map([e]);
    OtherText(s);
    NoTextIsUntyped();
    UntypedText("");
    var types := FieldTypes(TupleParts(Render(s)));
    NoNamelessField(TupleParts(Render(s)));
    if e.key.KString? {
      OpaqueRenders(e.val);
    } else {
      TimeFreeRenders(Nil, MemberType(types, "", SAMPLE.stamp), Opaque);
    }
    assert EntryAgrees(e, "", "", types, Opaque);
    ObjectAgrees([e], Render(s), Opaque);
  }

  /** Where the text comes too late some value shows it. */
  lemma {:induction false} LateText(t: Ty, s: Ty, n: nat) returns (w: Value)
    requires HasDate(t) && WellFormed(s) && Lagging(t, s, n)
    ensures Fails(w, t, Render(s))
    decreases t
  {
    if !HasDate(s) {
      w := DateWitness(t);
      DatelessRenders(w, s);
    } else if t.Leaf? {
      w := Time(SAMPLE);
      IsDateOnlyIff(s);
    } else if t.MapOf? {
      w := MapFails(t, s);
    } else if t.Tuple? {
      var i, m := TupleLags(t, s, n);
      BehindText(s, i);
      var x := LateText(t.fields[i].ty, Behind(s, i), m);
      w := TupleFails(t, s, i, x);
    } else if Transparent(t) {
      w := LateUnderWrapper(t, s, n);
    } else {
      var m := WrapperLags(t, s, n);
      BehindText(s, Far(s));
      var x := LateText(t.elem, Behind(s, Far(s)), m);
      if t.Array? {
        w := ArrayFails(t, s, x);
      } else {
        w := Pointer(x);
        PointerFails(t, s, x);
      }
    }
  }

  // A transparent wrapper of the value's type is no step of the value.
  lemma {:induction false} LateUnderWrapper(t: Ty, s: Ty, n: nat) returns (w: Value)
    requires HasDate(t) && Transparent(t) && WellFormed(s) && Lagging(t, s, n)
    ensures Fails(w, t, Render(s))
    decreases t, 0
  {
    if !DateLeaf(t) && Within(s, n - 1) { WithinMore(s, n - 1); }
    w := LateText(t.elem, s, if n > 0 then n - 1 else 0);
    WrapperIsTransparent(w, t);
  }

  // --- The exact condition -----------------------------------------------------------------------------

  lemma WrappedFails(t: Ty) returns (w: Value)
    requires WellFormed(t) && Transparent(t) && HasDate(t.elem) && !DateLeaf(t.elem)
    ensures Fails(w, t, Render(t))
  {
    var n := SomeDepth(t.elem);
    n := LeastDepth(t.elem, n);
    w := LateText(t.elem, t, n);
    WrapperIsTransparent(w, t);
  }

  /** Where a type does not thread, some value of it shows it. */
  lemma {:induction false} BrokenThread(t: Ty) returns (w: Value)
    requires WellFormed(t) && !Threads(t)
    ensures Fails(w, t, Render(t))
  {
    match t
    case Array(e) =>
      var x := BrokenThread(e);
      w := ArrayFails(t, t, x);
    case Nullable(e) =>
      var x := BrokenThread(e);
      w := Pointer(x);
      PointerFails(t, t, x);
    case MapOf(k, v) =>
      var x := BrokenThread(v);
      w := ValueFails(t, x);
    case Tuple(fields) =>
      var i :| 0 <= i < |fields| && !Threads(fields[i].ty);
      var x := BrokenThread(fields[i].ty);
      w := TupleFails(t, t, i, x);
    case LowCardinality(e) => w := WrappedFails(t);
    case SimpleAgg(_, e) => w := WrappedFails(t);
  }

  lemma EntryInMap(t: Ty, x: Value)
    requires t.MapOf? && PlainNames(x) && WellTyped(x, t.val)
    ensures PlainNames(Map([Entry(KString(""), x)])) && WellTyped(Map([Entry(KString(""), x)]), t)
  {
  }

  lemma ValueDiffers(t: Ty, e: Entry, text: string)
    requires t.MapOf? && e.key == KString("") && TupleParts(text) == []
    requires ToJson(e.val, MapValueType(text)) != Expected(e.val, t.val)
    ensures ToJson(Map([e]), text) != Expected(Map([e]), t)
  {
    OneRead(e, text);
    OneWanted(e, t);
    ObjectsDiffer("", ToJson(e.val, MapValueType(text)), "", Expected(e.val, t.val));
  }

  lemma ValueFails(t: Ty, x: Value) returns (w: Value)
    requires WellFormed(t) && t.MapOf? && Fails(x, t.val, Render(t.val))
    ensures Fails(w, t, Render(t))
  {
    var e := Entry(KString(""), x);
    w := Map([e]);
    MapText(t.key, t.val);
    EntryInMap(t, x);
    ValueDiffers(t, e, Render(t));
  }

  /** Exactly which types are threaded faithfully, for every value whose keys hold no paren: those in
      which each transparent wrapper over something with a date wraps just a date. */
  lemma ThreadingIff(t: Ty)
    requires WellFormed(t)
    ensures (forall v :: PlainNames(v) && WellTyped(v, t) ==> ToJson(v, Render(t)) == Expected(v, t)) <==> Threads(t)
  {
    if Threads(t) {
      forall v | PlainNames(v) && WellTyped(v, t) ensures ToJson(v, Render(t)) == Expected(v, t) {
        ThreadingIsFaithful(v, t);
      }
    } else {
      var w := BrokenThread(t);
      assert PlainNames(w) && WellTyped(w, t) && ToJson(w, Render(t)) != Expected(w, t);
    }
  }
}
