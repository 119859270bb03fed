/** What the type-text parser reads from the text of a printed type. */
module TypeTexts {
  import opened Text
  import opened TypeNames
  import opened TypeAst
  import opened Serialize

  /** The name under which a wrapper is printed. */
  function WrapperName(t: Ty): string
    requires IsWrapper(t)
  {
    match t
    case Array(_) => "Array"
    case Nullable(_) => "Nullable"
    case LowCardinality(_) => "LowCardinality"
    case SimpleAgg(_, _) => "SimpleAggregateFunction"
  }

  lemma WrapperText(t: Ty)
    requires WellFormed(t) && IsWrapper(t)
    ensures TypeName(Render(t)).0 == WrapperName(t)
    ensures TupleParts(Render(t)) == [] && ElemType(Render(t)) == Render(t.elem)
  {
    ElemTypeOfRender(t);
    WrapperConstructor(t);
  }

  lemma WrapperConstructor(t: Ty)
    requires WellFormed(t) && IsWrapper(t)
    ensures TypeName(Render(t)).0 == WrapperName(t) && TupleParts(Render(t)) == []
  {
    RenderSolid(t.elem);
    ConstructorIsWord(WrapperName(t));
    NotATuple(WrapperName(t), WrapperArgs(t), Render(t));
  }

  function WrapperArgs(t: Ty): (args: seq<string>)
    requires IsWrapper(t)
    ensures Render(t) == App(WrapperName(t), args)
    ensures args == [Render(t.elem)] || (t.SimpleAgg? && args == [t.fn, Render(t.elem)])
  {
    if t.SimpleAgg? then [t.fn, Render(t.elem)] else [Render(t.elem)]
  }

  lemma NotATuple(name: string, args: seq<string>, text: string)
    requires Word(name) && AllSolid(args) && name != "Tuple" && text == App(name, args)
    ensures TypeName(text).0 == name && TupleParts(text) == []
  {
    TypeNameOfApp(name, args);
  }

  lemma MapText(k: Ty, v: Ty)
    requires WellFormed(k) && WellFormed(v)
    ensures var s := Render(MapOf(k, v));
            && MapKeyType(s) == Render(k) && MapValueType(s) == Render(v) && TupleParts(s) == []
  {
    RenderSolid(k);
    RenderSolid(v);
    ConstructorIsWord("Map");
    TypeNameOfApp("Map", [Render(k), Render(v)]);
    SplitJoin([Render(k), Render(v)]);
  }

  lemma TupleText(fields: seq<Field>)
    requires WellFormed(Tuple(fields))
    ensures var s := Render(Tuple(fields));
            TupleParts(s) == RenderFields(fields) && MapKeyType(s) == "" && MapValueType(s) == ""
  {
    FieldsSolid(fields);
    ConstructorIsWord("Tuple");
    TypeNameOfApp("Tuple", RenderFields(fields));
    SplitJoin(RenderFields(fields));
  }

  /** What Map and Tuple give for their members in any printed application. */
  lemma MembersOfApp(name: string, args: seq<string>)
    requires Word(name) && AllSolid(args)
    ensures MapKeyType(App(name, args)) == if name == "Map" && |args| == 2 then args[0] else ""
    ensures MapValueType(App(name, args)) == if name == "Map" && |args| == 2 then args[1] else ""
    ensures TupleParts(App(name, args)) == if name == "Tuple" then args else []
  {
    TypeNameOfApp(name, args);
    SplitJoin(args);
  }

  // The last field's contribution to the table of field types.
  lemma FieldTypesLast(parts: seq<string>, name: string, body: string)
    requires parts != [] && parts[|parts| - 1] == name + " " + body
    requires name != "" && ' ' !in name && body != "" && Trimmed(body)
    ensures FieldTypes(parts) == FieldTypes(parts[..|parts| - 1])[name := body]
  {
    var last := name + " " + body;
    assert last[|name|] == ' ';
    FindIs(last, ' ', 0, |name|);
    TrimmedIsFixed(body);
    assert last[..|name|] == name && last[|name| + 1..] == body;
  }

  lemma FieldTypesSnoc(parts: seq<string>, before: seq<string>, name: string, body: string)
    requires parts == before + [name + " " + body]
    requires name != "" && ' ' !in name && body != "" && Trimmed(body)
    ensures FieldTypes(parts) == FieldTypes(before)[name := body]
  {
    assert parts[..|parts| - 1] == before;
    FieldTypesLast(parts, name, body);
  }

  // Names end at the first space.
  lemma {:induction false} NamesHoldNoSpace(parts: seq<string>, name: string)
    requires name in FieldTypes(parts)
    ensures ' ' !in name
  {
    var before, last := parts[..|parts| - 1], parts[|parts| - 1];
    var sp := Find(last, ' ', 0);
    FindFirst(last, ' ', 0);
    if name in FieldTypes(before) {
      NamesHoldNoSpace(before, name);
    } else {
      assert name == last[..sp];
    }
  }

  lemma {:induction false} FindFirst(s: string, c: char, i: nat)
    requires i <= |s|
    ensures i <= Find(s, c, i) <= |s| && c !in s[i..Find(s, c, i)]
    decreases |s| - i
  {
    if i < |s| && s[i] != c {
      FindFirst(s, c, i + 1);
      assert s[i..Find(s, c, i)] == [s[i]] + s[i + 1..Find(s, c, i)];
    }
  }

  /** When the table of field types holds a field under its name, whatever the name and the fields
      before it: exactly when the name holds no space. A paren does no harm here. */
  lemma FieldTypesIff(before: seq<string>, name: string, body: string)
    requires name != "" && body != "" && Trimmed(body)
    ensures var types := FieldTypes(before + [name + " " + body]);
            && (name in types <==> ' ' !in name)
            && (types == FieldTypes(before)[name := body] <==> ' ' !in name)
  {
    var parts := before + [name + " " + body];
    if ' ' !in name { FieldTypesSnoc(parts, before, name, body); }
    if name in FieldTypes(parts) { NamesHoldNoSpace(parts, name); }
    assert name in FieldTypes(before)[name := body];
  }

  lemma AllButLast(a: seq<string>, b: seq<string>, x: string)
    requires |a| == |b| + 1 && a[|b|] == x && forall i :: 0 <= i < |b| ==> a[i] == b[i]
    ensures a == b + [x]
  {
  }

  lemma FieldsLast(fields: seq<Field>)
    requires fields != []
    ensures RenderFields(fields) == RenderFields(fields[..|fields| - 1]) + [RenderField(fields[|fields| - 1])]
  {
    var n := |fields| - 1;
    var before := fields[..n];
    var a, b := RenderFields(fields), RenderFields(before);
    forall i | 0 <= i < n ensures a[i] == b[i] {
      assert before[i] == fields[i];
    }
    AllButLast(a, b, RenderField(fields[n]));
  }

  lemma VariantText(alts: seq<Ty>)
    requires WellFormed(Variant(alts))
    ensures var s := Render(Variant(alts)); TupleParts(s) == [] && MapKeyType(s) == "" && MapValueType(s) == ""
  {
    ConstructorIsWord("Variant");
    TypeNameOfApp("Variant", RenderAll(alts));
  }

  lemma LeafText(head: string, params: string)
    requires LeafOk(head, params)
    ensures var s := Render(Leaf(head, params)); TupleParts(s) == [] && MapKeyType(s) == "" && MapValueType(s) == ""
  {
    if params == "" {
      WordIsLeaf(head);
    } else {
      TypeNameBy(head, params);
    }
  }

  /** Only a printed Map names a key and a value type, only a printed Tuple has parts. */
  lemma OtherText(t: Ty)
    requires WellFormed(t) && !t.MapOf?
    ensures MapKeyType(Render(t)) == "" && MapValueType(Render(t)) == ""
    ensures !t.Tuple? ==> TupleParts(Render(t)) == []
  {
    match t
    case Leaf(head, params) => LeafText(head, params);
    case Tuple(fields) => TupleText(fields);
    case Variant(alts) => VariantText(alts);
    case _ => WrapperText(t);
  }

  /** The type whose text position i of a slice gets under the text of t. */
  function Behind(t: Ty, i: nat): Ty {
    if IsWrapper(t) then t.elem
    else if t.Tuple? && i < |t.fields| then t.fields[i].ty
    else t
  }

  /** A position past the parts of a tuple. */
  function Far(t: Ty): nat {
    if t.Tuple? then |t.fields| else 0
  }

  lemma BehindText(t: Ty, i: nat)
    requires WellFormed(t) && !t.Leaf?
    ensures WellFormed(Behind(t, i))
    ensures ItemType(TupleParts(Render(t)), ElemType(Render(t)), i) == Render(Behind(t, i))
  {
    ElemTypeOfRender(t);
    if t.Tuple? {
      TupleText(t.fields);
      if i < |t.fields| { FieldTypeOfWord(t.fields[i]); }
    } else if t.MapOf? {
      MapText(t.key, t.val);
    } else {
      OtherText(t);
    }
  }

  lemma FarText(t: Ty)
    requires WellFormed(t) && !t.Leaf?
    ensures ElemType(Render(t)) == Render(Behind(t, Far(t)))
  {
    ElemTypeOfRender(t);
  }
}
