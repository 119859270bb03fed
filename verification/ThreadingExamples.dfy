/** Two columns whose dates print as timestamps. */
module ThreadingExamples {
  import opened Text
  import opened TypeNames
  import opened TypeAst
  import opened TypeTexts
  import opened Serialize
  import opened Expectation
  import opened ThreadingLimits

  // --- A Map under an aggregate -----------------------------------------------------------------

  lemma PlainLeaf(head: string)
    requires Word(head) && head !in CONSTRUCTORS
    ensures WellFormed(Leaf(head, "")) && Render(Leaf(head, "")) == head
  {
    FlatNested("");
    SplitJoin([]);
  }

  lemma JoinTwo(a: string, b: string)
    ensures Join([a, b]) == a + ", " + b
  {
    assert [a, b][1..] == [b];
  }

  lemma MapRender(k: Ty, v: Ty)
    ensures Render(MapOf(k, v)) == "Map(" + Render(k) + ", " + Render(v) + ")"
  {
    JoinTwo(Render(k), Render(v));
    assert "Map" + "(" == "Map(";
  }

  lemma AggregateRender(fn: string, e: Ty)
    ensures Render(SimpleAgg(fn, e)) == "SimpleAggregateFunction(" + fn + ", " + Render(e) + ")"
  {
    JoinTwo(fn, Render(e));
    assert "SimpleAggregateFunction" + "(" == "SimpleAggregateFunction(";
  }

  predicate IsExample(t: Ty) {
    t == SimpleAgg("any", MapOf(Leaf("String", ""), Leaf("Date", "")))
  }

  lemma ExampleIsWellFormed(t: Ty)
    requires IsExample(t)
    ensures WellFormed(t)
  {
    WordSolid("any");
    PlainLeaf("String");
    PlainLeaf("Date");
  }

  lemma SpelledMap()
    ensures "Map(" + "String" + ", " + "Date" + ")" == "Map(String, Date)"
  {
    assert "Map(" + "String" == "Map(String";
    assert "Map(String" + ", " == "Map(String, ";
    assert "Map(String, " + "Date" == "Map(String, Date";
    assert "Map(String, Date" + ")" == "Map(String, Date)";
  }

  lemma SpelledAggregate()
    ensures "SimpleAggregateFunction(" + "any" + ", " + "Map(String, Date)" + ")"
         == "SimpleAggregateFunction(any, Map(String, Date))"
  {
    assert "SimpleAggregateFunction(" + "any" == "SimpleAggregateFunction(any";
    assert "SimpleAggregateFunction(any" + ", " == "SimpleAggregateFunction(any, ";
    assert "SimpleAggregateFunction(any, " + "Map(String, Date)" == "SimpleAggregateFunction(any, Map(String, Date)";
    assert "SimpleAggregateFunction(any, Map(String, Date)" + ")" == "SimpleAggregateFunction(any, Map(String, Date))";
  }

  lemma ExampleText(t: Ty)
    requires IsExample(t)
    ensures Render(t) == "SimpleAggregateFunction(any, Map(String, Date))"
  {
    PlainLeaf("String");
    PlainLeaf("Date");
    MapRender(Leaf("String", ""), Leaf("Date", ""));
    AggregateRender("any", MapOf(Leaf("String", ""), Leaf("Date", "")));
    SpelledMap();
    SpelledAggregate();
  }

  lemma MapUnderAggregate(t: Ty, e: Entry, at: Instant)
    requires IsExample(t) && WellFormed(t) && e == Entry(KString("k"), Time(at))
    ensures ToJson(Map([e]), Render(t)) == Object(map["k" := Text(at.stamp)])
    ensures Expected(Map([e]), t) == Object(map["k" := Text(at.calendar)])
  {
    WrappedMapRenders([e], t);
    OneWanted(e, Opaque);
    OneWanted(e, t);
  }

  /** The date of a map under an aggregate prints as a timestamp. */
  lemma AggregateLosesDate(text: string, at: Instant)
    requires text == "SimpleAggregateFunction(any, Map(String, Date))"
    ensures ToJson(Map([Entry(KString("k"), Time(at))]), text) == Object(map["k" := Text(at.stamp)])
  {
    var t := SimpleAgg("any", MapOf(Leaf("String", ""), Leaf("Date", "")));
    ExampleIsWellFormed(t);
    ExampleText(t);
    MapUnderAggregate(t, Entry(KString("k"), Time(at)), at);
  }

  // --- A quoted field name --------------------------------------------------------------------------

  lemma FlatArgument(a: string)
    requires Flat(a) && a != "" && Trimmed(a)
    ensures Solid(a)
  {
    FlatNested(a);
  }

  lemma OneField(field: string)
    requires Solid(field)
    ensures TupleParts(InParens("Tuple", field)) == [field]
  {
    ConstructorIsWord("Tuple");
    TypeNameBy("Tuple", field);
    SplitJoin([field]);
  }

  lemma OneTime(at: Instant, field: string, rest: string, inner: string)
    requires FieldType(field) == rest && !IsDateOnly(rest)
    ensures Items([Time(at)], [field], inner) == [Text(at.stamp)]
  {
  }

  // A tuple of one field whose text says nothing once its name is taken off.
  lemma UnreadField(field: string, rest: string, at: Instant, text: string)
    requires TupleParts(text) == [field] && FieldType(field) == rest && Untyped(rest)
    ensures ToJson(Slice([Time(at)]), text) == List([Text(at.stamp)])
  {
    UntypedText(rest);
    SliceReads([Time(at)], text, [field], ElemType(text));
    OneTime(at, field, rest, ElemType(text));
  }

  lemma QuotedIsSolid(field: string)
    requires field == "`a b` Date"
    ensures Solid(field)
  {
    FlatArgument(field);
  }

  lemma QuotedRest(field: string)
    requires field == "`a b` Date"
    ensures FieldType(field) == "b` Date"
  {
    var name, body := "`a", "b` Date";
    assert name + " " + body == field;
    FieldTypeIff(name, body);
  }

  lemma QuotedText(field: string)
    requires field == "`a b` Date"
    ensures Solid(field) && FieldType(field) == "b` Date" && Untyped("b` Date")
  {
    QuotedIsSolid(field);
    QuotedRest(field);
    TypeNameOfLeaf("b` Date");
  }

  // The table of field types of one field.
  lemma OneName(field: string, name: string, rest: string)
    requires field == name + " " + rest && name != "" && ' ' !in name && rest != "" && Trimmed(rest)
    ensures FieldTypes([field]) == map[name := rest]
  {
    assert [] + [field] == [field];
    FieldTypesSnoc([field], [], name, rest);
  }

  lemma QuotedName(field: string)
    requires field == "`a b` Date"
    ensures FieldTypes([field]) == map["`a" := "b` Date"]
  {
    assert field == "`a" + " " + "b` Date";
    OneName(field, "`a", "b` Date");
  }

  // No member of such a tuple, scanned to a map, has a type that says anything.
  lemma UnreadMember(types: map<string, string>, rest: string, key: string, at: Instant)
    requires Untyped(rest) && forall k :: k in types ==> types[k] == rest
    ensures Members([Entry(KString(key), Time(at))], "", "", types) == map[key := Text(at.stamp)]
  {
    UntypedText(rest);
    NoTextIsUntyped();
    UntypedText("");
  }

  lemma UnreadTuple(field: string, rest: string, key: string, at: Instant)
    requires Solid(field) && Untyped(rest) && forall k :: k in FieldTypes([field]) ==> FieldTypes([field])[k] == rest
    ensures ToJson(Map([Entry(KString(key), Time(at))]), InParens("Tuple", field)) == Object(map[key := Text(at.stamp)])
  {
    var text := InParens("Tuple", field);
    OneField(field);
    NoMapTypes(field);
    MapReads([Entry(KString(key), Time(at))], text);
    UnreadMember(FieldTypes([field]), rest, key, at);
  }

  lemma NoMapTypes(field: string)
    ensures MapKeyType(InParens("Tuple", field)) == "" && MapValueType(InParens("Tuple", field)) == ""
  {
    ConstructorIsWord("Tuple");
    TypeNameBy("Tuple", field);
  }

  /** A quoted field name with a space hides the field's type: its date prints as a timestamp, in a
      slice and, under every key, in a map. */
  lemma QuotedNameLosesDate(field: string, key: string, at: Instant)
    requires field == "`a b` Date"
    ensures FieldType(field) == "b` Date"
    ensures ToJson(Slice([Time(at)]), InParens("Tuple", field)) == List([Text(at.stamp)])
    ensures ToJson(Map([Entry(KString(key), Time(at))]), InParens("Tuple", field)) == Object(map[key := Text(at.stamp)])
  {
    QuotedText(field);
    OneField(field);
    UnreadField(field, "b` Date", at, InParens("Tuple", field));
    QuotedName(field);
    UnreadTuple(field, "b` Date", key, at);
  }
}
