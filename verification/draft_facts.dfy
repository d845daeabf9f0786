/** What the draft walker guarantees: the order in which it takes the four
    directives, when an element disappears, how each kind of field value is
    shown, the order of an array fan-out, and that a tree without
    directives is left alone. The three defects of the draft are
    exhibited here next to the corrected behaviour. */
module DraftFacts {
  import opened Js
  import opened Dom
  import opened Draft
  import Directives

  /** `template-if` is taken before anything else: reading its field from
      null or undefined data throws, an empty field removes the element,
      and any other field lets the element be taken again without the
      attribute. */
  lemma IfFirst(e: Element, data: Value)
    requires Given(e, Directives.AttrIf).Some?
    ensures var field := Property(data, e.attrs[Directives.AttrIf]);
      && (field.Throws? ==> Template(e, data).Throws?)
      && (field.Normal? && Empty(field.value) ==> Template(e, data) == Normal(Run([], ToNull)))
      && (field.Normal? && !Empty(field.value) ==>
            Template(e, data) == Template(Consume(e, Directives.AttrIf).element, data))
  {
  }

  /** Without a given `template-if` the element is never removed: it
      stands in its place as one or more elements with its tag. */
  lemma {:induction false} NoIfKeepsElement(e: Element, data: Value)
    requires Given(e, Directives.AttrIf).None?
    ensures Template(e, data).Normal? ==>
      var ns := Template(e, data).value.nodes;
      |ns| >= 1 && forall i | 0 <= i < |ns| :: ns[i].Elem? && ns[i].element.tag == e.tag
    decreases |e.attrs.Keys|, 1
  {
    if Given(e, AttrName).None? && Given(e, Directives.AttrData).None? && Given(e, AttrField).Some? {
      var field := Property(data, e.attrs[AttrField]);
      if field.Normal? && field.value.Arr? && |field.value.items| >= 1 {
        var items := field.value.items;
        assert Template(e, data) == FanOut(e, items);
        CopiesKeepElement(e, items);
      }
    }
  }

  /** Every copy of a fanned-out element is one or more elements with its
      tag. */
  lemma {:induction false} CopiesKeepElement(e: Element, items: seq<Value>)
    requires AttrField in e.attrs && Given(e, Directives.AttrIf).None?
    ensures Copies(e, items).Normal? ==>
      var ns := Concat(Copies(e, items).value);
      (|items| >= 1 ==> |ns| >= 1) && forall i | 0 <= i < |ns| :: ns[i].Elem? && ns[i].element.tag == e.tag
    decreases |e.attrs.Keys|, 0, |items|
  {
    if items != [] && Copies(e, items).Normal? {
      var plain := Consume(e, AttrField).element;
      DraftNames();
      ConsumeShrinks(e, AttrField);
      NoIfKeepsElement(plain, items[0]);
      CopiesKeepElement(e, items[1..]);
      var runs := Copies(e, items).value;
      assert runs[0] == Template(plain, items[0]).value;
      assert runs[1..] == Copies(e, items[1..]).value;
    }
  }

  /** An element disappears exactly when its `template-if` names an empty
      field. */
  lemma RemovedOnlyByEmptyIf(e: Element, data: Value)
    requires Template(e, data).Normal?
    ensures Template(e, data).value.nodes == [] <==>
      Given(e, Directives.AttrIf).Some? && Empty(Property(data, e.attrs[Directives.AttrIf]).value)
  {
    if Given(e, Directives.AttrIf).Some? {
      IfFirst(e, data);
      var field := Property(data, e.attrs[Directives.AttrIf]);
      if !Empty(field.value) {
        var rest := Consume(e, Directives.AttrIf).element;
        assert Given(rest, Directives.AttrIf).None?;
        NoIfKeepsElement(rest, data);
      }
    } else {
      NoIfKeepsElement(e, data);
    }
  }

  /** `template-name` comes before `template-data` and `template-field`:
      only its own attribute is consumed, the others stay for the markup
      the fetch brings, and the promise waits for that fetch. */
  lemma NameBeforeDataAndField(e: Element, data: Value)
    requires Given(e, Directives.AttrIf).None? && Given(e, AttrName).Some?
    ensures Template(e, data).Normal?
    ensures Template(e, data).value.resolves == Fetching(e.attrs[AttrName])
    ensures Template(e, data).value.nodes == [Elem(e.(attrs := e.attrs - {AttrName}))]
  {
  }

  /** `template-data` comes before `template-field`, which stays on the
      element; the promise waits for the fetch of the data. */
  lemma DataBeforeField(e: Element, data: Value)
    requires Given(e, Directives.AttrIf).None? && Given(e, AttrName).None?
    requires Given(e, Directives.AttrData).Some?
    ensures Template(e, data).Normal?
    ensures Template(e, data).value.resolves == Fetching(e.attrs[Directives.AttrData])
    ensures Template(e, data).value.nodes == [Elem(e.(attrs := e.attrs - {Directives.AttrData}))]
  {
  }

  /** The element a `template-field` acts on: its attribute consumed. */
  function Plain(e: Element): (p: Element)
    ensures p.tag == e.tag && p.children == e.children && AttrField !in p.attrs
    ensures forall n | n in e.attrs && n != AttrField :: n in p.attrs && p.attrs[n] == e.attrs[n]
  {
    Consume(e, AttrField).element
  }

  /** The field a given `template-field` names, read from the data. */
  predicate FieldIs(e: Element, data: Value, v: Value) {
    Bare(e.(attrs := e.attrs - {AttrField})) && Given(e, AttrField).Some?
    && Property(data, e.attrs[AttrField]) == Normal(v)
  }

  /** Reading the field of null or undefined data throws. */
  lemma FieldOfNothingThrows(e: Element, data: Value)
    requires Given(e, Directives.AttrIf).None? && Given(e, AttrName).None?
    requires Given(e, Directives.AttrData).None? && Given(e, AttrField).Some?
    ensures Template(e, data).Throws? <==>
      data.Undefined? || data.Null? || Show(e, Property(data, e.attrs[AttrField]).value).Throws?
  {
  }

  /** A scalar field replaces the element's content with its text: a
      string verbatim, a boolean, number or BigInt as its JSON text (the
      digits for a BigInt), null and undefined as nothing. The element
      stays and the promise resolves to it. */
  lemma ScalarShown(e: Element, data: Value, v: Value)
    requires FieldIs(e, data, v)
    requires !v.Arr? && !v.Obj? && !v.Func?
    ensures Template(e, data) == Normal(Run([Elem(Plain(e).(children := ShownText(v)))], ToElement))
  {
    DraftNames();
    FieldIsUnfolds(e, data, v);
  }

  /** The content a scalar field value is shown as. */
  function ShownText(v: Value): (ns: seq<Node>)
    requires !v.Arr? && !v.Obj? && !v.Func?
    ensures v.Undefined? || v.Null? ==> ns == []
    ensures v.Str? ==> ns == TextContent(v.s)
    ensures v.Bool? || v.Num? ==> ns == TextContent(JsonScalar(v).value)
    ensures v.BigInt? ==> ns == TextContent(v.digits)
  {
    if v.Undefined? || v.Null? then [] else if v.Str? then TextContent(v.s) else TextContent(ScalarText(v))
  }

  /** A field with a value given reaches the field step. */
  lemma FieldIsUnfolds(e: Element, data: Value, v: Value)
    requires FieldIs(e, data, v)
    ensures AttrField in e.attrs
    ensures Template(e, data) == Show(e, v)
  {
    DraftNames();
    var rest := e.(attrs := e.attrs - {AttrField});
    assert Given(e, Directives.AttrIf) == Given(rest, Directives.AttrIf);
    assert Given(e, AttrName) == Given(rest, AttrName);
    assert Given(e, Directives.AttrData) == Given(rest, Directives.AttrData);
  }

  /** A null field clears the element's content, as an undefined one does
      (the corrected dispatch). */
  lemma NullFieldClears(e: Element, data: Value)
    requires FieldIs(e, data, Null)
    ensures Template(e, data) == Normal(Run([Elem(Plain(e).(children := []))], ToElement))
  {
    ScalarShown(e, data, Null);
  }

  /** As written, a null field is not cleared but handed to the children as
      their data: `typeof null` is "object", and the 'nul' label matches no
      value at all. */
  lemma NullFieldAsWritten()
    ensures TypeOf(Null) == "object"
    ensures forall v: Value :: TypeOf(v) != "nul"
    ensures DispatchAsWritten(Null) == PassDown && Dispatch(Null) == Clear
  {
  }

  /** As written, a BigInt field makes `JSON.stringify` throw, although the
      switch sends 'bigint' to the scalar branch; the corrected text is its
      digits. */
  lemma BigIntFieldAsWritten()
    ensures DispatchAsWritten(BigInt("10")) == Json
    ensures JsonScalar(BigInt("10")).Throws?
    ensures ScalarText(BigInt("10")) == "10"
  {
  }

  /** An empty array clears the content, keeps the element and resolves to
      null. */
  lemma EmptyArrayClears(e: Element, data: Value)
    requires FieldIs(e, data, Arr([]))
    ensures Template(e, data) == Normal(Run([Elem(Plain(e).(children := []))], ToNull))
  {
    FieldIsUnfolds(e, data, Arr([]));
  }

  /** An object field becomes the data of the element's children. */
  lemma ObjectPassedDown(e: Element, data: Value, props: map<string, Value>, iteration: Option<seq<Value>>)
    requires FieldIs(e, data, Obj(props, iteration))
    ensures Template(e, data) == Distribute(Plain(e), Obj(props, iteration))
  {
    FieldIsUnfolds(e, data, Obj(props, iteration));
  }

  /** A function field throws. */
  lemma FunctionFieldThrows(e: Element, data: Value, source: string)
    requires FieldIs(e, data, Func(source))
    ensures Template(e, data).Throws?
  {
    FieldIsUnfolds(e, data, Func(source));
  }

  /** Without any directive, the data goes to the children unchanged. */
  lemma BarePassesData(e: Element, data: Value)
    requires Bare(e)
    ensures Template(e, data) == Distribute(e, data)
  {
  }

  /** The copies are taken item by item, in item order; they all succeed
      exactly when every item does. */
  lemma {:induction false} CopiesInItemOrder(e: Element, items: seq<Value>)
    requires AttrField in e.attrs
    ensures Copies(e, items).Normal? <==> forall i | 0 <= i < |items| :: Template(Plain(e), items[i]).Normal?
    ensures Copies(e, items).Normal? ==>
      forall i | 0 <= i < |items| :: Copies(e, items).value[i] == Template(Plain(e), items[i]).value
    decreases |items|
  {
    if items != [] {
      CopiesInItemOrder(e, items[1..]);
      assert forall i | 1 <= i < |items| :: items[1..][i - 1] == items[i];
      if Copies(e, items).Normal? {
        assert Copies(e, items).value[1..] == Copies(e, items[1..]).value;
      }
    }
  }

  /** A field that is an array of N >= 1 items becomes N elements in item
      order, the element itself first with item 0, each copy with its own
      item. The promise lists the copies' promises first and the element's
      last. */
  lemma FanOutInItemOrder(e: Element, data: Value, items: seq<Value>)
    requires FieldIs(e, data, Arr(items)) && |items| >= 1
    requires Template(e, data).Normal?
    ensures forall i | 0 <= i < |items| :: Template(Plain(e), items[i]).Normal?
    ensures var ns := Template(e, data).value.nodes;
      |ns| == |items| && forall i | 0 <= i < |items| :: [ns[i]] == Template(Plain(e), items[i]).value.nodes
    ensures var ps := Template(e, data).value.resolves;
      ps.ToAll? && |ps.parts| == |items|
      && ps.parts[|items| - 1] == Template(Plain(e), items[0]).value.resolves
      && forall i | 1 <= i < |items| :: ps.parts[i - 1] == Template(Plain(e), items[i]).value.resolves
  {
    FieldIsUnfolds(e, data, Arr(items));
    DraftNames();
    assert Template(e, data) == FanOut(e, items);
    CopiesInItemOrder(e, items);
    var runs := Copies(e, items).value;
    forall i | 0 <= i < |items|
      ensures |runs[i].nodes| == 1
    {
      CopyIsOneElement(Plain(e), items[i]);
    }
  }

  /** The element without `template-if` and `template-field` is one
      element after it is taken. */
  lemma CopyIsOneElement(e: Element, data: Value)
    requires Given(e, Directives.AttrIf).None? && AttrField !in e.attrs
    ensures Template(e, data).Normal? ==> |Template(e, data).value.nodes| == 1
  {
  }

  /** A child list is walked head first, then the rest. */
  lemma WalkCons(ns: seq<Node>, data: Value)
    requires ns != []
    ensures Walk(ns, data).Normal? <==> WalkChild(ns[0], data).Normal? && Walk(ns[1..], data).Normal?
    ensures Walk(ns, data).Normal? ==> Walk(ns, data).value == Walked(
      WalkChild(ns[0], data).value.nodes + Walk(ns[1..], data).value.nodes,
      WalkChild(ns[0], data).value.parts + Walk(ns[1..], data).value.parts)
  {
  }

  /** The promises of elements each taken with the same data, in order, or
      None when one of them throws. */
  function EachPromise(kids: seq<Element>, data: Value): (r: Option<seq<Resolution>>)
  {
    if kids == [] then Some([])
    else
      match Template(kids[0], data)
      case Throws => None
      case Normal(run) =>
        var rest := EachPromise(kids[1..], data);
        if rest.None? then None else Some([run.resolves] + rest.value)
  }

  /** Taking elements one by one succeeds exactly when each succeeds, and
      lists each one's promise at its position. */
  lemma {:induction false} EachPromiseByPosition(kids: seq<Element>, data: Value)
    ensures EachPromise(kids, data).Some? <==> forall j | 0 <= j < |kids| :: Template(kids[j], data).Normal?
    ensures EachPromise(kids, data).Some? ==>
      |EachPromise(kids, data).value| == |kids|
      && forall j | 0 <= j < |kids| :: EachPromise(kids, data).value[j] == Template(kids[j], data).value.resolves
  {
    if kids != [] {
      EachPromiseByPosition(kids[1..], data);
      assert forall j | 1 <= j < |kids| :: kids[1..][j - 1] == kids[j];
    }
  }

  /** The child walk takes every element child once, in order, with the
      same data; it succeeds exactly when every child does. */
  lemma {:induction false} WalkVisitsEach(ns: seq<Node>, data: Value)
    ensures Walk(ns, data).Normal? <==> EachPromise(ElementChildren(ns), data).Some?
    ensures Walk(ns, data).Normal? ==> Walk(ns, data).value.parts == EachPromise(ElementChildren(ns), data).value
  {
    if ns != [] {
      WalkVisitsEach(ns[1..], data);
      WalkCons(ns, data);
      if ns[0].Elem? {
        assert ElementChildren(ns) == [ns[0].element] + ElementChildren(ns[1..]);
        assert ElementChildren(ns)[1..] == ElementChildren(ns[1..]);
      }
    }
  }

  /** No directive on the element or anywhere below it. */
  predicate Inert(e: Element)
    decreases Size(e), 0
  {
    Bare(e) && InertNodes(e.children)
  }

  /** No directive on any element of the list or below it. */
  predicate InertNodes(ns: seq<Node>)
    decreases NodesSize(ns), 2
  {
    ns == [] || (InertNode(ns[0]) && InertNodes(ns[1..]))
  }

  /** No directive on the node, if it is an element, or below it. */
  predicate InertNode(n: Node)
    decreases NodeSize(n), 1
  {
    n.Elem? ==> Inert(n.element)
  }

  /** A tree without directives is left exactly as it is, whatever the
      data, even null or undefined: no field is ever read. */
  lemma {:induction false} InertUnchanged(e: Element, data: Value)
    requires Inert(e)
    ensures Template(e, data).Normal? && Template(e, data).value.nodes == [Elem(e)]
    decreases Size(e), 0
  {
    InertWalkUnchanged(e.children, data);
    assert e.(children := e.children) == e;
  }

  /** A child list without directives is walked without change. */
  lemma {:induction false} InertWalkUnchanged(ns: seq<Node>, data: Value)
    requires InertNodes(ns)
    ensures Walk(ns, data).Normal? && Walk(ns, data).value.nodes == ns
    decreases NodesSize(ns), 1
  {
    if ns != [] {
      if ns[0].Elem? {
        ChildSmaller(ns, 0);
        InertUnchanged(ns[0].element, data);
      }
      InertWalkUnchanged(ns[1..], data);
      assert [ns[0]] + ns[1..] == ns;
    }
  }

  /** Two sibling paragraphs: the first removed by an empty `template-if`,
      the second filled from a field. */
  function Removed(): Element { Element("p", map[Directives.AttrIf := "x"], []) }
  function Filled(): Element { Element("p", map[AttrField := "y"], []) }
  function Greeting(): Value { Obj(map["y" := Str("hi")], None) }

  /** As written, the live child collection shifts when the first
      paragraph removes itself, and the loop steps over the second, which
      keeps its `template-field` and no content. */
  lemma LiveWalkSkipsSibling()
    ensures LiveWalk([Elem(Removed()), Elem(Filled())], 0, Greeting(), 2) == Some(Normal([Elem(Filled())]))
  {
    DraftNames();
    var ns := [Elem(Removed()), Elem(Filled())];
    assert NthElement(ns, 0) == Some(0);
    assert Property(Greeting(), "x") == Normal(Undefined);
    assert Template(Removed(), Greeting()) == Normal(Run([], ToNull));
    assert ns[..0] + [] + ns[1..] == [Elem(Filled())];
    assert NthElement([Elem(Filled())], 1) == None;
  }

  /** Walking the children as they were when the walk started takes the
      second paragraph too: it is filled with the field's text. */
  lemma WalkTakesSibling()
    ensures Walk([Elem(Removed()), Elem(Filled())], Greeting())
      == Normal(Walked([Elem(Element("p", map[], [Text("hi")]))], [ToNull, ToElement]))
  {
    DraftNames();
    var filled := Filled();
    var shown := Element("p", map[], [Text("hi")]);
    assert Template(Removed(), Greeting()) == Normal(Run([], ToNull));
    assert filled.attrs - {AttrField} == map[];
    assert FieldIs(filled, Greeting(), Str("hi"));
    ScalarShown(filled, Greeting(), Str("hi"));
    assert Plain(filled).(children := ShownText(Str("hi"))) == shown;
    assert Template(filled, Greeting()) == Normal(Run([Elem(shown)], ToElement));
    var ns := [Elem(Removed()), Elem(Filled())];
    assert ns[1..] == [Elem(filled)] && ns[1..][1..] == [];
    assert WalkChild(Elem(filled), Greeting()) == Normal(Walked([Elem(shown)], [ToElement]));
    assert [Elem(filled)][1..] == [];
    assert Walk([], Greeting()) == Normal(Walked([], []));
    assert [Elem(shown)] + [] == [Elem(shown)] && [ToElement] + [] == [ToElement];
    WalkCons([Elem(filled)], Greeting());
    assert Walk([Elem(filled)], Greeting()) == Normal(Walked([Elem(shown)], [ToElement]));
    assert WalkChild(ns[0], Greeting()) == Normal(Walked([], [ToNull]));
    assert Walk(ns[1..], Greeting()) == Normal(Walked([Elem(shown)], [ToElement]));
    assert [] + [Elem(shown)] == [Elem(shown)] && [ToNull] + [ToElement] == [ToNull, ToElement];
    WalkCons(ns, Greeting());
  }
}
