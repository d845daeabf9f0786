/** The first, synchronous version of the directive walker, kept at the
    root of the repository as `template(element, data)`. It knows four
    directives, taken in a fixed order on each element: `template-if`,
    `template-name`, `template-data`, `template-field`. Data is bound by
    plain property lookup, and an array field fans the element out into
    one copy per item.

    The walk is modelled as a function from an element and the current
    data to the nodes that stand in the element's place once the
    synchronous part of the call is over, and to what the returned promise
    resolves to. Fetches are started but their continuations are not
    modelled. */
module Draft {
  import opened Js
  import opened Dom
  import Directives

  const AttrName := "template-name"
  const AttrField := "template-field"

  /** The four directive names are distinct. */
  lemma DraftNames()
    ensures Directives.AttrIf != AttrName && Directives.AttrIf != Directives.AttrData
    ensures Directives.AttrIf != AttrField && AttrName != Directives.AttrData
    ensures AttrName != AttrField && Directives.AttrData != AttrField
  {
  }

  /** `element.getAttribute(name)`: the attribute's text, or null. */
  function GetAttribute(e: Element, name: string): Value {
    if name in e.attrs then Str(e.attrs[name]) else Null
  }

  /** `element.getAttribute(name)` when it is truthy: a missing attribute
      and an empty one are both passed over. */
  function Given(e: Element, name: string): (r: Option<string>)
    ensures r.Some? <==> Truthy(GetAttribute(e, name))
    ensures r.Some? ==> GetAttribute(e, name) == Str(r.value)
  {
    if name in e.attrs && e.attrs[name] != "" then Some(e.attrs[name]) else None
  }

  /** No directive of the draft is given on this element. */
  predicate Bare(e: Element) {
    Given(e, Directives.AttrIf).None? && Given(e, AttrName).None?
    && Given(e, Directives.AttrData).None? && Given(e, AttrField).None?
  }

  /** The emptiness test of `template-if`: null, undefined, or an array
      without items. */
  predicate Empty(v: Value) {
    v.Null? || v.Undefined? || (v.Arr? && |v.items| < 1)
  }

  /** The branches of the `switch (typeof fieldValue)` on a field value. */
  datatype Branch = Clear | Json | Verbatim | Fan | PassDown | Unhandled

  /** The switch as written. Its second label is the string 'nul', which
      `typeof` never yields, so null reaches the 'object' case and, not
      being an array, is passed down to the children. */
  function DispatchAsWritten(v: Value): (b: Branch)
    ensures b == Clear <==> v.Undefined?
    ensures b == PassDown <==> v.Obj? || v.Null?
  {
    var t := TypeOf(v);
    if t == "undefined" || t == "nul" then Clear
    else if t == "boolean" || t == "number" || t == "bigint" then Json
    else if t == "string" || t == "symbol" then Verbatim
    else if t == "object" then (if v.Arr? then Fan else PassDown)
    else Unhandled
  }

  /** The dispatch the code means: null clears the content as undefined
      does. Every other value goes where the written switch sends it. */
  function Dispatch(v: Value): (b: Branch)
    ensures b == Clear <==> v.Undefined? || v.Null?
    ensures b == Json <==> v.Bool? || v.Num? || v.BigInt?
    ensures b == Verbatim <==> v.Str?
    ensures b == Fan <==> v.Arr?
    ensures b == PassDown <==> v.Obj?
    ensures b == Unhandled <==> v.Func?
  {
    if v.Null? then Clear else DispatchAsWritten(v)
  }

  /** The text shown for a boolean, number or BigInt field. The code uses
      `JSON.stringify`, which throws on a BigInt even though the switch
      lists 'bigint' beside the other scalars; the text meant for a BigInt
      is its digits. */
  function ScalarText(v: Value): (t: string)
    requires v.Bool? || v.Num? || v.BigInt?
    ensures !v.BigInt? ==> JsonScalar(v) == Normal(t)
    ensures v.BigInt? ==> t == ToStr(v)
  {
    if v.BigInt? then v.digits else JsonScalar(v).value
  }

  /** What the promise returned for an element resolves to. */
  datatype Resolution =
    | ToNull                          // null
    | ToElement                       // the element itself
    | ToAll(parts: seq<Resolution>)   // `Promise.all` over these, in order
    | Fetching(url: string)           // settles once a fetch of url is done

  /** The nodes standing in an element's place, and its promise. */
  datatype Run = Run(nodes: seq<Node>, resolves: Resolution)

  /** The results of walking a child list: the new child list and the
      promises of the element children. */
  datatype Walked = Walked(nodes: seq<Node>, parts: seq<Resolution>)

  /** Every node is an element with the given tag. */
  predicate Tagged(ns: seq<Node>, tag: string) {
    forall n | n in ns :: n.Elem? && n.element.tag == tag
  }

  /** `template(element, data)`. A `template-if` whose field is empty
      removes the element; otherwise the attribute is consumed and the
      element is taken again. `template-name` and `template-data` consume
      their attribute and start a fetch. `template-field` consumes its
      attribute and shows, fans out or passes down the field. Without any
      of them the data goes to the element children. */
  function Template(e: Element, data: Value): (r: Completion<Run>)
    ensures r.Normal? ==> Tagged(r.value.nodes, e.tag)
    decreases Size(e), 3, |e.attrs.Keys|, 3, 0
  {
    match Given(e, Directives.AttrIf)
    case Some(name) =>
      (match Property(data, name)
       case Throws => Throws
       case Normal(v) =>
         if Empty(v) then Normal(Run([], ToNull))
         else
           ConsumeShrinks(e, Directives.AttrIf);
           Template(Consume(e, Directives.AttrIf).element, data))
    case None =>
      match Given(e, AttrName)
      case Some(url) => Normal(Run([Elem(Consume(e, AttrName).element)], Fetching(url)))
      case None =>
        match Given(e, Directives.AttrData)
        case Some(url) => Normal(Run([Elem(Consume(e, Directives.AttrData).element)], Fetching(url)))
        case None =>
          match Given(e, AttrField)
          case Some(name) =>
            (match Property(data, name)
             case Throws => Throws
             case Normal(v) => Show(e, v))
          case None => Distribute(e, data)
  }

  /** The `template-field` step, once the field value v is known. */
  function Show(e: Element, v: Value): (r: Completion<Run>)
    requires AttrField in e.attrs
    ensures r.Normal? ==> Tagged(r.value.nodes, e.tag)
    decreases Size(e), 3, |e.attrs.Keys|, 2, 0
  {
    var plain := Consume(e, AttrField).element;
    ConsumeShrinks(e, AttrField);
    match Dispatch(v)
    case Clear => Normal(Run([Elem(plain.(children := []))], ToElement))
    case Json => Normal(Run([Elem(plain.(children := TextContent(ScalarText(v))))], ToElement))
    case Verbatim => Normal(Run([Elem(plain.(children := TextContent(v.s)))], ToElement))
    case Fan =>
      if |v.items| < 1 then Normal(Run([Elem(plain.(children := []))], ToNull))
      else FanOut(e, v.items)
    case PassDown => Distribute(plain, v)
    case Unhandled => Throws
  }

  /** An array field with items: copies 1..N-1 of the element are placed
      after it and taken with items 1..N-1, then the element itself with
      item 0. The promise lists the copies' promises first and the
      element's last. */
  function FanOut(e: Element, items: seq<Value>): (r: Completion<Run>)
    requires AttrField in e.attrs && |items| >= 1
    ensures r.Normal? ==> Tagged(r.value.nodes, e.tag)
    ensures r.Normal? ==> r.value.resolves.ToAll? && |r.value.resolves.parts| == |items|
    decreases Size(e), 3, |e.attrs.Keys|, 1, |items| + 1
  {
    match Copies(e, items)
    case Throws => Throws
    case Normal(runs) =>
      ConcatTagged(runs, e.tag);
      Normal(Run(Concat(runs), ToAll(Promises(runs[1..]) + [runs[0].resolves])))
  }

  lemma {:induction false} ConcatTagged(runs: seq<Run>, tag: string)
    requires forall i | 0 <= i < |runs| :: Tagged(runs[i].nodes, tag)
    ensures Tagged(Concat(runs), tag)
  {
    if runs != [] {
      ConcatTagged(runs[1..], tag);
    }
  }

  /** The element without `template-field`, taken once per item. */
  function Copies(e: Element, items: seq<Value>): (r: Completion<seq<Run>>)
    requires AttrField in e.attrs
    ensures r.Normal? ==> |r.value| == |items|
    ensures r.Normal? ==> forall i | 0 <= i < |r.value| :: Tagged(r.value[i].nodes, e.tag)
    decreases Size(e), 3, |e.attrs.Keys|, 1, |items|
  {
    if items == [] then Normal([])
    else
      ConsumeShrinks(e, AttrField);
      match Template(Consume(e, AttrField).element, items[0])
      case Throws => Throws
      case Normal(first) =>
        match Copies(e, items[1..])
        case Throws => Throws
        case Normal(rest) => Normal([first] + rest)
  }

  /** The nodes of several runs, one after the other. */
  function Concat(runs: seq<Run>): (ns: seq<Node>)
    ensures (forall i | 0 <= i < |runs| :: |runs[i].nodes| == 1)
      ==> |ns| == |runs| && forall i | 0 <= i < |runs| :: ns[i] == runs[i].nodes[0]
  {
    if runs == [] then [] else runs[0].nodes + Concat(runs[1..])
  }

  /** The promises of several runs, in order. */
  function Promises(runs: seq<Run>): (ps: seq<Resolution>)
    ensures |ps| == |runs| && forall i | 0 <= i < |runs| :: ps[i] == runs[i].resolves
  {
    seq(|runs|, i requires 0 <= i < |runs| => runs[i].resolves)
  }

  /** The data goes to each element child; the element stays in place. */
  function Distribute(e: Element, data: Value): (r: Completion<Run>)
    ensures r.Normal? ==> |r.value.nodes| == 1 && r.value.nodes[0].Elem?
    ensures r.Normal? ==> r.value.nodes[0].element.tag == e.tag && r.value.nodes[0].element.attrs == e.attrs
    decreases Size(e), 3, |e.attrs.Keys|, 0, 0
  {
    match Walk(e.children, data)
    case Throws => Throws
    case Normal(w) => Normal(Run([Elem(e.(children := w.nodes))], ToAll(w.parts)))
  }

  /** The child list walked in order, each element child taken with the
      same data; text and other nodes stay as they are. */
  function Walk(ns: seq<Node>, data: Value): (r: Completion<Walked>)
    decreases NodesSize(ns), 5, 0, 0, 0
  {
    if ns == [] then Normal(Walked([], []))
    else
      match WalkChild(ns[0], data)
      case Throws => Throws
      case Normal(first) =>
        match Walk(ns[1..], data)
        case Throws => Throws
        case Normal(rest) => Normal(Walked(first.nodes + rest.nodes, first.parts + rest.parts))
  }

  /** One node of a child list. */
  function WalkChild(n: Node, data: Value): (r: Completion<Walked>)
    ensures r.Normal? && !n.Elem? ==> r.value == Walked([n], [])
    ensures n.Elem? ==> (r.Normal? <==> Template(n.element, data).Normal?)
    ensures n.Elem? && r.Normal? ==>
      r.value == Walked(Template(n.element, data).value.nodes, [Template(n.element, data).value.resolves])
    decreases NodeSize(n), 4, 0, 0, 0
  {
    if n.Elem? then
      match Template(n.element, data)
      case Throws => Throws
      case Normal(run) => Normal(Walked(run.nodes, [run.resolves]))
    else Normal(Walked([n], []))
  }

  /** Counting element children in a prefix one node at a time. */
  lemma PrefixChildren(ns: seq<Node>, q: nat)
    requires q < |ns|
    ensures |ElementChildren(ns[..q + 1])| == (if ns[0].Elem? then 1 else 0) + |ElementChildren(ns[1..][..q])|
  {
    assert ns[..q + 1] == [ns[0]] + ns[1..][..q];
    ElementChildrenConcat([ns[0]], ns[1..][..q]);
    ElementChildrenOne(ns[0]);
  }

  /** The position of the k-th element node of a child list. */
  function NthElement(ns: seq<Node>, k: nat): (p: Option<nat>)
    ensures p.Some? <==> k < |ElementChildren(ns)|
    ensures p.Some? ==> p.value < |ns| && ns[p.value].Elem? && ns[p.value].element == ElementChildren(ns)[k]
    ensures p.Some? ==> |ElementChildren(ns[..p.value])| == k
  {
    if ns == [] then None
    else if ns[0].Elem? && k == 0 then Some(0)
    else
      var rest := NthElement(ns[1..], if ns[0].Elem? then k - 1 else k);
      NthStep(ns, k);
      if rest.Some? then
        PrefixChildren(ns, rest.value);
        Some(rest.value + 1)
      else None
  }

  /** Past the head of a child list, the k-th element child is the
      (k-1)-th or k-th of the tail, as the head is an element or not. */
  lemma NthStep(ns: seq<Node>, k: nat)
    requires ns != [] && !(ns[0].Elem? && k == 0)
    ensures var k' := if ns[0].Elem? then k - 1 else k;
      && (k < |ElementChildren(ns)| <==> k' < |ElementChildren(ns[1..])|)
      && (k < |ElementChildren(ns)| ==> ElementChildren(ns)[k] == ElementChildren(ns[1..])[k'])
  {
  }

  /** The walk of the child list as written: `element.children` is a live
      collection and the loop reads `children.item(i)` for increasing i
      while the children it has already taken remove themselves or insert
      copies. The fuel bounds the number of children taken; None means it
      ran out. */
  function LiveWalk(ns: seq<Node>, k: nat, data: Value, fuel: nat): (r: Option<Completion<seq<Node>>>)
    decreases fuel
  {
    match NthElement(ns, k)
    case None => Some(Normal(ns))
    case Some(p) =>
      if fuel == 0 then None
      else
        match Template(ns[p].element, data)
        case Throws => Some(Throws)
        case Normal(run) => LiveWalk(ns[..p] + run.nodes + ns[p + 1..], k + 1, data, fuel - 1)
  }
}
