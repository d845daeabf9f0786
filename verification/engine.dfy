/** The directive state machine of test/htdocs/modules/template.js:
    `processElement`, the child walk `processChildNodes`, iteration
    (`iterate`), template application (`create`) and the three placement
    modes (`fill`, `append`, `replace`), as one family of pure functions.

    The source rewrites a live tree; here each call returns what its promise
    resolves to together with the node's fate, and the parent assembles the
    nodes that take the element's position. The source starts every sibling
    before any finishes, and `Promise.all` keeps the results in index order;
    the model takes the siblings one after another, which is one interleaving
    the source allows.
    Template content may refer to templates again without bound, so the
    model carries `fuel`, spent each time template content is processed. */
module Engine {
  import opened Js
  import opened Dom
  import opened Interpolation
  import opened Directives

  datatype Abort = Threw | OutOfFuel

  /** What `processElement` resolves to, and the element's fate. */
  datatype Outcome =
    | Kept(element: Element)      // resolves to the element, which stays in place
    | Fragment(nodes: seq<Node>)  // resolves to a fragment; `nodes` take the element's place (moved out of the fragment when it had a parent)
    | Removed                     // resolves to null: the element is gone
    | Replaced(nodes: seq<Node>)  // resolves to undefined: replace mode put `nodes` after the element and removed it
    | Aborted(reason: Abort)      // the promise rejects; the sequential trace stops after this element's prolog

  datatype Processed = Processed(outcome: Outcome, execs: seq<Exec>)

  /** Per-item outcomes of a fan-out joined by `Promise.all`. */
  datatype Collected = Collected(outcomes: seq<Outcome>, execs: seq<Exec>) | CollectAborted(reason: Abort)

  /** A forest built from processed nodes. */
  datatype Built = Built(nodes: seq<Node>, execs: seq<Exec>) | BuildAborted(reason: Abort)

  predicate AllElements(ns: seq<Node>) {
    forall i | 0 <= i < |ns| :: ns[i].Elem?
  }

  /** Fragments and replacements are made of elements only. */
  predicate WellFormed(o: Outcome) {
    && (o.Fragment? ==> AllElements(o.nodes))
    && (o.Replaced? ==> AllElements(o.nodes))
  }

  /** The nodes that occupy a processed element's position afterwards.
      `after()` and `remove()` do nothing to a node without a parent, so what
      replace mode produced is lost when the element was detached (a
      template root or an iteration clone). */
  function Placement(o: Outcome, attached: bool): (ns: seq<Node>)
    ensures WellFormed(o) ==> AllElements(ns)
    ensures o.Kept? ==> ns == [Elem(o.element)]
    ensures o.Fragment? ==> ns == o.nodes
    ensures o.Replaced? ==> ns == (if attached then o.nodes else [])
    ensures o.Removed? || o.Aborted? ==> ns == []
  {
    match o
    case Kept(e) => [Elem(e)]
    case Fragment(ns) => ns
    case Removed => []
    case Replaced(ns) => if attached then ns else []
    case Aborted(_) => []
  }

  /** A result that `!= null` keeps: null (removed) and undefined (replaced)
      are dropped. */
  predicate Survives(o: Outcome) {
    o.Kept? || o.Fragment?
  }

  /** Appends the surviving results to a fragment, in index order. */
  function Assemble(os: seq<Outcome>): (ns: seq<Node>)
    ensures (forall i | 0 <= i < |os| :: WellFormed(os[i])) ==> AllElements(ns)
    decreases os
  {
    if os == [] then []
    else (if Survives(os[0]) then Placement(os[0], false) else []) + Assemble(os[1..])
  }

  /** Directives a kept element no longer carries. */
  predicate DirectivesConsumed(e: Element) {
    && AttrIf !in e.attrs && AttrProlog !in e.attrs
    && AttrDataSrc !in e.attrs && AttrData !in e.attrs
    && AttrForeach !in e.attrs && AttrTemplate !in e.attrs
    && AttrEpilog !in e.attrs
    && forall n | n in e.attrs :: !IsHandler(n)
  }

  function ForeachRank(e: Element): nat {
    if AttrForeach in e.attrs then 4 else 1
  }

  // ---------------------------------------------------------------------

  /** `processElement(element, data)`: the directive precedence.
      1. a `<template>` element is returned untouched;
      2. a false `template-if` removes the element and stops;
      3. prolog, attribute interpolation, data rebinding (`Prepare`);
      4. `template-foreach` hands the element over to iteration;
      5. otherwise a template or the children are processed (`Resolve`). */
  function ProcessElement(h: Host, e: Element, data: Value, fuel: nat): (r: Processed)
    ensures WellFormed(r.outcome)
    ensures r.outcome.Kept? && e.tag != "template" ==> DirectivesConsumed(r.outcome.element)
    decreases fuel, Size(e), ForeachRank(e), 0
  {
    if e.tag == "template" then Processed(Kept(e), [])
    else
      var cond := GetCondition(h, e, data);
      if !cond.value then Processed(Removed, [])
      else
        var p := Prepare(h, cond.element, data);
        match p.iteration
        case IterationThrows => Processed(Aborted(Threw), p.prolog)
        case Foreach(items) =>
          var r := Iterate(h, p.element, items, fuel);
          Processed(r.outcome, p.prolog + r.execs)
        case NoIteration =>
          var r := Resolve(h, p.element, p.data, fuel);
          Processed(r.outcome, p.prolog + r.execs)
  }

  /** Steps 5 and 6 of `processElement`, once no iteration applies: a
      resolved template is placed by mode, and the epilog runs only when the
      result is the element itself (fill, append); without a template the
      children are processed, then the epilog runs. */
  function Resolve(h: Host, e: Element, d: Value, fuel: nat): (r: Processed)
    ensures WellFormed(r.outcome)
    ensures r.outcome.Kept? ==>
      && r.outcome.element.tag == e.tag
      && r.outcome.element.attrs.Keys <= e.attrs.Keys
      && AttrTemplate !in r.outcome.element.attrs
      && AttrEpilog !in r.outcome.element.attrs
    ensures r.outcome.Kept? ==>
      forall n | n in e.attrs && n != AttrTemplate && n != AttrTemplateSrc && n != AttrEpilog ::
        n in r.outcome.element.attrs && r.outcome.element.attrs[n] == e.attrs[n]
    ensures r.outcome.Kept? && AttrEpilog in e.attrs ==>
      |r.execs| > 0 && r.execs[|r.execs| - 1] == RunEpilog(e.attrs[AttrEpilog], d)
    decreases fuel, Size(e), 0, 0
  {
    var tpl := GetTemplate(h, e, d);
    match tpl.value
    case Some(t) =>
      var placed := Apply(h, GetMode(h, tpl.element), tpl.element, t, d, fuel);
      (match placed.outcome
       case Kept(k) =>
         var epi := ExecuteEpilog(k, d);
         Processed(Kept(epi.element), placed.execs + epi.value)
       case _ => placed)
    case None =>
      match ProcessChildNodes(h, tpl.element.children, d, fuel)
      case BuildAborted(why) => Processed(Aborted(why), [])
      case Built(ns, ex) =>
        var epi := ExecuteEpilog(tpl.element.(children := ns), d);
        Processed(Kept(epi.element), ex + epi.value)
  }

  /** `processChildNodes`: every child is handled in place, taken in index order. */
  function ProcessChildNodes(h: Host, ns: seq<Node>, data: Value, fuel: nat): (r: Built)
    ensures r.Built? ==> forall i | 0 <= i < |r.nodes| :: !r.nodes[i].Comment?
    decreases fuel, NodesSize(ns), 6, 0
  {
    if ns == [] then Built([], [])
    else
      match ProcessChild(h, ns[0], data, fuel)
      case BuildAborted(why) => BuildAborted(why)
      case Built(first, ex) =>
        match ProcessChildNodes(h, ns[1..], data, fuel)
        case BuildAborted(why) => BuildAborted(why)
        case Built(rest, ex') => Built(first + rest, ex + ex')
  }

  /** One child of `processChildNodes`: text is interpolated, a comment is
      removed, an element is processed where it stands, any other node is
      kept as it is. */
  function ProcessChild(h: Host, n: Node, data: Value, fuel: nat): (r: Built)
    ensures r.Built? ==> forall i | 0 <= i < |r.nodes| :: !r.nodes[i].Comment?
    decreases fuel, NodeSize(n), 5, 0
  {
    match n
    case Text(t) => Built([Text(Inject(h.eval, t, data))], [])
    case Comment(_) => Built([], [])
    case Other(k) => Built([Other(k)], [])
    case Elem(c) =>
      var p := ProcessElement(h, c, data, fuel);
      if p.outcome.Aborted? then BuildAborted(p.outcome.reason)
      else Built(Placement(p.outcome, true), p.execs)
  }

  /** `iterate(element, iterable)`: one clone per item, item i bound to clone
      i; the survivors, in item order, form the fragment that replaces the
      element, or the element is simply removed when none survives. */
  function Iterate(h: Host, e: Element, items: seq<Value>, fuel: nat): (r: Processed)
    requires AttrForeach !in e.attrs
    ensures WellFormed(r.outcome)
    ensures r.outcome.Fragment? || r.outcome.Removed? || r.outcome.Aborted?
    decreases fuel, Size(e), 3, 0
  {
    match Clones(h, e, items, fuel)
    case CollectAborted(why) => Processed(Aborted(why), [])
    case Collected(os, ex) =>
      if exists i | 0 <= i < |os| :: Survives(os[i]) then Processed(Fragment(Assemble(os)), ex)
      else Processed(Removed, ex)
  }

  /** Processes a clone of `e` for every item, taken in item order. */
  function Clones(h: Host, e: Element, items: seq<Value>, fuel: nat): (r: Collected)
    requires AttrForeach !in e.attrs
    ensures r.Collected? ==> |r.outcomes| == |items|
    ensures r.Collected? ==> forall i | 0 <= i < |r.outcomes| :: WellFormed(r.outcomes[i])
    decreases fuel, Size(e), 2, |items|
  {
    if items == [] then Collected([], [])
    else
      var p := ProcessElement(h, e, items[0], fuel);
      if p.outcome.Aborted? then CollectAborted(p.outcome.reason)
      else
        match Clones(h, e, items[1..], fuel)
        case CollectAborted(why) => CollectAborted(why)
        case Collected(os, ex) => Collected([p.outcome] + os, p.execs + ex)
  }

  /** `create(template, data)`: processes a copy of each root element of the
      template's content (its element children only) and keeps the
      survivors in template order. The template itself is never changed.
      An element that is not a `<template>` has no content: that throws. */
  function Create(h: Host, t: Element, data: Value, fuel: nat): (r: Built)
    ensures r.Built? ==> AllElements(r.nodes)
    ensures t.tag != "template" ==> r == BuildAborted(Threw)
    decreases fuel, 0, 1, 0
  {
    if t.tag != "template" then BuildAborted(Threw)
    else
      match Roots(h, ElementChildren(t.children), data, fuel)
      case CollectAborted(why) => BuildAborted(why)
      case Collected(os, ex) => Built(Assemble(os), ex)
  }

  /** Processes each template root, taken in index order, one template level deeper. */
  function Roots(h: Host, roots: seq<Element>, data: Value, fuel: nat): (r: Collected)
    ensures r.Collected? ==> |r.outcomes| == |roots|
    ensures r.Collected? ==> forall i | 0 <= i < |r.outcomes| :: WellFormed(r.outcomes[i])
    decreases fuel, 0, 0, |roots|
  {
    if roots == [] then Collected([], [])
    else if fuel == 0 then CollectAborted(OutOfFuel)
    else
      var p := ProcessElement(h, roots[0], data, fuel - 1);
      if p.outcome.Aborted? then CollectAborted(p.outcome.reason)
      else
        match Roots(h, roots[1..], data, fuel)
        case CollectAborted(why) => CollectAborted(why)
        case Collected(os, ex) => Collected([p.outcome] + os, p.execs + ex)
  }

  /** `fill`: the element's previous content is discarded for the fragment. */
  function FillMode(h: Host, target: Element, t: Element, data: Value, fuel: nat): (r: Processed)
    ensures r.outcome.Kept? || r.outcome.Aborted?
    ensures r.outcome.Kept? ==>
      && Create(h, t, data, fuel).Built?
      && r.outcome.element == target.(children := Create(h, t, data, fuel).nodes)
    decreases fuel, 0, 2, 0
  {
    match Create(h, t, data, fuel)
    case BuildAborted(why) => Processed(Aborted(why), [])
    case Built(ns, ex) => Processed(Kept(target.(children := ns)), ex)
  }

  /** `append`: the fragment follows the element's existing content. */
  function AppendMode(h: Host, target: Element, t: Element, data: Value, fuel: nat): (r: Processed)
    ensures r.outcome.Kept? || r.outcome.Aborted?
    ensures r.outcome.Kept? ==>
      && Create(h, t, data, fuel).Built?
      && r.outcome.element.tag == target.tag && r.outcome.element.attrs == target.attrs
      && |r.outcome.element.children| == |target.children| + |Create(h, t, data, fuel).nodes|
      && r.outcome.element.children[..|target.children|] == target.children
      && r.outcome.element.children[|target.children|..] == Create(h, t, data, fuel).nodes
    decreases fuel, 0, 2, 0
  {
    match Create(h, t, data, fuel)
    case BuildAborted(why) => Processed(Aborted(why), [])
    case Built(ns, ex) => Processed(Kept(target.(children := target.children + ns)), ex)
  }

  /** `replace`: the fragment goes after the element, which is removed with
      its attributes; the call resolves to undefined. */
  function ReplaceMode(h: Host, target: Element, t: Element, data: Value, fuel: nat): (r: Processed)
    ensures r.outcome.Replaced? || r.outcome.Aborted?
    ensures r.outcome.Replaced? ==>
      Create(h, t, data, fuel).Built? && r.outcome.nodes == Create(h, t, data, fuel).nodes
    decreases fuel, 0, 2, 0
  {
    match Create(h, t, data, fuel)
    case BuildAborted(why) => Processed(Aborted(why), [])
    case Built(ns, ex) => Processed(Replaced(ns), ex)
  }

  /** The `switch (mode)` of `processElement`. */
  function Apply(h: Host, mode: Mode, target: Element, t: Element, data: Value, fuel: nat): (r: Processed)
    ensures WellFormed(r.outcome)
    ensures r.outcome.Kept? ==> r.outcome.element.tag == target.tag && r.outcome.element.attrs == target.attrs
    decreases fuel, 0, 3, 0
  {
    match mode
    case Append => AppendMode(h, target, t, data, fuel)
    case Fill => FillMode(h, target, t, data, fuel)
    case Replace => ReplaceMode(h, target, t, data, fuel)
  }

  /** `processElement(id, data)`: an id is first resolved in the document;
      an unknown id leaves null, on which the first attribute test throws. */
  function ProcessById(h: Host, id: string, data: Value, fuel: nat): (r: Processed)
    ensures id != "" && id in h.byId ==> r == ProcessElement(h, h.byId[id], data, fuel)
    ensures !(id != "" && id in h.byId) ==> r.outcome == Aborted(Threw)
  {
    if id != "" && id in h.byId then ProcessElement(h, h.byId[id], data, fuel)
    else Processed(Aborted(Threw), [])
  }
}
