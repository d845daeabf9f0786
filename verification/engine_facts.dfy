/** Properties of the directive state machine: the precedence of
    `processElement`, the order in which `iterate` and `create` assemble
    their results, and what each placement mode does to its target. */
module EngineFacts {
  import opened Js
  import opened Dom
  import opened Interpolation
  import opened Directives
  import opened Engine

  // ---------------------------------------------------------------------
  // Precedence of processElement

  /** The cases of `processElement` on an element that is not a template. */
  lemma ProcessElementCases(h: Host, e: Element, data: Value, fuel: nat)
    requires e.tag != "template"
    ensures var cond := GetCondition(h, e, data);
      var p := Prepare(h, cond.element, data);
      var pe := ProcessElement(h, e, data, fuel);
      && (!cond.value ==> pe == Processed(Removed, []))
      && (cond.value && p.iteration.IterationThrows? ==> pe == Processed(Aborted(Threw), p.prolog))
      && (cond.value && p.iteration.Foreach? ==>
            var r := Iterate(h, p.element, p.iteration.items, fuel);
            pe == Processed(r.outcome, p.prolog + r.execs))
      && (cond.value && p.iteration.NoIteration? ==>
            var r := Resolve(h, p.element, p.data, fuel);
            pe == Processed(r.outcome, p.prolog + r.execs))
  {
  }

  /** An element that stays in place went through `Resolve`. */
  lemma KeptViaResolve(h: Host, e: Element, data: Value, fuel: nat)
    requires e.tag != "template" && ProcessElement(h, e, data, fuel).outcome.Kept?
    ensures var cond := GetCondition(h, e, data);
      var p := Prepare(h, cond.element, data);
      && cond.value && p.iteration.NoIteration?
      && var r := Resolve(h, p.element, p.data, fuel);
         ProcessElement(h, e, data, fuel) == Processed(r.outcome, p.prolog + r.execs)
  {
    ProcessElementCases(h, e, data, fuel);
  }

  /** `Resolve` leaves the ordinary attributes of an element it keeps alone. */
  lemma ResolveKeepsOrdinary(h: Host, e: Element, d: Value, fuel: nat)
    ensures var o := Resolve(h, e, d, fuel).outcome;
      o.Kept? ==> forall n | n in e.attrs && !IsDirective(n) :: n in o.element.attrs && o.element.attrs[n] == e.attrs[n]
  {
    DirectiveNames();
  }

  /** An id that names no element of the document (the empty id never
      does). */
  predicate UnknownId(h: Host, id: string) {
    id == "" || id !in h.byId
  }

  /** When the interpolated `template` id names no element, `Resolve` falls
      through to the children and keeps `template-src`. */
  lemma ResolveFallsThrough(h: Host, e: Element, d: Value, fuel: nat)
    requires AttrTemplate in e.attrs && AttrTemplateSrc in e.attrs
    requires UnknownId(h, Inject(h.eval, e.attrs[AttrTemplate], d))
    ensures var o := Resolve(h, e, d, fuel).outcome;
      && (o.Kept? || o.Aborted?)
      && (o.Kept? ==> AttrTemplateSrc in o.element.attrs && o.element.attrs[AttrTemplateSrc] == e.attrs[AttrTemplateSrc])
  {
    DirectiveNames();
    var tpl := GetTemplate(h, e, d);
    assert tpl.value == None;
    assert AttrTemplateSrc in tpl.element.attrs && tpl.element.attrs[AttrTemplateSrc] == e.attrs[AttrTemplateSrc];
  }

  /** A `<template>` element is returned as it is, before any directive is
      read: even a false `template-if` does not remove it. */
  lemma TemplateElementUntouched(h: Host, e: Element, data: Value, fuel: nat)
    requires e.tag == "template"
    ensures ProcessElement(h, e, data, fuel) == Processed(Kept(e), [])
  {
  }

  /** A false condition removes the element, and nothing else happens: no
      prolog, no data, no iteration, no recursion. An expression that fails
      counts as false. */
  lemma FalseConditionRemoves(h: Host, e: Element, data: Value, fuel: nat)
    requires e.tag != "template" && AttrIf in e.attrs
    requires !Truthy(Evaluate(h.eval, e.attrs[AttrIf], data)) || h.eval(e.attrs[AttrIf], data).None?
    ensures ProcessElement(h, e, data, fuel) == Processed(Removed, [])
  {
  }

  /** Once the condition holds, the prolog is the first hook that runs, on
      the incoming data, whatever happens to the element afterwards. */
  lemma PrologFirst(h: Host, e: Element, data: Value, fuel: nat)
    requires e.tag != "template" && AttrProlog in e.attrs
    requires AttrIf in e.attrs ==> Truthy(Evaluate(h.eval, e.attrs[AttrIf], data))
    ensures var r := ProcessElement(h, e, data, fuel);
      |r.execs| > 0 && r.execs[0] == RunProlog(e.attrs[AttrProlog], data)
  {
    ProcessElementCases(h, e, data, fuel);
    var cond := GetCondition(h, e, data);
    assert AttrProlog in cond.element.attrs && cond.element.attrs[AttrProlog] == e.attrs[AttrProlog] by {
      DirectiveNames();
    }
    var p := Prepare(h, cond.element, data);
    var pe := ProcessElement(h, e, data, fuel);
    match p.iteration
    case IterationThrows =>
    case Foreach(items) =>
      var r := Iterate(h, p.element, items, fuel);
      assert pe.execs == p.prolog + r.execs;
    case NoIteration =>
      var r := Resolve(h, p.element, p.data, fuel);
      assert pe.execs == p.prolog + r.execs;
  }

  /** An element that stays in place ran its epilog last. */
  lemma EpilogLast(h: Host, e: Element, data: Value, fuel: nat)
    requires e.tag != "template" && AttrEpilog in e.attrs
    ensures var r := ProcessElement(h, e, data, fuel);
      r.outcome.Kept? ==>
        && |r.execs| > 0
        && r.execs[|r.execs| - 1].RunEpilog?
        && r.execs[|r.execs| - 1].code == e.attrs[AttrEpilog]
  {
    if ProcessElement(h, e, data, fuel).outcome.Kept? {
      KeptViaResolve(h, e, data, fuel);
      var cond := GetCondition(h, e, data);
      var p := Prepare(h, cond.element, data);
      assert AttrEpilog in p.element.attrs && p.element.attrs[AttrEpilog] == e.attrs[AttrEpilog] by {
        DirectiveNames();
      }
      var r := Resolve(h, p.element, p.data, fuel);
      assert (p.prolog + r.execs)[|p.prolog + r.execs| - 1] == r.execs[|r.execs| - 1];
    }
  }

  /** `template-foreach` takes over: the element is never kept in place nor
      replaced by a template; it becomes a fragment of clones, or is removed. */
  lemma IterationReplacesElement(h: Host, e: Element, data: Value, fuel: nat)
    requires e.tag != "template" && AttrForeach in e.attrs
    ensures var o := ProcessElement(h, e, data, fuel).outcome;
      o.Fragment? || o.Removed? || o.Aborted?
  {
    DirectiveNames();
    ProcessElementCases(h, e, data, fuel);
    var cond := GetCondition(h, e, data);
    assert AttrForeach in cond.element.attrs;
  }

  /** An element that stays in place keeps its tag, has lost every consumed
      directive and every `on*` attribute, and gained no attribute. */
  lemma KeptShape(h: Host, e: Element, data: Value, fuel: nat)
    requires e.tag != "template"
    ensures var o := ProcessElement(h, e, data, fuel).outcome;
      o.Kept? ==>
        && o.element.tag == e.tag
        && DirectivesConsumed(o.element)
        && o.element.attrs.Keys <= e.attrs.Keys
  {
    if ProcessElement(h, e, data, fuel).outcome.Kept? {
      KeptViaResolve(h, e, data, fuel);
    }
  }

  /** The directives an element that stays in place still carries
      (`template-mode`, unknown `template-*` names) keep their text. */
  lemma KeptDirectives(h: Host, e: Element, data: Value, fuel: nat)
    requires e.tag != "template"
    ensures var o := ProcessElement(h, e, data, fuel).outcome;
      o.Kept? ==>
        forall n | n in e.attrs && IsDirective(n) && n != AttrIf && n != AttrProlog
                   && n != AttrDataSrc && n != AttrData && n != AttrForeach
                   && n != AttrTemplate && n != AttrTemplateSrc && n != AttrEpilog ::
          n in o.element.attrs && o.element.attrs[n] == e.attrs[n]
  {
    if ProcessElement(h, e, data, fuel).outcome.Kept? {
      KeptViaResolve(h, e, data, fuel);
    }
  }

  /** Every ordinary attribute of an element that stays in place holds its
      text interpolated with the incoming data, not the rebound data. */
  lemma KeptInterpolated(h: Host, e: Element, data: Value, fuel: nat)
    requires e.tag != "template"
    ensures var o := ProcessElement(h, e, data, fuel).outcome;
      o.Kept? ==>
        forall n | n in e.attrs && !IsDirective(n) && !IsHandler(n) ::
          n in o.element.attrs && o.element.attrs[n] == Inject(h.eval, e.attrs[n], data)
  {
    if ProcessElement(h, e, data, fuel).outcome.Kept? {
      KeptViaResolve(h, e, data, fuel);
      var cond := GetCondition(h, e, data);
      var p := Prepare(h, cond.element, data);
      ResolveKeepsOrdinary(h, p.element, p.data, fuel);
      forall n | n in e.attrs && !IsDirective(n) && !IsHandler(n)
        ensures n in cond.element.attrs && cond.element.attrs[n] == e.attrs[n]
      {
        DirectiveNames();
      }
    }
  }

  /** `template-mode` is read, never consumed: it survives processing. */
  lemma ModeStays(h: Host, e: Element, data: Value, fuel: nat)
    requires e.tag != "template" && AttrMode in e.attrs
    ensures var o := ProcessElement(h, e, data, fuel).outcome;
      o.Kept? ==> AttrMode in o.element.attrs && o.element.attrs[AttrMode] == e.attrs[AttrMode]
  {
    KeptDirectives(h, e, data, fuel);
    DirectiveNames();
  }

  /** A `template` id that resolves to nothing does not fall back on
      `template-src`: the URL is neither fetched nor consumed. */
  lemma UnknownTemplateKeepsSource(h: Host, e: Element, data: Value)
    requires AttrTemplate in e.attrs && AttrTemplateSrc in e.attrs
    requires UnknownId(h, Inject(h.eval, e.attrs[AttrTemplate], data))
    ensures var r := GetTemplate(h, e, data);
      && r.value == None
      && AttrTemplateSrc in r.element.attrs
      && r.element.attrs[AttrTemplateSrc] == e.attrs[AttrTemplateSrc]
  {
  }

  /** An element whose `template` id, interpolated against the rebound
      data, names no element falls through to its children, keeps its
      `template-src`, and is never replaced. */
  lemma UnknownTemplateFallsThrough(h: Host, e: Element, data: Value, fuel: nat)
    requires e.tag != "template"
    requires AttrTemplate in e.attrs && AttrTemplateSrc in e.attrs && AttrForeach !in e.attrs
    requires UnknownId(h, Inject(h.eval, e.attrs[AttrTemplate], GetData(h, e, data).value))
    ensures var o := ProcessElement(h, e, data, fuel).outcome;
      && !o.Replaced? && !o.Fragment?
      && (o.Kept? ==> AttrTemplateSrc in o.element.attrs
                      && o.element.attrs[AttrTemplateSrc] == e.attrs[AttrTemplateSrc])
  {
    ProcessElementCases(h, e, data, fuel);
    var cond := GetCondition(h, e, data);
    if cond.value {
      PrepareKeepsTemplate(h, cond.element, data);
      ConditionKeepsData(h, e, data);
      var p := Prepare(h, cond.element, data);
      ResolveFallsThrough(h, p.element, p.data, fuel);
    }
  }

  /** Consuming `template-if` does not change the data that is rebound. */
  lemma ConditionKeepsData(h: Host, e: Element, data: Value)
    ensures Prepare(h, GetCondition(h, e, data).element, data).data == GetData(h, e, data).value
  {
    var c := GetCondition(h, e, data).element;
    PrepareRebinds(h, c, data);
    DirectiveNames();
    GetDataReadsDataAttrs(h, c, e, data);
  }

  /** The steps before `Resolve` leave `template` and `template-src` alone. */
  lemma PrepareKeepsTemplate(h: Host, e: Element, data: Value)
    requires AttrTemplate in e.attrs && AttrTemplateSrc in e.attrs && AttrForeach !in e.attrs
    ensures var p := Prepare(h, e, data);
      && p.iteration.NoIteration?
      && AttrTemplate in p.element.attrs && AttrTemplateSrc in p.element.attrs
      && p.element.attrs[AttrTemplate] == e.attrs[AttrTemplate]
      && p.element.attrs[AttrTemplateSrc] == e.attrs[AttrTemplateSrc]
  {
    DirectiveNames();
  }

  // ---------------------------------------------------------------------
  // Assembly: iterate and create

  /** Assembling is compositional: it works item by item. */
  lemma {:induction false} AssembleConcat(a: seq<Outcome>, b: seq<Outcome>)
    ensures Assemble(a + b) == Assemble(a) + Assemble(b)
    decreases |a|
  {
    if a == [] {
      assert a + b == b;
    } else {
      assert (a + b)[0] == a[0];
      assert (a + b)[1..] == a[1..] + b;
      AssembleConcat(a[1..], b);
      var head := if Survives(a[0]) then Placement(a[0], false) else [];
      assert Assemble(a + b) == head + Assemble(a[1..] + b);
      assert Assemble(a) == head + Assemble(a[1..]);
    }
  }

  /** Null and undefined results leave no trace in the assembled fragment. */
  lemma DropsNonSurvivor(a: seq<Outcome>, o: Outcome, b: seq<Outcome>)
    requires !Survives(o)
    ensures Assemble(a + [o] + b) == Assemble(a + b)
  {
    AssembleConcat(a + [o], b);
    AssembleConcat(a, [o]);
    AssembleConcat(a, b);
    assert Assemble([o]) == [];
  }

  /** When every result is an element, the fragment holds exactly those
      elements, in their original order. */
  lemma {:induction false} AssembleKept(os: seq<Outcome>)
    requires forall i | 0 <= i < |os| :: os[i].Kept?
    ensures Assemble(os) == seq(|os|, i requires 0 <= i < |os| => Elem(os[i].element))
    decreases |os|
  {
    if os != [] {
      AssembleKept(os[1..]);
    }
  }

  /** `Promise.all` over per-item results: the first rejection in index
      order is taken (the source's is the first to settle, see "Concurrency
      of siblings" in the README), otherwise the outcomes and traces are
      collected in index order. */
  function Collect(ps: seq<Processed>): Collected {
    if ps == [] then Collected([], [])
    else if ps[0].outcome.Aborted? then CollectAborted(ps[0].outcome.reason)
    else
      match Collect(ps[1..])
      case CollectAborted(why) => CollectAborted(why)
      case Collected(os, ex) => Collected([ps[0].outcome] + os, ps[0].execs + ex)
  }

  lemma {:induction false} CollectByPosition(ps: seq<Processed>)
    ensures Collect(ps).Collected? <==> forall i | 0 <= i < |ps| :: !ps[i].outcome.Aborted?
    ensures Collect(ps).Collected? ==>
      |Collect(ps).outcomes| == |ps| && forall i | 0 <= i < |ps| :: Collect(ps).outcomes[i] == ps[i].outcome
    decreases |ps|
  {
    if ps != [] {
      CollectByPosition(ps[1..]);
      assert forall i | 1 <= i < |ps| :: ps[1..][i - 1] == ps[i];
    }
  }

  /** Each clone processed with its own item. */
  function CloneRuns(h: Host, e: Element, items: seq<Value>, fuel: nat): (ps: seq<Processed>)
    ensures |ps| == |items| && forall i | 0 <= i < |items| :: ps[i] == ProcessElement(h, e, items[i], fuel)
  {
    seq(|items|, i requires 0 <= i < |items| => ProcessElement(h, e, items[i], fuel))
  }

  lemma {:induction false} ClonesCollect(h: Host, e: Element, items: seq<Value>, fuel: nat)
    requires AttrForeach !in e.attrs
    ensures Clones(h, e, items, fuel) == Collect(CloneRuns(h, e, items, fuel))
    decreases |items|
  {
    if items != [] {
      var ps := CloneRuns(h, e, items, fuel);
      assert ps[1..] == CloneRuns(h, e, items[1..], fuel);
      ClonesCollect(h, e, items[1..], fuel);
    }
  }

  /** Clone i is processed with item i; the fan-out rejects exactly when one
      of the clones does. */
  lemma ClonesInItemOrder(h: Host, e: Element, items: seq<Value>, fuel: nat)
    requires AttrForeach !in e.attrs
    ensures var c := Clones(h, e, items, fuel);
      c.Collected? <==> forall i | 0 <= i < |items| :: !ProcessElement(h, e, items[i], fuel).outcome.Aborted?
    ensures var c := Clones(h, e, items, fuel);
      c.Collected? ==> forall i | 0 <= i < |items| :: c.outcomes[i] == ProcessElement(h, e, items[i], fuel).outcome
  {
    ClonesCollect(h, e, items, fuel);
    CollectByPosition(CloneRuns(h, e, items, fuel));
  }

  /** Each template root processed one level deeper. */
  function RootRuns(h: Host, roots: seq<Element>, data: Value, fuel: nat): (ps: seq<Processed>)
    requires fuel > 0
    ensures |ps| == |roots| && forall i | 0 <= i < |roots| :: ps[i] == ProcessElement(h, roots[i], data, fuel - 1)
  {
    seq(|roots|, i requires 0 <= i < |roots| => ProcessElement(h, roots[i], data, fuel - 1))
  }

  lemma {:induction false} RootsCollect(h: Host, roots: seq<Element>, data: Value, fuel: nat)
    requires fuel > 0
    ensures Roots(h, roots, data, fuel) == Collect(RootRuns(h, roots, data, fuel))
    decreases |roots|
  {
    if roots != [] {
      var ps := RootRuns(h, roots, data, fuel);
      assert ps[1..] == RootRuns(h, roots[1..], data, fuel);
      RootsCollect(h, roots[1..], data, fuel);
    }
  }

  /** Root i of the template content is processed one level deeper; the
      roots reject exactly when one of them does. */
  lemma RootsInOrder(h: Host, roots: seq<Element>, data: Value, fuel: nat)
    requires fuel > 0
    ensures var c := Roots(h, roots, data, fuel);
      c.Collected? <==> forall i | 0 <= i < |roots| :: !ProcessElement(h, roots[i], data, fuel - 1).outcome.Aborted?
    ensures var c := Roots(h, roots, data, fuel);
      c.Collected? ==> forall i | 0 <= i < |roots| :: c.outcomes[i] == ProcessElement(h, roots[i], data, fuel - 1).outcome
  {
    RootsCollect(h, roots, data, fuel);
    CollectByPosition(RootRuns(h, roots, data, fuel));
  }

  /** An empty iterable removes the element and runs nothing. */
  lemma IterateEmpty(h: Host, e: Element, fuel: nat)
    requires AttrForeach !in e.attrs
    ensures Iterate(h, e, [], fuel) == Processed(Removed, [])
  {
  }

  /** When every clone stays an element, the fragment holds the clones in
      item order, clone i processed with item i. */
  lemma IterateInItemOrder(h: Host, e: Element, items: seq<Value>, fuel: nat)
    requires AttrForeach !in e.attrs && |items| > 0
    requires forall i | 0 <= i < |items| :: ProcessElement(h, e, items[i], fuel).outcome.Kept?
    ensures Iterate(h, e, items, fuel).outcome ==
      Fragment(seq(|items|, i requires 0 <= i < |items| => Elem(ProcessElement(h, e, items[i], fuel).outcome.element)))
  {
    var ps := CloneRuns(h, e, items, fuel);
    ClonesCollect(h, e, items, fuel);
    CollectByPosition(ps);
    var os := Collect(ps).outcomes;
    assert forall i | 0 <= i < |os| :: os[i] == ps[i].outcome && os[i].Kept?;
    AssembleKept(os);
    assert Survives(os[0]);
    assert Assemble(os) ==
      seq(|items|, i requires 0 <= i < |items| => Elem(ProcessElement(h, e, items[i], fuel).outcome.element));
  }

  /** When no clone survives (each was removed or replaced), the element
      is simply removed. */
  lemma IterateNoSurvivor(h: Host, e: Element, items: seq<Value>, fuel: nat)
    requires AttrForeach !in e.attrs
    requires forall i | 0 <= i < |items| ::
      var o := ProcessElement(h, e, items[i], fuel).outcome; o.Removed? || o.Replaced?
    ensures Iterate(h, e, items, fuel).outcome == Removed
  {
    ClonesInItemOrder(h, e, items, fuel);
  }

  /** When every root of the content stays an element, `create` yields the
      processed roots in template order. */
  lemma CreateInTemplateOrder(h: Host, t: Element, data: Value, fuel: nat)
    requires t.tag == "template" && fuel > 0
    requires forall i | 0 <= i < |ElementChildren(t.children)| ::
      ProcessElement(h, ElementChildren(t.children)[i], data, fuel - 1).outcome.Kept?
    ensures var roots := ElementChildren(t.children);
      Create(h, t, data, fuel).Built? &&
      Create(h, t, data, fuel).nodes ==
        seq(|roots|, i requires 0 <= i < |roots| => Elem(ProcessElement(h, roots[i], data, fuel - 1).outcome.element))
  {
    var roots := ElementChildren(t.children);
    RootsInOrder(h, roots, data, fuel);
    var c := Roots(h, roots, data, fuel);
    assert c.Collected?;
    AssembleKept(c.outcomes);
  }

  /** Only the element children of the content are roots: text and comments
      at the top of a template never reach the fragment. */
  lemma CreateIgnoresTopText(h: Host, t: Element, data: Value, fuel: nat, s: string)
    requires t.tag == "template"
    ensures Create(h, t.(children := [Text(s)] + t.children), data, fuel) == Create(h, t, data, fuel)
    ensures Create(h, t.(children := [Comment(s)] + t.children), data, fuel) == Create(h, t, data, fuel)
  {
    assert ([Text(s)] + t.children)[1..] == t.children;
    assert ([Comment(s)] + t.children)[1..] == t.children;
  }

  // ---------------------------------------------------------------------
  // The child walk

  /** Each kind of child: text is interpolated, a comment disappears, an
      element that is kept stands in its place with its trace, any other
      node stays as it is. */
  lemma ChildKinds(h: Host, n: Node, data: Value, fuel: nat)
    ensures n.Text? ==> ProcessChildNodes(h, [n], data, fuel) == Built([Text(Inject(h.eval, n.text, data))], [])
    ensures n.Comment? ==> ProcessChildNodes(h, [n], data, fuel) == Built([], [])
    ensures n.Other? ==> ProcessChildNodes(h, [n], data, fuel) == Built([n], [])
    ensures n.Elem? && ProcessElement(h, n.element, data, fuel).outcome.Kept? ==>
      var p := ProcessElement(h, n.element, data, fuel);
      ProcessChildNodes(h, [n], data, fuel) == Built([Elem(p.outcome.element)], p.execs)
  {
    UnfoldChildren(h, [n], data, fuel);
    assert [n][1..] == [];
  }

  /** One step of the child walk. */
  lemma UnfoldChildren(h: Host, ns: seq<Node>, data: Value, fuel: nat)
    requires ns != []
    ensures var first := ProcessChild(h, ns[0], data, fuel);
      var rest := ProcessChildNodes(h, ns[1..], data, fuel);
      ProcessChildNodes(h, ns, data, fuel) ==
        if first.BuildAborted? then first
        else if rest.BuildAborted? then rest
        else Built(first.nodes + rest.nodes, first.execs + rest.execs)
  {
  }

  /** Two walk results one after the other: the first rejection in index
      order is taken, otherwise nodes and traces are concatenated. */
  function Join(x: Built, y: Built): Built {
    if x.BuildAborted? then x
    else if y.BuildAborted? then y
    else Built(x.nodes + y.nodes, x.execs + y.execs)
  }

  lemma JoinAssoc(x: Built, y: Built, z: Built)
    ensures Join(x, Join(y, z)) == Join(Join(x, y), z)
  {
    if x.Built? && y.Built? && z.Built? {
      assert x.nodes + (y.nodes + z.nodes) == (x.nodes + y.nodes) + z.nodes;
      assert x.execs + (y.execs + z.execs) == (x.execs + y.execs) + z.execs;
    }
  }

  lemma {:induction false} ChildNodesJoin(h: Host, a: seq<Node>, b: seq<Node>, data: Value, fuel: nat)
    ensures ProcessChildNodes(h, a + b, data, fuel)
      == Join(ProcessChildNodes(h, a, data, fuel), ProcessChildNodes(h, b, data, fuel))
    decreases |a|
  {
    var rb := ProcessChildNodes(h, b, data, fuel);
    if a == [] {
      assert a + b == b;
      assert ProcessChildNodes(h, a, data, fuel) == Built([], []);
      assert rb.Built? ==> [] + rb.nodes == rb.nodes && [] + rb.execs == rb.execs;
    } else {
      assert (a + b)[0] == a[0];
      assert (a + b)[1..] == a[1..] + b;
      var first := ProcessChild(h, a[0], data, fuel);
      var rest := ProcessChildNodes(h, a[1..], data, fuel);
      UnfoldChildren(h, a, data, fuel);
      UnfoldChildren(h, a + b, data, fuel);
      ChildNodesJoin(h, a[1..], b, data, fuel);
      JoinAssoc(first, rest, rb);
    }
  }

  /** The child walk is compositional: consecutive runs of children are
      processed independently and their results concatenated; the walk
      rejects when either run does. */
  lemma ChildNodesConcat(h: Host, a: seq<Node>, b: seq<Node>, data: Value, fuel: nat)
    ensures var r := ProcessChildNodes(h, a + b, data, fuel);
      r.Built? <==> ProcessChildNodes(h, a, data, fuel).Built? && ProcessChildNodes(h, b, data, fuel).Built?
    ensures var ra := ProcessChildNodes(h, a, data, fuel);
      var rb := ProcessChildNodes(h, b, data, fuel);
      ra.Built? && rb.Built? ==>
        ProcessChildNodes(h, a + b, data, fuel) == Built(ra.nodes + rb.nodes, ra.execs + rb.execs)
  {
    ChildNodesJoin(h, a, b, data, fuel);
  }

  /** Text in which no position starts a marker, or a node that is neither
      text, comment nor element. */
  predicate Plain(n: Node) {
    && (n.Text? || n.Other?)
    && (n.Text? ==> forall k | 0 <= k <= |n.text| :: !StartsWithMarker(n.text[k..]))
  }

  lemma PlainChildUnchanged(h: Host, n: Node, data: Value, fuel: nat)
    requires Plain(n)
    ensures ProcessChild(h, n, data, fuel) == Built([n], [])
  {
    if n.Text? {
      InjectNoMarker(h.eval, n.text, data);
    }
  }

  /** Text without markers, and nodes that are neither text, comment nor
      element, come through the walk unchanged. */
  lemma {:induction false} PlainChildrenUnchanged(h: Host, ns: seq<Node>, data: Value, fuel: nat)
    requires forall i | 0 <= i < |ns| :: Plain(ns[i])
    ensures ProcessChildNodes(h, ns, data, fuel) == Built(ns, [])
    decreases |ns|
  {
    if ns != [] {
      PlainChildUnchanged(h, ns[0], data, fuel);
      assert forall i | 1 <= i < |ns| :: ns[1..][i - 1] == ns[i];
      PlainChildrenUnchanged(h, ns[1..], data, fuel);
      assert [ns[0]] + ns[1..] == ns;
    }
  }

  // ---------------------------------------------------------------------
  // Placement modes

  /** `fill` forgets what the element held: its previous content has no
      influence on the result. */
  lemma FillForgetsContent(h: Host, target: Element, t: Element, data: Value, fuel: nat, content: seq<Node>)
    ensures FillMode(h, target.(children := content), t, data, fuel) == FillMode(h, target, t, data, fuel)
  {
  }

  /** Filling twice with the same template and data is filling once. */
  lemma FillIdempotent(h: Host, target: Element, t: Element, data: Value, fuel: nat)
    ensures var once := FillMode(h, target, t, data, fuel);
      once.outcome.Kept? ==> FillMode(h, once.outcome.element, t, data, fuel) == once
  {
  }

  /** `append` keeps the content: appending twice leaves the fragment twice
      after the original children. */
  lemma AppendTwice(h: Host, target: Element, t: Element, data: Value, fuel: nat)
    ensures var once := AppendMode(h, target, t, data, fuel);
      once.outcome.Kept? ==>
        AppendMode(h, once.outcome.element, t, data, fuel).outcome.element.children
          == target.children + Create(h, t, data, fuel).nodes + Create(h, t, data, fuel).nodes
  {
  }

  /** On an empty element, `fill` and `append` agree. */
  lemma FillIsAppendOnEmpty(h: Host, target: Element, t: Element, data: Value, fuel: nat)
    requires target.children == []
    ensures FillMode(h, target, t, data, fuel) == AppendMode(h, target, t, data, fuel)
  {
    match Create(h, t, data, fuel)
    case BuildAborted(_) =>
    case Built(ns, _) => assert target.children + ns == ns;
  }

  /** `replace` loses the element entirely, attributes included: the result
      does not depend on the target at all. */
  lemma ReplaceForgetsTarget(h: Host, a: Element, b: Element, t: Element, data: Value, fuel: nat)
    ensures ReplaceMode(h, a, t, data, fuel) == ReplaceMode(h, b, t, data, fuel)
  {
  }

  /** A template that is not a `<template>` element has no content, so
      applying it rejects whatever the mode. */
  lemma NonTemplateRejects(h: Host, m: Mode, target: Element, t: Element, data: Value, fuel: nat)
    requires t.tag != "template"
    ensures Apply(h, m, target, t, data, fuel).outcome == Aborted(Threw)
  {
  }
}
