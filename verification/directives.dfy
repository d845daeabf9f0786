/** The directive accessors of test/htdocs/modules/template.js: each reads,
    and except for the mode consumes, one `template-*` attribute of an
    element and yields a typed result. */
module Directives {
  import opened Js
  import opened Dom
  import opened Interpolation

  /** What the engine takes from its environment. Fetching is reduced to its
      outcome: `None` when the response is not ok. */
  datatype Host = Host(
    eval: Evaluator,                          // `new Function('data', 'app', 'return ' + e)` applied to data
    fetchJson: string -> Option<Value>,       // `fetch(url)` then `response.json()`
    fetchMarkup: string -> Option<seq<Node>>, // `fetch(url)` then the parsed text of the response
    byId: map<string, Element>)               // `document.getElementById`

  const AttrIf := "template-if"
  const AttrDataSrc := "template-data-src"
  const AttrData := "template-data"
  const AttrForeach := "template-foreach"
  const AttrTemplate := "template"
  const AttrTemplateSrc := "template-src"
  const AttrMode := "template-mode"
  const AttrProlog := "template-prolog"
  const AttrEpilog := "template-epilog"

  /** The directive names are directives, and all distinct. */
  lemma DirectiveNames()
    ensures IsDirective(AttrIf) && IsDirective(AttrDataSrc) && IsDirective(AttrData) && IsDirective(AttrForeach)
    ensures IsDirective(AttrTemplate) && IsDirective(AttrTemplateSrc) && IsDirective(AttrMode)
    ensures IsDirective(AttrProlog) && IsDirective(AttrEpilog)
    ensures AttrIf != AttrDataSrc && AttrIf != AttrData && AttrIf != AttrForeach && AttrIf != AttrTemplate
    ensures AttrIf != AttrTemplateSrc && AttrIf != AttrMode && AttrIf != AttrProlog && AttrIf != AttrEpilog
    ensures AttrDataSrc != AttrData && AttrDataSrc != AttrForeach && AttrDataSrc != AttrTemplate
    ensures AttrDataSrc != AttrTemplateSrc && AttrDataSrc != AttrMode && AttrDataSrc != AttrProlog && AttrDataSrc != AttrEpilog
    ensures AttrData != AttrForeach && AttrData != AttrTemplate && AttrData != AttrTemplateSrc
    ensures AttrData != AttrMode && AttrData != AttrProlog && AttrData != AttrEpilog
    ensures AttrForeach != AttrTemplate && AttrForeach != AttrTemplateSrc && AttrForeach != AttrMode
    ensures AttrForeach != AttrProlog && AttrForeach != AttrEpilog
    ensures AttrTemplate != AttrTemplateSrc && AttrTemplate != AttrMode && AttrTemplate != AttrProlog && AttrTemplate != AttrEpilog
    ensures AttrTemplateSrc != AttrMode && AttrTemplateSrc != AttrProlog && AttrTemplateSrc != AttrEpilog
    ensures AttrMode != AttrProlog && AttrMode != AttrEpilog && AttrProlog != AttrEpilog
  {
  }

  /** Attributes exempt from interpolation: `template` and `template-*`. */
  predicate IsDirective(name: string) {
    name == AttrTemplate || StartsWith(name, "template-")
  }

  /** Attributes that `processAttributes` turns into event handlers. */
  predicate IsHandler(name: string) {
    StartsWith(name, "on")
  }

  /** No directive is taken for an event handler. */
  lemma DirectiveNotHandler(name: string)
    requires IsDirective(name)
    ensures !IsHandler(name)
  {
    assert name[0] == 't';
  }

  /** An attribute step that touches nothing but attributes. */
  predicate AttrsOnly(before: Element, after: Element) {
    && after.tag == before.tag
    && after.children == before.children
    && after.attrs.Keys <= before.attrs.Keys
  }

  /** `after` has lost `name` and kept every other attribute as it was. */
  predicate Without(before: Element, after: Element, name: string) {
    && AttrsOnly(before, after)
    && name !in after.attrs
    && forall n | n in before.attrs && n != name :: n in after.attrs && after.attrs[n] == before.attrs[n]
  }

  // ---------------------------------------------------------------------
  // template-if

  /** `getCondition`: an absent `template-if` holds; otherwise the attribute
      is consumed and its expression's truthiness decides, so an expression
      that fails (null) is false. */
  function GetCondition(h: Host, e: Element, data: Value): (r: Step<bool>)
    ensures AttrIf !in e.attrs ==> r == Step(e, true)
    ensures AttrIf in e.attrs ==> Without(e, r.element, AttrIf)
    ensures AttrIf in e.attrs ==> (r.value <==> Truthy(Evaluate(h.eval, e.attrs[AttrIf], data)))
    ensures AttrIf in e.attrs && h.eval(e.attrs[AttrIf], data).None? ==> !r.value
  {
    var c := Consume(e, AttrIf);
    match c.value
    case None => Step(e, true)
    case Some(expr) => Step(c.element, Truthy(Evaluate(h.eval, expr, data)))
  }

  // ---------------------------------------------------------------------
  // template-mode

  datatype Mode = Fill | Replace | Append

  function ModeName(m: Mode): string {
    match m
    case Fill => "fill"
    case Replace => "replace"
    case Append => "append"
  }

  /** `switch (mode.toLowerCase())`: unknown names fall back to append. */
  function ParseMode(s: string): (m: Mode)
    ensures m != Append ==> Lower(s) == ModeName(m)
    ensures forall k :: Lower(s) == ModeName(k) ==> m == k
    ensures forall k | k != Append :: m == k <==> Lower(s) == ModeName(k)
    ensures (forall k :: Lower(s) != ModeName(k)) ==> m == Append
  {
    var l := Lower(s);
    if l == "fill" then Fill
    else if l == "replace" then Replace
    else Append
  }

  /** Mode names are recognised whatever their case. */
  lemma ParseModeAnyCase(m: Mode)
    ensures ParseMode(ModeName(m)) == m
    ensures ParseMode(Upper(ModeName(m))) == m
  {
    var n := ModeName(m);
    assert Lower(n) == n;
    assert Lower(Upper(n)) == n;
  }

  /** The mode does not depend on the case of its text. */
  lemma ParseModeIgnoresCase(s: string)
    ensures ParseMode(Upper(s)) == ParseMode(s)
    ensures ParseMode(Lower(s)) == ParseMode(s)
  {
    assert Lower(Upper(s)) == Lower(s) by {
      forall i | 0 <= i < |s| ensures LowerChar(UpperChar(s[i])) == LowerChar(s[i]) { }
    }
    assert Lower(Lower(s)) == Lower(s);
  }

  /** `getMode`: the attribute is interpolated with its own text as `data`
      and is read, never removed, so this step returns no element. */
  function GetMode(h: Host, e: Element): (m: Mode)
    ensures AttrMode !in e.attrs ==> m == Append
    ensures AttrMode in e.attrs ==>
      m == ParseMode(Inject(h.eval, e.attrs[AttrMode], Str(e.attrs[AttrMode])))
  {
    if AttrMode in e.attrs then
      var text := e.attrs[AttrMode];
      ParseMode(Inject(h.eval, text, Str(text)))
    else Append
  }

  // ---------------------------------------------------------------------
  // template-data-src, template-data

  /** The value `fetch(url)` yields as JSON; a response that is not ok gives null. */
  function FetchedData(h: Host, url: string): (v: Value)
    ensures h.fetchJson(url).None? ==> v == Null
    ensures h.fetchJson(url).Some? ==> v == h.fetchJson(url).value
  {
    match h.fetchJson(url)
    case None => Null
    case Some(v) => v
  }

  /** `getData`: `template-data-src` (URL interpolated against the current
      data) replaces the data by the fetched JSON, then `template-data`
      evaluates against whatever data is bound by then. */
  function GetData(h: Host, e: Element, data: Value): (r: Step<Value>)
    ensures AttrsOnly(e, r.element)
    ensures AttrDataSrc !in r.element.attrs && AttrData !in r.element.attrs
    ensures forall n | n in e.attrs && n != AttrDataSrc && n != AttrData ::
      n in r.element.attrs && r.element.attrs[n] == e.attrs[n]
    ensures AttrDataSrc !in e.attrs && AttrData !in e.attrs ==> r == Step(e, data)
    ensures AttrDataSrc in e.attrs && AttrData !in e.attrs ==>
      r.value == FetchedData(h, Inject(h.eval, e.attrs[AttrDataSrc], data))
    ensures AttrDataSrc !in e.attrs && AttrData in e.attrs ==>
      r.value == Evaluate(h.eval, e.attrs[AttrData], data)
    ensures AttrDataSrc in e.attrs && AttrData in e.attrs ==>
      r.value == Evaluate(h.eval, e.attrs[AttrData],
                          FetchedData(h, Inject(h.eval, e.attrs[AttrDataSrc], data)))
  {
    var src := Consume(e, AttrDataSrc);
    var fetched := match src.value
      case None => data
      case Some(url) => FetchedData(h, Inject(h.eval, url, data));
    var expr := Consume(src.element, AttrData);
    match expr.value
    case None => Step(expr.element, fetched)
    case Some(x) => Step(expr.element, Evaluate(h.eval, x, fetched))
  }

  // ---------------------------------------------------------------------
  // template-foreach

  datatype Iteration = NoIteration | Foreach(items: seq<Value>) | IterationThrows

  /** The items of an evaluated `template-foreach` expression: an array or an
      object implementing the iteration protocol gives its items; a value
      whose `typeof` is not "object" gives none; null makes the test
      `Symbol.iterator in iterable` throw. */
  function IterableItems(v: Value): (r: Completion<seq<Value>>)
    ensures r.Throws? <==> v == Null
    ensures v.Arr? ==> r == Normal(v.items)
    ensures v.Obj? ==> r == Normal(if v.iteration.Some? then v.iteration.value else [])
    ensures TypeOf(v) != "object" ==> r == Normal([])
  {
    match v
    case Null => Throws
    case Arr(items) => Normal(items)
    case Obj(_, iteration) =>
      (match iteration
       case Some(items) => Normal(items)
       case None => Normal([]))
    case _ => Normal([])
  }

  /** `getIterable`: no `template-foreach` means "not an iterator";
      otherwise the attribute is consumed and its evaluation's items are
      returned. */
  function GetIterable(h: Host, e: Element, data: Value): (r: Step<Iteration>)
    ensures AttrForeach !in e.attrs ==> r == Step(e, NoIteration)
    ensures AttrForeach in e.attrs ==> Without(e, r.element, AttrForeach) && !r.value.NoIteration?
    ensures AttrForeach in e.attrs ==>
      (r.value.IterationThrows? <==> Evaluate(h.eval, e.attrs[AttrForeach], data) == Null)
    ensures AttrForeach in e.attrs && !r.value.IterationThrows? ==>
      r.value == Foreach(IterableItems(Evaluate(h.eval, e.attrs[AttrForeach], data)).value)
    ensures AttrsOnly(e, r.element) && AttrForeach !in r.element.attrs
  {
    var c := Consume(e, AttrForeach);
    match c.value
    case None => Step(e, NoIteration)
    case Some(expr) =>
      match IterableItems(Evaluate(h.eval, expr, data))
      case Throws => Step(c.element, IterationThrows)
      case Normal(items) => Step(c.element, Foreach(items))
  }

  // ---------------------------------------------------------------------
  // template, template-src

  /** The template `fetchTemplate(url)` builds: a new `<template>` whose
      content is the response's markup, empty when the response is not ok. */
  function FetchedTemplate(h: Host, url: string): (t: Element)
    ensures t.tag == "template" && t.attrs == map[]
    ensures h.fetchMarkup(url).None? ==> t.children == []
    ensures h.fetchMarkup(url).Some? ==> t.children == h.fetchMarkup(url).value
  {
    var content := match h.fetchMarkup(url)
      case None => []
      case Some(ns) => ns;
    Element("template", map[], content)
  }

  /** `getTemplate`: `template` names an element by an interpolated id; when
      no such element exists the result is none, and `template-src` is
      neither tried nor consumed. Without `template`, `template-src` gives
      the template fetched from its interpolated URL. */
  function GetTemplate(h: Host, e: Element, data: Value): (r: Step<Option<Element>>)
    ensures AttrsOnly(e, r.element)
    ensures AttrTemplate in e.attrs ==> Without(e, r.element, AttrTemplate)
    ensures AttrTemplate in e.attrs ==>
      var id := Inject(h.eval, e.attrs[AttrTemplate], data);
      r.value == (if id != "" && id in h.byId then Some(h.byId[id]) else None)
    ensures AttrTemplate !in e.attrs && AttrTemplateSrc in e.attrs ==>
      Without(e, r.element, AttrTemplateSrc)
      && r.value == Some(FetchedTemplate(h, Inject(h.eval, e.attrs[AttrTemplateSrc], data)))
    ensures AttrTemplate !in e.attrs && AttrTemplateSrc !in e.attrs ==> r == Step(e, None)
  {
    if AttrTemplate in e.attrs then
      var c := Consume(e, AttrTemplate);
      var id := Inject(h.eval, c.value.value, data);
      Step(c.element, if id != "" && id in h.byId then Some(h.byId[id]) else None)
    else if AttrTemplateSrc in e.attrs then
      var c := Consume(e, AttrTemplateSrc);
      Step(c.element, Some(FetchedTemplate(h, Inject(h.eval, c.value.value, data))))
    else Step(e, None)
  }

  // ---------------------------------------------------------------------
  // Attributes, prolog and epilog

  /** `processAttributes`: an `on*` attribute is removed (it becomes an event
      handler property, not modelled); `template` and `template-*` keep
      their text; every other attribute is interpolated. */
  function ProcessAttributes(h: Host, e: Element, data: Value): (r: Element)
    ensures AttrsOnly(e, r)
    ensures forall n :: n in r.attrs <==> n in e.attrs && !IsHandler(n)
    ensures forall n | n in r.attrs && IsDirective(n) :: r.attrs[n] == e.attrs[n]
    ensures forall n | n in r.attrs && !IsDirective(n) :: r.attrs[n] == Inject(h.eval, e.attrs[n], data)
  {
    var attrs := map n | n in e.attrs && !IsHandler(n) ::
      if IsDirective(n) then e.attrs[n] else Inject(h.eval, e.attrs[n], data);
    e.(attrs := attrs)
  }

  /** A call of `exec(element, code, data)`. What the code does is outside
      the model; the trace records that it ran, on which data. */
  datatype Exec = RunProlog(code: string, data: Value) | RunEpilog(code: string, data: Value)

  /** `executeProlog`: consumes `template-prolog` and runs it. */
  function ExecuteProlog(e: Element, data: Value): (r: Step<seq<Exec>>)
    ensures AttrProlog !in e.attrs ==> r == Step(e, [])
    ensures AttrProlog in e.attrs ==>
      Without(e, r.element, AttrProlog) && r.value == [RunProlog(e.attrs[AttrProlog], data)]
  {
    var c := Consume(e, AttrProlog);
    match c.value
    case None => Step(e, [])
    case Some(code) => Step(c.element, [RunProlog(code, data)])
  }

  /** `executeEpilog`: consumes `template-epilog` and runs it. */
  function ExecuteEpilog(e: Element, data: Value): (r: Step<seq<Exec>>)
    ensures AttrEpilog !in e.attrs ==> r == Step(e, [])
    ensures AttrEpilog in e.attrs ==>
      Without(e, r.element, AttrEpilog) && r.value == [RunEpilog(e.attrs[AttrEpilog], data)]
  {
    var c := Consume(e, AttrEpilog);
    match c.value
    case None => Step(e, [])
    case Some(code) => Step(c.element, [RunEpilog(code, data)])
  }

  // ---------------------------------------------------------------------
  // The preparatory steps of processElement

  /** Step 3 of `processElement` up to data rebinding: the prolog runs on
      the incoming data, then the attributes are interpolated with it. */
  function Introduce(h: Host, e: Element, data: Value): (r: Step<seq<Exec>>)
    ensures AttrsOnly(e, r.element)
    ensures AttrProlog !in r.element.attrs
    ensures forall n | n in r.element.attrs :: !IsHandler(n)
    ensures forall n | n in e.attrs && n != AttrProlog && IsDirective(n) ::
      n in r.element.attrs && r.element.attrs[n] == e.attrs[n]
    ensures forall n | n in e.attrs && !IsDirective(n) && !IsHandler(n) ::
      n in r.element.attrs && r.element.attrs[n] == Inject(h.eval, e.attrs[n], data)
    ensures AttrProlog in e.attrs ==> r.value == [RunProlog(e.attrs[AttrProlog], data)]
    ensures AttrProlog !in e.attrs ==> r.value == []
  {
    var pro := ExecuteProlog(e, data);
    assert forall n | n in pro.element.attrs && IsDirective(n) :: !IsHandler(n) by {
      forall n | n in pro.element.attrs && IsDirective(n) { DirectiveNotHandler(n); }
    }
    assert StartsWith(AttrProlog, "template-");
    Step(ProcessAttributes(h, pro.element, data), pro.value)
  }

  /** The rebound data depends only on the two data attributes. */
  lemma GetDataReadsDataAttrs(h: Host, e1: Element, e2: Element, data: Value)
    requires AttrDataSrc in e1.attrs <==> AttrDataSrc in e2.attrs
    requires AttrData in e1.attrs <==> AttrData in e2.attrs
    requires AttrDataSrc in e1.attrs ==> e1.attrs[AttrDataSrc] == e2.attrs[AttrDataSrc]
    requires AttrData in e1.attrs ==> e1.attrs[AttrData] == e2.attrs[AttrData]
    ensures GetData(h, e1, data).value == GetData(h, e2, data).value
  {
  }

  /** Rebinding the data and reading the iterable remove their three
      attributes and keep every other one as it was. */
  lemma RebindKeeps(h: Host, e: Element, data: Value)
    ensures var rebound := GetData(h, e, data);
      var after := GetIterable(h, rebound.element, rebound.value).element;
      && AttrsOnly(e, after)
      && AttrDataSrc !in after.attrs && AttrData !in after.attrs && AttrForeach !in after.attrs
      && forall n | n in e.attrs && n != AttrDataSrc && n != AttrData && n != AttrForeach ::
           n in after.attrs && after.attrs[n] == e.attrs[n]
  {
  }

  /** The element `Prepare` leaves: introduced, rebound, iterable read. */
  function PreparedElement(h: Host, e: Element, data: Value): Element {
    var intro := Introduce(h, e, data).element;
    var rebound := GetData(h, intro, data);
    GetIterable(h, rebound.element, rebound.value).element
  }

  lemma DataDirectives()
    ensures IsDirective(AttrDataSrc) && IsDirective(AttrData) && IsDirective(AttrForeach)
  {
    assert StartsWith(AttrDataSrc, "template-") && StartsWith(AttrData, "template-");
    assert StartsWith(AttrForeach, "template-");
  }

  /** Directives other than the four consumed ones come through unchanged. */
  lemma PreparedDirectives(h: Host, e: Element, data: Value)
    ensures var after := PreparedElement(h, e, data);
      && AttrsOnly(e, after)
      && AttrProlog !in after.attrs && AttrDataSrc !in after.attrs
      && AttrData !in after.attrs && AttrForeach !in after.attrs
      && forall n | n in e.attrs && IsDirective(n) && n != AttrProlog && n != AttrDataSrc
                    && n != AttrData && n != AttrForeach ::
           n in after.attrs && after.attrs[n] == e.attrs[n]
  {
    RebindKeeps(h, Introduce(h, e, data).element, data);
  }

  /** Ordinary attributes are interpolated once; no handler is left. */
  lemma PreparedOrdinary(h: Host, e: Element, data: Value)
    ensures var after := PreparedElement(h, e, data);
      && (forall n | n in after.attrs :: !IsHandler(n))
      && forall n | n in e.attrs && !IsDirective(n) && !IsHandler(n) ::
           n in after.attrs && after.attrs[n] == Inject(h.eval, e.attrs[n], data)
  {
    DataDirectives();
    RebindKeeps(h, Introduce(h, e, data).element, data);
  }

  datatype Prepared = Prepared(element: Element, data: Value, prolog: seq<Exec>, iteration: Iteration)

  /** Steps 3 and 4 of `processElement`: prolog and attributes
      (`Introduce`), then the data is rebound and `template-foreach` is read
      against the rebound data. */
  function Prepare(h: Host, e: Element, data: Value): (r: Prepared)
    ensures AttrsOnly(e, r.element)
    ensures AttrProlog !in r.element.attrs && AttrDataSrc !in r.element.attrs
    ensures AttrData !in r.element.attrs && AttrForeach !in r.element.attrs
    ensures forall n | n in r.element.attrs :: !IsHandler(n)
    ensures forall n | n in e.attrs && IsDirective(n) && n != AttrProlog && n != AttrDataSrc
                       && n != AttrData && n != AttrForeach ::
      n in r.element.attrs && r.element.attrs[n] == e.attrs[n]
    ensures forall n | n in e.attrs && !IsDirective(n) && !IsHandler(n) ::
      n in r.element.attrs && r.element.attrs[n] == Inject(h.eval, e.attrs[n], data)
    ensures r.iteration.NoIteration? <==> AttrForeach !in e.attrs
    ensures AttrProlog in e.attrs ==> r.prolog == [RunProlog(e.attrs[AttrProlog], data)]
    ensures AttrProlog !in e.attrs ==> r.prolog == []
  {
    var intro := Introduce(h, e, data);
    var rebound := GetData(h, intro.element, data);
    var it := GetIterable(h, rebound.element, rebound.value);
    PreparedDirectives(h, e, data);
    PreparedOrdinary(h, e, data);
    Prepared(it.element, rebound.value, intro.value, it.value)
  }

  /** Introducing an element keeps every directive other than the prolog. */
  lemma IntroduceKeeps(h: Host, e: Element, data: Value, n: string)
    requires IsDirective(n) && n != AttrProlog
    ensures var i := Introduce(h, e, data).element;
      (n in i.attrs <==> n in e.attrs) && (n in e.attrs ==> i.attrs[n] == e.attrs[n])
  {
  }

  /** `Prepare` unfolded: data rebinding on the introduced element, then
      the iterable of the rebound element. */
  lemma PrepareSteps(h: Host, e: Element, data: Value)
    ensures var rebound := GetData(h, Introduce(h, e, data).element, data);
      && Prepare(h, e, data).data == rebound.value
      && Prepare(h, e, data).iteration == GetIterable(h, rebound.element, rebound.value).value
  {
  }

  lemma PrepareData(h: Host, e: Element, data: Value)
    ensures Prepare(h, e, data).data == GetData(h, e, data).value
  {
    PrepareSteps(h, e, data);
    DirectiveNames();
    IntroduceKeeps(h, e, data, AttrDataSrc);
    IntroduceKeeps(h, e, data, AttrData);
    GetDataReadsDataAttrs(h, Introduce(h, e, data).element, e, data);
  }

  lemma PrepareIterable(h: Host, e: Element, data: Value)
    requires AttrForeach in e.attrs
    ensures var rebound := GetData(h, Introduce(h, e, data).element, data);
      && AttrForeach in rebound.element.attrs
      && rebound.element.attrs[AttrForeach] == e.attrs[AttrForeach]
  {
    DirectiveNames();
    IntroduceKeeps(h, e, data, AttrForeach);
  }

  /** What `Prepare` binds: the data `getData` computes from the element's
      own data attributes (interpolating the other attributes first does
      not touch them), and the items of `template-foreach` evaluated against
      that rebound data. */
  lemma PrepareRebinds(h: Host, e: Element, data: Value)
    ensures Prepare(h, e, data).data == GetData(h, e, data).value
    ensures AttrForeach in e.attrs ==>
      var v := Evaluate(h.eval, e.attrs[AttrForeach], Prepare(h, e, data).data);
      Prepare(h, e, data).iteration == (if v == Null then IterationThrows else Foreach(IterableItems(v).value))
  {
    PrepareSteps(h, e, data);
    PrepareData(h, e, data);
    if AttrForeach in e.attrs {
      PrepareIterable(h, e, data);
    }
  }
}
