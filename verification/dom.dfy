/** An immutable picture of the markup tree the engine rewrites: elements
    with a tag, an attribute map and an ordered child list, plus text,
    comment and other (processing-instruction, CDATA, ...) nodes. */
module Dom {
  import opened Js

  datatype Node =
    | Elem(element: Element)
    | Text(text: string)
    | Comment(text: string)
    | Other(kind: string)

  datatype Element = Element(tag: string, attrs: map<string, string>, children: seq<Node>)

  /** An element after a step that may have consumed some of its attributes,
      together with what the step produced. */
  datatype Step<+T> = Step(element: Element, value: T)

  /** Number of nodes in a forest; it ignores attributes, so steps that only
      touch attributes keep it. */
  function NodesSize(ns: seq<Node>): (n: nat)
    ensures n >= |ns|
    decreases ns
  {
    if ns == [] then 0 else NodeSize(ns[0]) + NodesSize(ns[1..])
  }

  function NodeSize(n: Node): (k: nat)
    ensures k >= 1
    decreases n
  {
    match n
    case Elem(e) => Size(e)
    case _ => 1
  }

  function Size(e: Element): (n: nat)
    ensures n > NodesSize(e.children)
    decreases e
  {
    1 + NodesSize(e.children)
  }

  /** A child element's subtree is strictly smaller than the forest holding it. */
  lemma {:induction false} ChildSmaller(ns: seq<Node>, i: nat)
    requires i < |ns| && ns[i].Elem?
    ensures Size(ns[i].element) <= NodesSize(ns)
    ensures NodesSize(ns[i + 1..]) < NodesSize(ns[i..])
    decreases i
  {
    if i > 0 {
      ChildSmaller(ns[1..], i - 1);
      assert ns[1..][i - 1] == ns[i];
      assert ns[1..][i - 1 + 1..] == ns[i + 1..];
      assert ns[1..][i - 1..] == ns[i..];
    }
  }

  /** `element.getAttribute(name)` followed by `element.removeAttribute(name)`:
      the previous value, or none when the attribute was absent. */
  function Consume(e: Element, name: string): (r: Step<Option<string>>)
    ensures r.value.Some? <==> name in e.attrs
    ensures r.value.Some? ==> r.value.value == e.attrs[name]
    ensures name !in r.element.attrs
    ensures forall n | n in e.attrs && n != name :: n in r.element.attrs && r.element.attrs[n] == e.attrs[n]
    ensures r.element.attrs.Keys <= e.attrs.Keys
    ensures r.element.tag == e.tag && r.element.children == e.children
  {
    var value := if name in e.attrs then Some(e.attrs[name]) else None;
    Step(e.(attrs := e.attrs - {name}), value)
  }

  /** Consuming a present attribute leaves fewer attributes. */
  lemma ConsumeShrinks(e: Element, name: string)
    requires name in e.attrs
    ensures |Consume(e, name).element.attrs.Keys| < |e.attrs.Keys|
  {
    assert Consume(e, name).element.attrs.Keys == e.attrs.Keys - {name};
  }

  /** Writing the consumed value back restores the element exactly. */
  lemma ConsumeRestore(e: Element, name: string)
    requires name in e.attrs
    ensures var r := Consume(e, name); r.element.(attrs := r.element.attrs[name := r.value.value]) == e
  {
    var r := Consume(e, name);
    assert r.element.attrs[name := r.value.value] == e.attrs;
  }

  /** Consuming twice yields nothing the second time and changes nothing more. */
  lemma ConsumeTwice(e: Element, name: string)
    ensures Consume(Consume(e, name).element, name).value == None
    ensures Consume(Consume(e, name).element, name).element == Consume(e, name).element
  {
    var once := Consume(e, name).element;
    assert once.attrs - {name} == once.attrs;
  }

  /** The element children of a node list, in order (`element.children`). */
  function ElementChildren(ns: seq<Node>): (r: seq<Element>)
    ensures |r| <= |ns|
    ensures forall x :: x in r <==> Elem(x) in ns
  {
    if ns == [] then []
    else if ns[0].Elem? then [ns[0].element] + ElementChildren(ns[1..])
    else ElementChildren(ns[1..])
  }

  /** The element children of a concatenation are those of each part, in
      order. */
  lemma {:induction false} ElementChildrenConcat(a: seq<Node>, b: seq<Node>)
    ensures ElementChildren(a + b) == ElementChildren(a) + ElementChildren(b)
    decreases |a|
  {
    if a == [] {
      assert a + b == b;
    } else {
      assert (a + b)[0] == a[0] && (a + b)[1..] == a[1..] + b;
      ElementChildrenConcat(a[1..], b);
    }
  }

  /** A single node contributes itself when it is an element, else nothing. */
  lemma ElementChildrenOne(n: Node)
    ensures ElementChildren([n]) == if n.Elem? then [n.element] else []
  {
    assert [n][1..] == [];
  }

  /** `textContent`: the texts of the text nodes among a child list and its
      descendants, in document order; comments and other nodes add nothing. */
  function TextOf(ns: seq<Node>): string
    decreases NodesSize(ns)
  {
    if ns == [] then ""
    else
      assert NodesSize(ns) == NodeSize(ns[0]) + NodesSize(ns[1..]);
      var head := if ns[0].Text? then ns[0].text
        else if ns[0].Elem? then TextOf(ns[0].element.children)
        else "";
      head + TextOf(ns[1..])
  }

  /** The child list left by assigning `element.innerText = t`: empty text
      removes every child, other text becomes a single text node, so the
      text reads back unchanged and no element child is left. */
  function TextContent(t: string): (r: seq<Node>)
    ensures t == "" <==> r == []
    ensures TextOf(r) == t
    ensures forall n | n in r :: n.Text?
    ensures |r| <= 1
  {
    if t == "" then [] else [Text(t)]
  }
}
