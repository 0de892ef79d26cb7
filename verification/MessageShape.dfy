/**
The cap on the elements and attributes of a parsed protocol message: a walk with a stack that
gives up as soon as it has seen too many.
*/
module MessageShape {

  const MAX_MESSAGE_ELEMENTS := 200
  const MAX_MESSAGE_ATTRIBUTES := 1000

  /** A node of the parsed document; text, comments and the like are `Other`. */
  datatype Node = Element(attributes: nat, children: seq<Node>) | Other

  function Elements(n: Node): nat
    decreases n
  {
    if n.Element? then 1 + AllElements(n.children) else 0
  }

  function AllElements(ns: seq<Node>): nat
    decreases ns
  {
    if ns == [] then 0 else Elements(ns[0]) + AllElements(ns[1..])
  }

  function Attributes(n: Node): nat
    decreases n
  {
    if n.Element? then n.attributes + AllAttributes(n.children) else 0
  }

  function AllAttributes(ns: seq<Node>): nat
    decreases ns
  {
    if ns == [] then 0 else Attributes(ns[0]) + AllAttributes(ns[1..])
  }

  lemma {:induction false} CountConcat(a: seq<Node>, b: seq<Node>)
    ensures AllElements(a + b) == AllElements(a) + AllElements(b)
    ensures AllAttributes(a + b) == AllAttributes(a) + AllAttributes(b)
    decreases |a|
  {
    if a == [] {
      assert a + b == b;
    } else {
      assert (a + b)[1..] == a[1..] + b;
      CountConcat(a[1..], b);
    }
  }

  lemma CountOne(n: Node)
    ensures AllElements([n]) == Elements(n) && AllAttributes([n]) == Attributes(n)
  {
    assert [n][1..] == [];
  }

  lemma CountLast(ns: seq<Node>, n: nat)
    requires n < |ns|
    ensures AllElements(ns[..n + 1]) == AllElements(ns[..n]) + Elements(ns[n])
    ensures AllAttributes(ns[..n + 1]) == AllAttributes(ns[..n]) + Attributes(ns[n])
  {
    assert ns[..n + 1] == ns[..n] + [ns[n]];
    CountConcat(ns[..n], [ns[n]]);
    CountOne(ns[n]);
  }

  ghost predicate OnlyElements(ns: seq<Node>) { forall i :: 0 <= i < |ns| ==> ns[i].Element? }

  method PushChildren(stack: seq<Node>, children: seq<Node>) returns (r: seq<Node>)
    requires OnlyElements(stack)
    ensures OnlyElements(r)
    ensures AllElements(r) == AllElements(stack) + AllElements(children)
    ensures AllAttributes(r) == AllAttributes(stack) + AllAttributes(children)
  {
    r := stack;
    for n := 0 to |children|
      invariant OnlyElements(r)
      invariant AllElements(r) == AllElements(stack) + AllElements(children[..n])
      invariant AllAttributes(r) == AllAttributes(stack) + AllAttributes(children[..n])
    {
      CountLast(children, n);
      if children[n].Element? {
        CountConcat(r, [children[n]]);
        CountOne(children[n]);
        r := r + [children[n]];
      }
    }
    assert children[..|children|] == children;
  }

  /**
   * Accepts a message exactly when all its elements are at most 200 and all their attributes at
   * most 1000; and looks at 201 elements at the most, however many there are.
   */
  method CheckMessageShape(root: Node) returns (ok: bool, ghost looks: nat)
    requires root.Element?
    ensures ok <==> Elements(root) <= MAX_MESSAGE_ELEMENTS && Attributes(root) <= MAX_MESSAGE_ATTRIBUTES
    ensures looks <= MAX_MESSAGE_ELEMENTS + 1
  {
    var elements, attributes := 0, 0;
    var stack := [root];
    looks := 0;
    CountOne(root);
    while stack != []
      invariant OnlyElements(stack) && looks == elements <= MAX_MESSAGE_ELEMENTS && attributes <= MAX_MESSAGE_ATTRIBUTES
      invariant elements + AllElements(stack) == Elements(root)
      invariant attributes + AllAttributes(stack) == Attributes(root)
      decreases AllElements(stack)
    {
      var top := |stack| - 1;
      var el := stack[top];
      CountLast(stack, top);
      assert stack[..top + 1] == stack;
      stack := stack[..top];
      elements, looks := elements + 1, looks + 1;
      if elements > MAX_MESSAGE_ELEMENTS { return false, looks; }
      attributes := attributes + el.attributes;
      if attributes > MAX_MESSAGE_ATTRIBUTES { return false, looks; }
      stack := PushChildren(stack, el.children);
    }
    ok := true;
  }
}
