/** Whole trees of linked nodes of c/cjson/cJSON.c, the values they stand for, and how a list of
  * children is built. */
module Trees {
  import opened Basics
  import opened Json
  import opened ChildLists

  /** The nodes of a tree, by their place in it. */
  datatype Shape = Shape(node: Node, kids: seq<Shape>)

  function Roots(kids: seq<Shape>): (r: seq<Node>)
    ensures |r| == |kids|
  {
    seq(|kids|, i requires 0 <= i < |kids| => kids[i].node)
  }

  /** All nodes of some trees. */
  function Under(kids: seq<Shape>): set<Node>
    decreases kids
  {
    if kids == [] then {} else {kids[0].node} + Under(kids[0].kids) + Under(kids[1..])
  }

  /** All nodes of some trees but their roots. */
  function Inner(kids: seq<Shape>): set<Node>
    decreases kids
  {
    if kids == [] then {} else Under(kids[0].kids) + Inner(kids[1..])
  }

  function RootSet(kids: seq<Shape>): set<Node> {
    set n | n in Roots(kids)
  }

  /** The node's children form a well-linked list, and so on downwards, with no node in two places. */
  ghost predicate Tree(sh: Shape)
    reads sh.node`child, Under(sh.kids)
    decreases sh, 1
  {
    && sh.node !in Under(sh.kids)
    && (RootsInside(sh.kids); IsList(sh.node.child, Roots(sh.kids)))
    && Forest(sh.kids)
  }

  /** Separate trees; nothing is said about the links between their roots. */
  ghost predicate Forest(kids: seq<Shape>)
    reads RootSet(kids)`child, Inner(kids)
    decreases kids, 0
  {
    kids == [] ||
    (FirstInside(kids);
     && Tree(kids[0]) && Forest(kids[1..])
     && ({kids[0].node} + Under(kids[0].kids)) !! Under(kids[1..]))
  }

  function Nodes(sh: Shape): set<Node> {
    {sh.node} + Under(sh.kids)
  }

  lemma {:induction false} RootsInside(kids: seq<Shape>)
    ensures forall n :: n in Roots(kids) ==> n in Under(kids)
    ensures Under(kids) == RootSet(kids) + Inner(kids)
    decreases |kids|
  {
    if kids != [] {
      RootsInside(kids[1..]);
      assert Roots(kids) == [kids[0].node] + Roots(kids[1..]);
    }
  }

  lemma FirstInside(kids: seq<Shape>)
    requires kids != []
    ensures kids[0].node in RootSet(kids) && RootSet(kids[1..]) <= RootSet(kids)
    ensures Under(kids[0].kids) <= Inner(kids) && Inner(kids[1..]) <= Inner(kids)
  {
    assert Roots(kids) == [kids[0].node] + Roots(kids[1..]);
  }

  lemma {:induction false} UnderAppend(kids: seq<Shape>, c: Shape)
    ensures Under(kids + [c]) == Under(kids) + {c.node} + Under(c.kids)
    ensures Inner(kids + [c]) == Inner(kids) + Under(c.kids)
    ensures Roots(kids + [c]) == Roots(kids) + [c.node]
    decreases |kids|
  {
    if kids == [] {
      assert (kids + [c])[1..] == [];
    } else {
      assert (kids + [c])[1..] == kids[1..] + [c];
      UnderAppend(kids[1..], c);
    }
  }

  lemma {:induction false} ForestAppend(kids: seq<Shape>, c: Shape)
    requires Forest(kids) && Tree(c) && ({c.node} + Under(c.kids)) !! Under(kids)
    ensures Forest(kids + [c])
    decreases |kids|
  {
    UnderAppend(kids, c);
    if kids == [] {
      assert (kids + [c])[1..] == [];
    } else {
      assert (kids + [c])[1..] == kids[1..] + [c];
      UnderAppend(kids[1..], c);
      ForestAppend(kids[1..], c);
    }
  }

  /** Roots are not below each other, nor are they equal. */
  lemma {:induction false} RootsOutside(kids: seq<Shape>)
    requires Forest(kids)
    ensures RootSet(kids) !! Inner(kids) && Distinct(Roots(kids))
    decreases |kids|
  {
    if kids != [] {
      RootsOutside(kids[1..]);
      RootsInside(kids[1..]);
      RootsInside(kids[0].kids);
      assert Roots(kids) == [kids[0].node] + Roots(kids[1..]);
    }
  }

  lemma {:induction false} ForestAt(kids: seq<Shape>, i: nat)
    requires Forest(kids) && i < |kids|
    ensures Tree(kids[i]) && {kids[i].node} + Under(kids[i].kids) <= Under(kids)
    decreases |kids|
  {
    if i > 0 {
      ForestAt(kids[1..], i - 1);
    }
  }

  /** Separate trees, linked one to the next. */
  ghost predicate Chain(kids: seq<Shape>)
    reads RootSet(kids)`child, RootSet(kids)`next, Inner(kids)
  {
    Forest(kids) && forall k :: 0 <= k < |kids| ==> Roots(kids)[k].next == NextOf(Roots(kids), k)
  }

  function NodeAt(kids: seq<Shape>, i: nat): Node?
    requires i <= |kids|
  {
    if i < |kids| then kids[i].node else null
  }

  lemma ChainAt(kids: seq<Shape>, i: nat)
    requires Chain(kids) && i < |kids|
    ensures Tree(kids[i]) && Nodes(kids[i]) <= Under(kids) && kids[i].node.next == NodeAt(kids, i + 1)
  {
    hide Under, Inner, Tree, RootSet;
    ForestAt(kids, i);
    assert Roots(kids)[i].next == NextOf(Roots(kids), i);
  }

  lemma KidsOf(sh: Shape, below: set<Node>)
    requires Tree(sh) && below == Nodes(sh) - {sh.node}
    ensures below == Under(sh.kids) == RootSet(sh.kids) + Inner(sh.kids)
    ensures Chain(sh.kids) && sh.node.child == NodeAt(sh.kids, 0)
  {
    RootsInside(sh.kids);
    assert sh.kids != [] ==> Roots(sh.kids)[0] == sh.kids[0].node;
  }

  // Values

  /** Strings have a text, and what an object holds has keys. */
  predicate Typed(sh: Shape) {
    match sh.node.data.kind
    case KindString => sh.node.data.text.Some?
    case KindArray => forall i :: 0 <= i < |sh.kids| ==> Typed(sh.kids[i])
    case KindObject => forall i :: 0 <= i < |sh.kids| ==> sh.kids[i].node.data.key.Some? && Typed(sh.kids[i])
    case _ => true
  }

  predicate AllTyped(kids: seq<Shape>) {
    forall i :: 0 <= i < |kids| ==> Typed(kids[i])
  }

  predicate AllKeyed(kids: seq<Shape>) {
    forall i :: 0 <= i < |kids| ==> kids[i].node.data.key.Some? && Typed(kids[i])
  }

  /** The value that a tree stands for, as its readers see it: a node's buffers are C strings. */
  function Value(sh: Shape): Json
    requires Typed(sh)
    decreases sh, 1
  {
    match sh.node.data.kind
    case KindNull => Null
    case KindFalse => False
    case KindTrue => True
    case KindNumber => Number(sh.node.data.number)
    case KindString => String(Seen(sh.node.data.text.value))
    case KindArray => Array(Values(sh.kids))
    case KindObject => Object(Members(sh.kids))
  }

  function Values(kids: seq<Shape>): (r: seq<Json>)
    requires AllTyped(kids)
    ensures |r| == |kids|
    decreases kids, 0
  {
    seq(|kids|, i requires 0 <= i < |kids| => Value(kids[i]))
  }

  function Members(kids: seq<Shape>): (r: seq<Member>)
    requires AllKeyed(kids)
    ensures |r| == |kids|
    decreases kids, 0
  {
    seq(|kids|, i requires 0 <= i < |kids| => Member(Seen(kids[i].node.data.key.value), Value(kids[i])))
  }

  lemma ValueAt(sh: Shape, i: nat)
    requires Typed(sh) && i < |sh.kids|
    ensures sh.node.data.kind.KindArray? ==> Value(sh).items[i] == Value(sh.kids[i])
    ensures sh.node.data.kind.KindObject? ==> Value(sh).members[i] == Member(Seen(sh.kids[i].node.data.key.value), Value(sh.kids[i]))
  {
    if sh.node.data.kind.KindArray? {
      assert Values(sh.kids)[i] == Value(sh.kids[i]);
    } else if sh.node.data.kind.KindObject? {
      assert Members(sh.kids)[i] == Member(Seen(sh.kids[i].node.data.key.value), Value(sh.kids[i]));
    }
  }

  /** cJSON_strdup. */
  function StrDup(s: Option<string>): Option<string> {
    if s.Some? then Some(Seen(s.value)) else None
  }

  /** The data of a copied node. */
  function CopyOf(d: Data): Data {
    d.(text := StrDup(d.text), key := StrDup(d.key))
  }

  /** The second tree has the structure of the first one, and its nodes hold copies of the data. */
  predicate Same(a: Shape, b: Shape) {
    b.node.data == CopyOf(a.node.data) && |a.kids| == |b.kids| && forall i :: 0 <= i < |a.kids| ==> Same(a.kids[i], b.kids[i])
  }

  lemma {:induction false} SameValue(a: Shape, b: Shape)
    requires Same(a, b) && Typed(a)
    ensures Typed(b) && Value(b) == Value(a)
    decreases a
  {
    forall i | 0 <= i < |a.kids| && Typed(a.kids[i])
      ensures Typed(b.kids[i]) && Value(b.kids[i]) == Value(a.kids[i]) && b.kids[i].node.data == CopyOf(a.kids[i].node.data)
    {
      SameValue(a.kids[i], b.kids[i]);
    }
  }

  /** A whole tree whose nodes are these. */
  ghost predicate IsTree(n: Node, sh: Shape, nodes: set<Node>)
    reads nodes
  {
    nodes == Nodes(sh) && Tree(sh) && sh.node == n && Typed(sh)
  }

  /** A whole tree for a value. */
  ghost predicate StandsFor(n: Node, sh: Shape, nodes: set<Node>, v: Json)
    reads nodes
  {
    IsTree(n, sh, nodes) && Value(sh) == v
  }

  /** The i-th child of an array or object stands for the i-th value in it. */
  lemma ChildStands(n: Node, sh: Shape, nodes: set<Node>, v: Json, i: nat)
    requires StandsFor(n, sh, nodes, v) && (v.Array? || v.Object?) && i < |sh.kids|
    ensures |sh.kids| == (if v.Array? then |v.items| else |v.members|)
    ensures var kid := sh.kids[i];
            && StandsFor(kid.node, kid, Nodes(kid), if v.Array? then v.items[i] else v.members[i].value)
            && kid.node.next == NodeAt(sh.kids, i + 1) && Nodes(kid) <= nodes
            && (v.Object? ==> kid.node.data.key.Some? && Seen(kid.node.data.key.value) == v.members[i].key)
  {
    KidsOf(sh, nodes - {n});
    ChainAt(sh.kids, i);
    ValueAt(sh, i);
  }

  lemma ChildrenStand(n: Node, sh: Shape, nodes: set<Node>, v: Json)
    requires StandsFor(n, sh, nodes, v) && (v.Array? || v.Object?)
    ensures |sh.kids| == (if v.Array? then |v.items| else |v.members|) && n.child == NodeAt(sh.kids, 0)
  {
    KidsOf(sh, nodes - {n});
  }

  /** A node that is given a list of children becomes the root of a tree. */
  lemma NewTree(item: Node, kids: seq<Shape>, below: set<Node>)
    requires Forest(kids) && IsList(item.child, Roots(kids)) && below == Under(kids) && item !in below
    requires Typed(Shape(item, kids))
    ensures IsTree(item, Shape(item, kids), below + {item})
  {
  }

  lemma NoTrees()
    ensures Forest([]) && Roots([]) == [] && Under([]) == {} && Values([]) == [] && Members([]) == []
  {
  }

  // Building a list of children

  /** The children so far hang from a head, each linked to the next; the first one's prev is not set. */
  ghost predicate Hung(head: Node?, last: Node?, kids: seq<Shape>)
    reads RootSet(kids)`next, RootSet(kids)`prev
  {
    var roots := Roots(kids);
    && head == (if roots == [] then null else roots[0])
    && last == (if roots == [] then null else roots[|roots| - 1])
    && (forall k :: 0 <= k < |roots| ==> roots[k].next == NextOf(roots, k))
    && (forall k :: 0 < k < |roots| ==> roots[k].prev == roots[k - 1])
  }

  lemma NothingHung(last: Node?, kids: seq<Shape>)
    requires Hung(null, last, kids)
    ensures kids == [] && IsList(null, Roots(kids))
  {
    assert Roots(kids) == [];
  }

  /** Attach one more child behind the others; it is the head if it is the first. */
  method Attach(head: Node?, last: Node?, child: Node, ghost kids: seq<Shape>, ghost c: Shape, ghost had: set<Node>,
                ghost more: set<Node>)
    requires had == Under(kids) && Forest(kids) && Tree(c) && c.node == child && more == Nodes(c) && more !! had
    requires Hung(head, last, kids) && child.next == null
    modifies child`prev, had`next
    ensures Forest(kids + [c]) && Hung(if last == null then child else head, child, kids + [c])
  {
    assert child !in Under(c.kids);
    hide Forest, Tree, Under, Inner, Hung;
    UnderAppend(kids, c);
    if last == null {
      FirstHung(head, child, kids, c);
    } else {
      AttachAfter(head, last, child, kids, c, had);
    }
    ForestAppend(kids, c);
  }

  lemma FirstHung(head: Node?, child: Node, kids: seq<Shape>, c: Shape)
    requires c.node == child && Hung(head, null, kids) && child.next == null
    ensures Hung(child, child, kids + [c])
  {
    assert kids == [] by {
      assert Roots(kids) == [];
    }
    assert Roots(kids + [c]) == [child];
  }

  /** Cross-wire a child with the one before it. */
  method AttachAfter(head: Node?, last: Node, child: Node, ghost kids: seq<Shape>, ghost c: Shape, ghost had: set<Node>)
    requires had == Under(kids) && Forest(kids) && c.node == child && child !in had
    requires Hung(head, last, kids) && child.next == null
    modifies child`prev, had`next
    ensures Forest(kids) && Hung(head, child, kids + [c])
    ensures last in had && forall n :: n in had && n != last ==> n.next == old(n.next)
  {
    hide Forest, Under, Inner;
    RootsInside(kids);
    RootsOutside(kids);
    UnderAppend(kids, c);
    ghost var roots := Roots(kids);
    assert last == roots[|roots| - 1] && last in roots;
    last.next := child;
    child.prev := last;
  }

  /** The first child's prev becomes the last one. */
  method CloseRing(head: Node, last: Node?, ghost kids: seq<Shape>)
    requires Forest(kids) && Hung(head, last, kids)
    modifies Under(kids)`prev
    ensures Forest(kids) && IsList(head, Roots(kids))
  {
    RootsInside(kids);
    RootsOutside(kids);
    assert head == Roots(kids)[0];
    head.prev := last;
  }
}
