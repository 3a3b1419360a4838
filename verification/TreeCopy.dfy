/** Whole trees of linked nodes: cJSON_Duplicate, cJSON_Delete and cJSON_ReplaceItemViaPointer of
  * c/cjson/cJSON.c. */
module TreeCopies {
  import opened ChildLists
  import opened Trees

  /** How deep cJSON_Duplicate follows children. */
  const CIRCULAR_LIMIT: nat := 10000

  /** No node at the limit has children. */
  predicate Shallow(sh: Shape, depth: nat) {
    sh.kids != [] ==> depth < CIRCULAR_LIMIT && forall i :: 0 <= i < |sh.kids| ==> Shallow(sh.kids[i], depth + 1)
  }

  /** The length of the longest way down from a node. */
  function Height(sh: Shape): nat
    decreases sh, 1
  {
    Tallest(sh.kids)
  }

  function Tallest(kids: seq<Shape>): nat
    decreases kids, 0
  {
    if kids == [] then 0
    else
      var h, rest := 1 + Height(kids[0]), Tallest(kids[1..]);
      if h > rest then h else rest
  }

  /** So a node can be duplicated exactly if nothing is more than 10000 steps below the first one. */
  lemma {:induction false} ShallowHeight(sh: Shape, depth: nat)
    ensures Shallow(sh, depth) <==> sh.kids == [] || depth + Height(sh) <= 10000
    decreases sh, 1
  {
    TallestAllowed(sh.kids, depth);
  }

  lemma {:induction false} TallestAllowed(kids: seq<Shape>, depth: nat)
    ensures (kids != [] ==> depth < CIRCULAR_LIMIT && forall i :: 0 <= i < |kids| ==> Shallow(kids[i], depth + 1))
            <==> kids == [] || depth + Tallest(kids) <= 10000
    decreases kids, 0
  {
    if kids != [] {
      ShallowHeight(kids[0], depth + 1);
      TallestAllowed(kids[1..], depth);
      assert Tallest(kids[1..]) > 0 <==> kids[1..] != [];
      assert kids[0].kids == [] ==> Height(kids[0]) == 0;
      assert (forall i :: 0 <= i < |kids| ==> Shallow(kids[i], depth + 1))
             <==> Shallow(kids[0], depth + 1) && (forall i :: 0 <= i < |kids[1..]| ==> Shallow(kids[1..][i], depth + 1)) by {
        assert forall i :: 0 <= i < |kids[1..]| ==> kids[1..][i] == kids[i + 1];
      }
    }
  }

  /** cJSON_Duplicate with recursion: a separate tree of the same structure, or nothing when a node
    * at the depth limit has children. */
  method Duplicate(item: Node, depth: nat, ghost sh: Shape, ghost nodes: set<Node>)
    returns (r: Node?, ghost copy: Shape, ghost made: set<Node>)
    requires Tree(sh) && sh.node == item && nodes == Nodes(sh)
    ensures r != null <==> Shallow(sh, depth)
    ensures r != null <==> sh.kids == [] || depth + Height(sh) <= 10000
    ensures r != null ==> copy.node == r && r.next == null && r.prev == null
    ensures r != null ==> made == Nodes(copy) && fresh(made) && Tree(copy) && Same(sh, copy)
    decreases sh, 1
  {
    hide Forest, Tree, Under, Inner, Same, Shallow, AllShallow, Copied, Chain, IsList, Height;
    ghost var below := nodes - {item};
    KidsOf(sh, below);
    ShallowIs(sh, depth);
    ShallowHeight(sh, depth);
    var newitem := new Node(CopyOf(item.data));
    copy, made := Shape(newitem, []), {};
    var ok;
    ghost var copies;
    ok, copies, made := DuplicateChildren(item.child, newitem, depth, sh.kids, below);
    if !ok {
      return null, copy, {};
    }
    copy := Shape(newitem, copies);
    CopyIsTree(sh, copy, depth);
    made := made + {newitem};
    r := newitem;
  }

  lemma ShallowIs(sh: Shape, depth: nat)
    ensures Shallow(sh, depth) <==> AllShallow(sh.kids, depth)
  {
  }

  lemma CopyIsTree(sh: Shape, copy: Shape, depth: nat)
    requires Forest(copy.kids) && copy.node !in Under(copy.kids) && IsList(copy.node.child, Roots(copy.kids))
    requires copy.node.data == CopyOf(sh.node.data) && |copy.kids| == |sh.kids| && Copied(sh.kids, copy.kids, depth)
    ensures Tree(copy) && Same(sh, copy)
  {
  }

  /** The copies made so far are of the first children, none of which was too deep. */
  predicate Copied(kids: seq<Shape>, copies: seq<Shape>, depth: nat) {
    && |copies| <= |kids| && (copies != [] ==> depth < CIRCULAR_LIMIT)
    && forall k :: 0 <= k < |copies| ==> Shallow(kids[k], depth + 1) && Same(kids[k], copies[k])
  }

  lemma CopiedMore(kids: seq<Shape>, copies: seq<Shape>, c: Shape, depth: nat)
    requires Copied(kids, copies, depth) && |copies| < |kids| && depth < CIRCULAR_LIMIT
    requires Shallow(kids[|copies|], depth + 1) && Same(kids[|copies|], c)
    ensures Copied(kids, copies + [c], depth)
  {
  }

  /** Whether every child may be copied. */
  predicate AllShallow(kids: seq<Shape>, depth: nat) {
    kids != [] ==> depth < CIRCULAR_LIMIT && forall i :: 0 <= i < |kids| ==> Shallow(kids[i], depth + 1)
  }

  /** In the middle of the walk along the children. */
  ghost predicate Walking(newitem: Node, child: Node?, last: Node?, kids: seq<Shape>, below: set<Node>,
                          copies: seq<Shape>, made: set<Node>, depth: nat)
    reads RootSet(kids)`child, RootSet(kids)`next, Inner(kids)
    reads RootSet(copies)`child, RootSet(copies)`next, RootSet(copies)`prev, Inner(copies), newitem`child
  {
    && Chain(kids) && |copies| <= |kids| && child == NodeAt(kids, |copies|) && below == Under(kids)
    && made == Under(copies) && made !! below && newitem !in below + made
    && Forest(copies) && Hung(newitem.child, last, copies) && Copied(kids, copies, depth)
  }

  /** The walk along the children. */
  method DuplicateChildren(first: Node?, newitem: Node, depth: nat, ghost kids: seq<Shape>, ghost below: set<Node>)
    returns (ok: bool, ghost copies: seq<Shape>, ghost made: set<Node>)
    requires Chain(kids) && first == NodeAt(kids, 0) && below == Under(kids)
    requires newitem.child == null && newitem !in below
    modifies newitem`child
    ensures ok <==> AllShallow(kids, depth)
    ensures ok ==> made == Under(copies) && fresh(made) && Forest(copies) && Copied(kids, copies, depth)
    ensures ok ==> |copies| == |kids| && IsList(newitem.child, Roots(copies))
    decreases kids, 3
  {
    var child, last: Node? := first, null;
    copies, made := [], {};
    ok := true;
    assert Walking(newitem, child, last, kids, below, copies, made, depth);
    hide Walking;
    while child != null
      invariant Walking(newitem, child, last, kids, below, copies, made, depth) && fresh(made)
      decreases |kids| - |copies|
    {
      ok, child, last, copies, made := CopyNext(newitem, child, last, depth, kids, below, copies, made);
      if !ok {
        return;
      }
    }
    WalkedThrough(newitem, last, kids, below, copies, made, depth);
    if newitem.child != null {
      CloseRing(newitem.child, last, copies);
    }
  }

  lemma WalkedThrough(newitem: Node, last: Node?, kids: seq<Shape>, below: set<Node>, copies: seq<Shape>,
                      made: set<Node>, depth: nat)
    requires Walking(newitem, null, last, kids, below, copies, made, depth)
    ensures |copies| == |kids| && AllShallow(kids, depth) && Copied(kids, copies, depth) && made == Under(copies)
    ensures Forest(copies) && Hung(newitem.child, last, copies) && newitem !in Under(copies)
    ensures newitem.child == null ==> IsList(newitem.child, Roots(copies))
  {
    AllCopied(kids, copies, depth);
    if newitem.child == null {
      NothingHung(last, copies);
    }
  }

  /** One step of the walk. */
  method CopyNext(newitem: Node, child: Node, last: Node?, depth: nat, ghost kids: seq<Shape>, ghost below: set<Node>,
                  ghost copies: seq<Shape>, ghost made: set<Node>)
    returns (ok: bool, child': Node?, last': Node?, ghost copies': seq<Shape>, ghost made': set<Node>)
    requires Walking(newitem, child, last, kids, below, copies, made, depth)
    modifies newitem`child, made`next
    ensures |copies| < |kids| && (!ok ==> !AllShallow(kids, depth))
    ensures ok ==> Walking(newitem, child', last', kids, below, copies', made', depth)
    ensures ok ==> made <= made' && fresh(made' - made) && |copies'| == |copies| + 1
    decreases kids, 2
  {
    hide Forest, Tree, Under, Inner, Same, Shallow, Hung, Copied, AllShallow, IsList, RootSet;
    ok, child', last', copies', made' := false, child, last, copies, made;
    ghost var i := |copies|;
    TooDeep(kids, i, depth);
    if depth >= CIRCULAR_LIMIT {
      return;
    }
    ChainAt(kids, i);
    RootsInside(kids);
    var next;
    ghost var c, all;
    next, c, all := CopyOne(child, newitem, last, depth + 1, kids[i], Nodes(kids[i]), copies, made);
    if next == null {
      return;
    }
    CopiedMore(kids, copies, c, depth);
    ChainAt(kids, i);
    ok, child', last', copies', made' := true, child.next, next, copies + [c], all;
  }

  lemma TooDeep(kids: seq<Shape>, i: nat, depth: nat)
    requires i < |kids|
    ensures AllShallow(kids, depth) ==> depth < CIRCULAR_LIMIT && Shallow(kids[i], depth + 1)
  {
  }

  lemma AllCopied(kids: seq<Shape>, copies: seq<Shape>, depth: nat)
    requires Copied(kids, copies, depth) && |copies| == |kids|
    ensures AllShallow(kids, depth)
  {
  }

  /** Copy one child and hang the copy behind the others. */
  method CopyOne(child: Node, newitem: Node, last: Node?, depth: nat, ghost kid: Shape, ghost nodes: set<Node>,
                 ghost copies: seq<Shape>, ghost had: set<Node>)
    returns (next: Node?, ghost c: Shape, ghost all: set<Node>)
    requires Tree(kid) && kid.node == child && nodes == Nodes(kid)
    requires had == Under(copies) && Forest(copies) && Hung(newitem.child, last, copies)
    requires newitem !in had
    modifies newitem`child, had`next
    decreases kid, 4
    ensures next != null <==> Shallow(kid, depth)
    ensures next != null ==> had <= all && fresh(all - had) && newitem !in all && all == Under(copies + [c])
    ensures next != null ==> Forest(copies + [c]) && Hung(newitem.child, next, copies + [c]) && Same(kid, c)
  {
    hide Forest, Tree, Under, Inner, Same, Shallow, Hung;
    RootsInside(copies);
    var newchild;
    ghost var more;
    newchild, c, more := Duplicate(child, depth, kid, nodes);
    if newchild == null {
      return null, c, {};
    }
    UnderAppend(copies, c);
    all := had + more;
    RootsInside(copies + [c]);
    Attach(newitem.child, last, newchild, copies, c, had, more);
    if last == null {
      newitem.child := newchild;
    }
    next := newchild;
  }

  // Deleting

  /** Trees whose roots follow each other by next, with no node in two places; prev is not looked at. */
  ghost predicate Row(kids: seq<Shape>)
    reads Under(kids)`child, Under(kids)`next
    decreases kids, 0
  {
    kids == [] ||
    (&& Hangs(kids[0]) && kids[0].node.next == NodeAt(kids, 1) && Nodes(kids[0]) !! Under(kids[1..])
     && Row(kids[1..]))
  }

  /** A node with a row of trees below it. */
  ghost predicate Hangs(sh: Shape)
    reads sh.node`child, Under(sh.kids)`child, Under(sh.kids)`next
    decreases sh, 1
  {
    sh.node !in Under(sh.kids) && sh.node.child == NodeAt(sh.kids, 0) && Row(sh.kids)
  }

  /** Well-linked trees are of this kind. */
  lemma {:induction false} ChainIsRow(kids: seq<Shape>)
    requires Chain(kids)
    ensures Row(kids)
    decreases kids, 0
  {
    if kids != [] {
      ChainAt(kids, 0);
      TreeHangs(kids[0]);
      ChainRest(kids);
      ChainIsRow(kids[1..]);
    }
  }

  lemma {:induction false} TreeHangs(sh: Shape)
    requires Tree(sh)
    ensures Hangs(sh)
    decreases sh, 1
  {
    KidsOf(sh, Under(sh.kids));
    ChainIsRow(sh.kids);
  }

  lemma ChainRest(kids: seq<Shape>)
    requires kids != [] && Chain(kids)
    ensures Chain(kids[1..])
  {
    assert Roots(kids) == [kids[0].node] + Roots(kids[1..]);
    forall k | 0 <= k < |kids[1..]|
      ensures Roots(kids[1..])[k].next == NextOf(Roots(kids[1..]), k)
    {
      assert Roots(kids)[k + 1].next == NextOf(Roots(kids), k + 1);
    }
  }

  /** What is given back to the allocator: a node's string value, its key, and the node. */
  datatype Piece = ValueString(node: Node) | KeyString(node: Node) | Whole(node: Node)

  function OwnPieces(n: Node): seq<Piece> {
    (if n.data.text.Some? then [ValueString(n)] else []) + (if n.data.key.Some? then [KeyString(n)] else []) + [Whole(n)]
  }

  /** Children first, then the node itself, then its later siblings. */
  function DeleteOrder(kids: seq<Shape>): seq<Piece>
    decreases kids
  {
    if kids == [] then [] else DeleteOrder(kids[0].kids) + OwnPieces(kids[0].node) + DeleteOrder(kids[1..])
  }

  // Memory that may still be read

  /** A node may be read, and given back, as long as it has not been given back. */
  function ReadNext(n: Node, ghost gone: set<Node>): Node?
    requires n !in gone
    reads n`next
  {
    n.next
  }

  function ReadChild(n: Node, ghost gone: set<Node>): Node?
    requires n !in gone
    reads n`child
  {
    n.child
  }

  /** Give back what a node owns, reading its pointers first. */
  method FreePieces(n: Node, ghost gone: set<Node>) returns (freed: seq<Piece>, ghost gone': set<Node>)
    requires n !in gone
    ensures freed == OwnPieces(n) && gone' == gone + {n}
  {
    freed := [];
    if n.data.text.Some? {
      freed := freed + [ValueString(n)];
    }
    if n.data.key.Some? {
      freed := freed + [KeyString(n)];
    }
    freed := freed + [Whole(n)];
    gone' := gone + {n};
  }

  /** cJSON_Delete on an item and its later siblings: what is freed, in order.  Only nodes that have
    * not been freed are read, the sibling's pointer before its node is freed. */
  method Delete(item0: Node?, ghost kids0: seq<Shape>, ghost nodes: set<Node>, ghost gone0: set<Node>)
    returns (freed: seq<Piece>, ghost gone: set<Node>)
    requires Row(kids0) && item0 == NodeAt(kids0, 0) && nodes == Under(kids0) && nodes !! gone0
    ensures freed == DeleteOrder(kids0) && gone == gone0 + nodes
    decreases kids0
  {
    var item := item0;
    ghost var kids, j := kids0, 0;
    freed, gone := [], gone0;
    while item != null
      invariant Row(kids) && item == NodeAt(kids, 0) && freed + DeleteOrder(kids) == DeleteOrder(kids0)
      invariant 0 <= j <= |kids0| && kids == kids0[j..]
      invariant Under(kids) <= nodes && Under(kids) !! gone && gone + Under(kids) == gone0 + nodes
      decreases |kids|
    {
      hide DeleteOrder, Row, Hangs;
      ghost var sh := kids0[j];
      Ahead(kids);
      var next := ReadNext(item, gone);
      var own;
      own, gone := DeleteOne(item, sh, Nodes(sh), gone);
      assert freed + (own + DeleteOrder(kids[1..])) == freed + own + DeleteOrder(kids[1..]);
      freed := freed + own;
      item := next;
      assert kids[1..] == kids0[j + 1..];
      kids, j := kids[1..], j + 1;
    }
  }

  /** The first tree comes before the others and shares nothing with them. */
  lemma Ahead(kids: seq<Shape>)
    requires kids != [] && Row(kids)
    ensures Hangs(kids[0]) && kids[0].node.next == NodeAt(kids[1..], 0) && Row(kids[1..])
    ensures Under(kids) == Nodes(kids[0]) + Under(kids[1..]) && Nodes(kids[0]) !! Under(kids[1..])
    ensures DeleteOrder(kids) == DeleteOrder(kids[0].kids) + OwnPieces(kids[0].node) + DeleteOrder(kids[1..])
  {
  }

  /** The loop's body: what hangs below an item, then the item. */
  method DeleteOne(item: Node, ghost sh: Shape, ghost nodes: set<Node>, ghost gone0: set<Node>)
    returns (freed: seq<Piece>, ghost gone: set<Node>)
    requires Hangs(sh) && sh.node == item && nodes == Nodes(sh) && nodes !! gone0
    ensures freed == DeleteOrder(sh.kids) + OwnPieces(item) && gone == gone0 + nodes
    decreases sh
  {
    assert Under(sh.kids) <= nodes;
    assert sh.kids == [] ==> DeleteOrder(sh.kids) == [] && Under(sh.kids) == {};
    hide DeleteOrder, Row, Under;
    freed, gone := [], gone0;
    var child := ReadChild(item, gone);
    if child != null {
      freed, gone := Delete(child, sh.kids, Under(sh.kids), gone);
    }
    var own;
    own, gone := FreePieces(item, gone);
    freed := freed + own;
  }

  /** Every piece that a node of the trees owns, and nothing else. */
  predicate Owned(kids: seq<Shape>, p: Piece) {
    p.node in Under(kids) && p in OwnPieces(p.node)
  }

  /** Each owned piece is freed exactly once, and no other. */
  lemma {:induction false} FreedOnce(kids: seq<Shape>)
    requires Row(kids)
    ensures Distinct(DeleteOrder(kids))
    ensures forall p :: p in DeleteOrder(kids) <==> Owned(kids, p)
    decreases kids
  {
    hide OwnPieces;
    if kids != [] {
      FreedOnce(kids[0].kids);
      FreedOnce(kids[1..]);
      JoinPieces(kids, DeleteOrder(kids[0].kids), DeleteOrder(kids[1..]));
    }
  }

  lemma {:induction false} CountOnce(s: seq<Piece>, p: Piece)
    requires Distinct(s)
    ensures multiset(s)[p] == if p in s then 1 else 0
    decreases |s|
  {
    if s != [] {
      assert s == [s[0]] + s[1..];
      assert Distinct(s[1..]) && s[0] !in s[1..] by {
        assert forall k :: 0 <= k < |s[1..]| ==> s[1..][k] == s[k + 1];
      }
      CountOnce(s[1..], p);
    }
  }

  /** Node by node: each node below is freed once, and with it its value string and its key, if it has
    * them; no other node is freed, and no string of another. */
  lemma NodeFreed(kids: seq<Shape>, n: Node)
    requires Row(kids)
    ensures var freed, below := multiset(DeleteOrder(kids)), n in Under(kids);
      && freed[Whole(n)] == (if below then 1 else 0)
      && freed[ValueString(n)] == (if below && n.data.text.Some? then 1 else 0)
      && freed[KeyString(n)] == (if below && n.data.key.Some? then 1 else 0)
  {
    hide DeleteOrder, Row, Under;
    FreedOnce(kids);
    CountOnce(DeleteOrder(kids), Whole(n));
    CountOnce(DeleteOrder(kids), ValueString(n));
    CountOnce(DeleteOrder(kids), KeyString(n));
    assert Owned(kids, Whole(n)) == (n in Under(kids));
  }

  lemma OwnOnce(n: Node)
    ensures Distinct(OwnPieces(n)) && forall p :: p in OwnPieces(n) ==> p.node == n
  {
  }

  lemma JoinPieces(kids: seq<Shape>, below: seq<Piece>, later: seq<Piece>)
    requires kids != [] && Distinct(below) && Distinct(later)
    requires kids[0].node !in Under(kids[0].kids) && Nodes(kids[0]) !! Under(kids[1..])
    requires (forall p :: p in below <==> Owned(kids[0].kids, p)) && (forall p :: p in later <==> Owned(kids[1..], p))
    ensures Distinct(below + OwnPieces(kids[0].node) + later)
    ensures forall p :: p in below + OwnPieces(kids[0].node) + later <==> Owned(kids, p)
  {
    hide OwnPieces;
    var n := kids[0].node;
    var own := OwnPieces(n);
    OwnOnce(n);
    assert forall p :: p in below ==> p.node in Under(kids[0].kids);
    DistinctJoin(below, own);
    forall p | p in below + own
      ensures p !in later
    {
      assert p in below || p in own;
      assert p.node in Nodes(kids[0]);
    }
    DistinctJoin(below + own, later);
  }

  lemma DistinctJoin<T>(a: seq<T>, b: seq<T>)
    requires Distinct(a) && Distinct(b) && forall n :: n in a ==> n !in b
    ensures Distinct(a + b)
  {
    forall i, j | 0 <= i < j < |a + b|
      ensures (a + b)[i] != (a + b)[j]
    {
      if i < |a| <= j {
        assert a[i] in a && b[j - |a|] in b;
      }
    }
  }
}
