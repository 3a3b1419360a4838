/** cJSON_Compare of c/cjson/cJSON.c as a walk along linked nodes. */
module TreeCompares {
  import opened Basics
  import opened Json
  import opened JsonCompare
  import opened ChildLists
  import opened Trees
  import opened TreeCopies

  lemma FindStep(kids: seq<Shape>, name: string, caseSensitive: bool, k: nat)
    requires AllKeyed(kids) && k <= |kids|
    ensures var ms := Members(kids);
            FindFrom(ms, name, caseSensitive, k) ==
            if k == |kids| then None
            else if SameKey(name, kids[k].node.data.key.value, caseSensitive) then Some(k)
            else FindFrom(ms, name, caseSensitive, k + 1)
  {
    if k < |kids| {
      assert Members(kids)[k] == Member(Seen(kids[k].node.data.key.value), Value(kids[k]));
    }
  }

  /** get_object_item: the first child with a key. */
  method GetObjectItem(object0: Node, name: string, caseSensitive: bool, ghost sh: Shape)
    returns (r: Node?, ghost f: Option<nat>)
    requires Tree(sh) && sh.node == object0 && AllKeyed(sh.kids)
    ensures f == Find(Members(sh.kids), name, caseSensitive)
    ensures var found := Find(Members(sh.kids), name, caseSensitive);
            r == if found.None? then null else sh.kids[found.value].node
  {
    KidsOf(sh, Nodes(sh) - {sh.node});
    hide Tree, Chain, Nodes, Under, SameKey, Typed, FindFrom, Members;
    ghost var kids, k := sh.kids, 0;
    f := FindFrom(Members(kids), name, caseSensitive, 0);
    r := object0.child;
    while r != null && r.data.key.Some? && !SameKey(name, r.data.key.value, caseSensitive)
      invariant Chain(kids) && k <= |kids| && r == NodeAt(kids, k)
      invariant f == FindFrom(Members(kids), name, caseSensitive, k)
      decreases |kids| - k
    {
      FindStep(kids, name, caseSensitive, k);
      ChainAt(kids, k);
      r := r.next;
      k := k + 1;
    }
    FindStep(kids, name, caseSensitive, k);
    if r == null || r.data.key.None? {
      return null, f;
    }
  }

  predicate Apart(na: set<Node>, nb: set<Node>) {
    na !! nb
  }

  /** The result r is right for two trees.  A node that both of them hold counts as equal without a
    * look at it, so only for separate trees does true mean that they compare equal. */
  ghost predicate Right(sa: Shape, sb: Shape, caseSensitive: bool, r: bool)
    requires Typed(sa) && Typed(sb)
  {
    && (Compare(Value(sa), Value(sb), caseSensitive) ==> r)
    && (r && Apart(Nodes(sa), Nodes(sb)) ==> Compare(Value(sa), Value(sb), caseSensitive))
  }

  /** cJSON_Compare. */
  method CompareNodes(a: Node?, b: Node?, caseSensitive: bool, ghost sa: Shape, ghost sb: Shape, ghost na: set<Node>,
                      ghost nb: set<Node>)
    returns (r: bool)
    requires (a != null ==> IsTree(a, sa, na)) && (b != null ==> IsTree(b, sb, nb))
    ensures a == null || b == null ==> !r
    ensures a != null && b != null ==> Right(sa, sb, caseSensitive, r) && (a == b ==> r)
  {
    if a == null || b == null {
      return false;
    }
    r := CompareTrees(a, b, caseSensitive, sa, sb, na, nb);
  }

  method CompareTrees(a: Node, b: Node, caseSensitive: bool, ghost sa: Shape, ghost sb: Shape, ghost na: set<Node>,
                      ghost nb: set<Node>)
    returns (r: bool)
    requires IsTree(a, sa, na) && IsTree(b, sb, nb)
    ensures Right(sa, sb, caseSensitive, r) && (a == b ==> r)
    decreases Size(Value(sa)) + Size(Value(sb)), 4
  {
    if a.data.kind != b.data.kind {
      return false;
    }
    if a == b {
      return true;
    }
    hide IsTree, Nodes, Size, AllFound;
    match a.data.kind
    case KindArray => r := CompareElements(a, b, caseSensitive, sa, sb, na, nb);
    case KindObject => r := CompareObjects(a, b, caseSensitive, sa, sb, na, nb);
    case _ => r := CompareLeaves(a, b, caseSensitive, sa, sb);
  }

  method CompareLeaves(a: Node, b: Node, caseSensitive: bool, ghost sa: Shape, ghost sb: Shape) returns (r: bool)
    requires Typed(sa) && Typed(sb) && sa.node == a && sb.node == b && a.data.kind == b.data.kind
    requires !a.data.kind.KindArray? && !a.data.kind.KindObject?
    ensures r == Compare(Value(sa), Value(sb), caseSensitive)
  {
    match a.data.kind
    case KindNumber => r := CompareDouble(a.data.number, b.data.number);
    case KindString => r := Seen(a.data.text.value) == Seen(b.data.text.value);
    case _ => r := true;
  }

  /** Both ways, so that neither object may hold more than the other. */
  method CompareObjects(a: Node, b: Node, caseSensitive: bool, ghost sa: Shape, ghost sb: Shape, ghost na: set<Node>,
                        ghost nb: set<Node>)
    returns (r: bool)
    requires IsTree(a, sa, na) && IsTree(b, sb, nb) && BothObjects(sa, sb)
    ensures Right(sa, sb, caseSensitive, r)
    decreases Size(Value(sa)) + Size(Value(sb)), 3
  {
    assert na == Nodes(sa) && nb == Nodes(sb);
    ApartBothWays(na, nb);
    hide IsTree, Nodes, Size, AllFound, Apart, Compare;
    ObjectsCompare(sa, sb, caseSensitive);
    r := CompareMembers(a, b, caseSensitive, sa, sb, na, nb);
    if r {
      r := CompareMembers(b, a, caseSensitive, sb, sa, nb, na);
    }
  }

  lemma ApartBothWays(na: set<Node>, nb: set<Node>)
    ensures Apart(na, nb) == Apart(nb, na)
  {
  }

  /** Children of a tree, as one of the walks meets them. */
  lemma Child(sh: Shape, nodes: set<Node>, i: nat)
    requires IsTree(sh.node, sh, nodes) && (sh.node.data.kind.KindArray? || sh.node.data.kind.KindObject?) && i < |sh.kids|
    ensures IsTree(sh.kids[i].node, sh.kids[i], Nodes(sh.kids[i])) && Nodes(sh.kids[i]) <= nodes
    ensures sh.kids[i].node.next == NodeAt(sh.kids, i + 1)
    ensures Size(Value(sh.kids[i])) < Size(Value(sh))
  {
    hide Tree, Under, Nodes;
    KidsOf(sh, nodes - {sh.node});
    ChainAt(sh.kids, i);
    ChildSmaller(Value(sh), i, 0);
  }

  predicate BothArrays(sa: Shape, sb: Shape) {
    Typed(sa) && Typed(sb) && sa.node.data.kind.KindArray? && sb.node.data.kind.KindArray?
  }

  /** The first k elements of two arrays compare equal. */
  predicate Agreeing(sa: Shape, sb: Shape, k: nat, caseSensitive: bool)
    requires BothArrays(sa, sb) && k <= |sa.kids| && k <= |sb.kids|
  {
    forall i :: 0 <= i < k ==> Compare(Value(sa.kids[i]), Value(sb.kids[i]), caseSensitive)
  }

  /** Where the loop over two arrays starts. */
  lemma ArraysFrom(a: Node, b: Node, sa: Shape, sb: Shape, na: set<Node>, nb: set<Node>)
    requires IsTree(a, sa, na) && IsTree(b, sb, nb) && BothArrays(sa, sb)
    ensures sa.node == a && sb.node == b && a.child == NodeAt(sa.kids, 0) && b.child == NodeAt(sb.kids, 0)
  {
    FirstChild(sa, na);
    FirstChild(sb, nb);
  }

  /** The loop over two arrays. */
  method CompareElements(a: Node, b: Node, caseSensitive: bool, ghost sa: Shape, ghost sb: Shape, ghost na: set<Node>,
                         ghost nb: set<Node>)
    returns (r: bool)
    requires IsTree(a, sa, na) && IsTree(b, sb, nb) && BothArrays(sa, sb)
    ensures Right(sa, sb, caseSensitive, r)
    decreases Size(Value(sa)) + Size(Value(sb)), 3
  {
    hide IsTree, BothArrays, Right, Agreeing, Nodes, Apart, Size, Value, Compare, Typed;
    ArraysFrom(a, b, sa, sb, na, nb);
    var x, y := a.child, b.child;
    ghost var k := 0;
    NoneYet(sa, sb, caseSensitive);
    while x != null && y != null
      invariant IsTree(a, sa, na) && IsTree(b, sb, nb)
      invariant k <= |sa.kids| && k <= |sb.kids| && x == NodeAt(sa.kids, k) && y == NodeAt(sb.kids, k)
      invariant Apart(na, nb) ==> Agreeing(sa, sb, k, caseSensitive)
      decreases |sa.kids| - k
    {
      var same;
      same, x, y := CompareElement(x, y, caseSensitive, sa, sb, k, na, nb);
      if !same {
        return false;
      }
      k := k + 1;
    }
    r := x == y;
    AllAgree(sa, sb, k, caseSensitive, na, nb);
  }

  method CompareElement(x: Node, y: Node, caseSensitive: bool, ghost sa: Shape, ghost sb: Shape, ghost k: nat,
                        ghost na: set<Node>, ghost nb: set<Node>)
    returns (same: bool, x': Node?, y': Node?)
    requires IsTree(sa.node, sa, na) && IsTree(sb.node, sb, nb) && BothArrays(sa, sb) && k < |sa.kids| && k < |sb.kids|
    requires x == sa.kids[k].node && y == sb.kids[k].node && (Apart(na, nb) ==> Agreeing(sa, sb, k, caseSensitive))
    ensures x' == NodeAt(sa.kids, k + 1) && y' == NodeAt(sb.kids, k + 1)
    ensures !same ==> Right(sa, sb, caseSensitive, false)
    ensures same && Apart(na, nb) ==> Agreeing(sa, sb, k + 1, caseSensitive)
    decreases Size(Value(sa)) + Size(Value(sb)), 2
  {
    Child(sa, na, k);
    Child(sb, nb, k);
    assert na == Nodes(sa) && nb == Nodes(sb);
    hide Size, Right, Agreeing, Nodes, NodeAt, Compare;
    x', y' := x.next, y.next;
    same := CompareTrees(x, y, caseSensitive, sa.kids[k], sb.kids[k], Nodes(sa.kids[k]), Nodes(sb.kids[k]));
    OneMore(sa, sb, k, caseSensitive, na, nb, same);
  }

  lemma NoneYet(sa: Shape, sb: Shape, caseSensitive: bool)
    requires BothArrays(sa, sb)
    ensures Agreeing(sa, sb, 0, caseSensitive)
  {
  }

  lemma OneMore(sa: Shape, sb: Shape, k: nat, caseSensitive: bool, na: set<Node>, nb: set<Node>, same: bool)
    requires BothArrays(sa, sb) && k < |sa.kids| && k < |sb.kids| && Typed(sa.kids[k]) && Typed(sb.kids[k])
    requires na == Nodes(sa) && nb == Nodes(sb) && Nodes(sa.kids[k]) <= na && Nodes(sb.kids[k]) <= nb
    requires Right(sa.kids[k], sb.kids[k], caseSensitive, same) && (Apart(na, nb) ==> Agreeing(sa, sb, k, caseSensitive))
    ensures !same ==> Right(sa, sb, caseSensitive, false)
    ensures same && Apart(na, nb) ==> Agreeing(sa, sb, k + 1, caseSensitive)
  {
    hide Nodes;
    ValueAt(sa, k);
    ValueAt(sb, k);
  }

  /** After the loop the arrays agree as far as the shorter one goes. */
  lemma AllAgree(sa: Shape, sb: Shape, k: nat, caseSensitive: bool, na: set<Node>, nb: set<Node>)
    requires BothArrays(sa, sb) && IsTree(sa.node, sa, na) && IsTree(sb.node, sb, nb)
    requires k <= |sa.kids| && k <= |sb.kids| && (k == |sa.kids| || k == |sb.kids|)
    requires Apart(na, nb) ==> Agreeing(sa, sb, k, caseSensitive)
    ensures Right(sa, sb, caseSensitive, |sa.kids| == |sb.kids|)
  {
    hide Nodes;
    forall i | 0 <= i < k
      ensures Value(sa).items[i] == Value(sa.kids[i]) && Value(sb).items[i] == Value(sb.kids[i])
    {
      ValueAt(sa, i);
      ValueAt(sb, i);
    }
  }

  lemma FirstChild(sh: Shape, nodes: set<Node>)
    requires IsTree(sh.node, sh, nodes)
    ensures sh.node.child == NodeAt(sh.kids, 0)
  {
    KidsOf(sh, nodes - {sh.node});
  }

  predicate BothObjects(sa: Shape, sb: Shape) {
    Typed(sa) && Typed(sb) && sa.node.data.kind.KindObject? && sb.node.data.kind.KindObject?
  }

  predicate Found(sa: Shape, sb: Shape, i: nat, caseSensitive: bool)
    requires BothObjects(sa, sb) && i < |sa.kids|
  {
    MemberFound(Value(sa), Value(sb), i, caseSensitive)
  }

  predicate AllFound(sa: Shape, sb: Shape, caseSensitive: bool)
    requires BothObjects(sa, sb)
  {
    forall i :: 0 <= i < |sa.kids| ==> Found(sa, sb, i, caseSensitive)
  }

  lemma ObjectsCompare(sa: Shape, sb: Shape, caseSensitive: bool)
    requires BothObjects(sa, sb)
    ensures Compare(Value(sa), Value(sb), caseSensitive) <==> AllFound(sa, sb, caseSensitive) && AllFound(sb, sa, caseSensitive)
  {
    hide MemberFound;
    var v, w := Value(sa), Value(sb);
    assert |v.members| == |sa.kids| && |w.members| == |sb.kids|;
    assert forall i :: 0 <= i < |v.members| ==> Found(sa, sb, i, caseSensitive) == MemberFound(v, w, i, caseSensitive);
    assert forall i :: 0 <= i < |w.members| ==> Found(sb, sa, i, caseSensitive) == MemberFound(w, v, i, caseSensitive);
  }

  lemma FoundBy(sa: Shape, sb: Shape, i: nat, f: Option<nat>, caseSensitive: bool)
    requires BothObjects(sa, sb) && i < |sa.kids|
    requires f == Find(Members(sb.kids), sa.kids[i].node.data.key.value, caseSensitive)
    ensures Found(sa, sb, i, caseSensitive)
            <==> f.Some? && Compare(Value(sa.kids[i]), Value(sb.kids[f.value]), caseSensitive)
  {
    ValueAt(sa, i);
    if f.Some? {
      ValueAt(sb, f.value);
    }
  }

  method CompareMember(x: Node, b: Node, caseSensitive: bool, ghost sa: Shape, ghost sb: Shape, ghost k: nat,
                       ghost na: set<Node>, ghost nb: set<Node>)
    returns (same: bool, x': Node?)
    requires IsTree(sa.node, sa, na) && IsTree(b, sb, nb) && BothObjects(sa, sb) && k < |sa.kids| && x == sa.kids[k].node
    ensures x' == NodeAt(sa.kids, k + 1)
    ensures Found(sa, sb, k, caseSensitive) ==> same
    ensures same && Apart(na, nb) ==> Found(sa, sb, k, caseSensitive)
    decreases Size(Value(sa)) + Size(Value(sb)), 1
  {
    Child(sa, na, k);
    hide Size, NodeAt, Compare;
    x' := x.next;
    ghost var f;
    var y;
    y, f := GetObjectItem(b, x.data.key.value, caseSensitive, sb);
    FoundBy(sa, sb, k, f, caseSensitive);
    if y == null {
      return false, x';
    }
    Child(sb, nb, f.value);
    same := CompareTrees(x, y, caseSensitive, sa.kids[k], sb.kids[f.value], Nodes(sa.kids[k]), Nodes(sb.kids[f.value]));
  }

  predicate FoundUpTo(sa: Shape, sb: Shape, k: nat, caseSensitive: bool)
    requires BothObjects(sa, sb) && k <= |sa.kids|
  {
    forall i :: 0 <= i < k ==> Found(sa, sb, i, caseSensitive)
  }

  lemma FoundEnds(sa: Shape, sb: Shape, caseSensitive: bool)
    requires BothObjects(sa, sb)
    ensures FoundUpTo(sa, sb, 0, caseSensitive)
    ensures FoundUpTo(sa, sb, |sa.kids|, caseSensitive) <==> AllFound(sa, sb, caseSensitive)
  {
  }

  lemma OneMoreFound(sa: Shape, sb: Shape, k: nat, caseSensitive: bool)
    requires BothObjects(sa, sb) && k < |sa.kids|
    ensures FoundUpTo(sa, sb, k, caseSensitive) && Found(sa, sb, k, caseSensitive) ==> FoundUpTo(sa, sb, k + 1, caseSensitive)
    ensures !Found(sa, sb, k, caseSensitive) ==> !AllFound(sa, sb, caseSensitive)
  {
  }

  /** One of the two loops over objects: every member of a is in b. */
  method CompareMembers(a: Node, b: Node, caseSensitive: bool, ghost sa: Shape, ghost sb: Shape, ghost na: set<Node>,
                        ghost nb: set<Node>)
    returns (r: bool)
    requires IsTree(a, sa, na) && IsTree(b, sb, nb) && BothObjects(sa, sb)
    ensures AllFound(sa, sb, caseSensitive) ==> r
    ensures r && Apart(na, nb) ==> AllFound(sa, sb, caseSensitive)
    decreases Size(Value(sa)) + Size(Value(sb)), 2
  {
    FirstChild(sa, na);
    var x := a.child;
    ghost var k := 0;
    hide IsTree, BothObjects, Nodes, Found, FoundUpTo, AllFound, Apart, Size, Value, Compare;
    FoundEnds(sa, sb, caseSensitive);
    while x != null
      invariant IsTree(a, sa, na) && IsTree(b, sb, nb)
      invariant k <= |sa.kids| && x == NodeAt(sa.kids, k)
      invariant Apart(na, nb) ==> FoundUpTo(sa, sb, k, caseSensitive)
      decreases |sa.kids| - k
    {
      var same;
      OneMoreFound(sa, sb, k, caseSensitive);
      same, x := CompareMember(x, b, caseSensitive, sa, sb, k, na, nb);
      if !same {
        return false;
      }
      k := k + 1;
    }
    r := true;
  }

  /** A copy and the item compare equal exactly when no object in it holds different values under
    * one key. */
  method CompareCopy(item: Node, caseSensitive: bool, ghost sh: Shape, ghost nodes: set<Node>)
    returns (copy: Node?, r: bool)
    requires IsTree(item, sh, nodes)
    ensures copy != null <==> Shallow(sh, 0)
    ensures copy != null ==> (r <==> ShadowsEqual(Value(sh), caseSensitive))
  {
    ghost var c, made;
    copy, c, made := Duplicate(item, 0, sh, nodes);
    if copy == null {
      return null, false;
    }
    SameValue(sh, c);
    CopyAccepted(Value(sh), caseSensitive);
    r := CompareNodes(item, copy, caseSensitive, sh, c, nodes, made);
  }
}
