/** cJSON_ReplaceItemViaPointer of c/cjson/cJSON.c: the links, and then the deletion of the replaced
  * item, also when the replacement hangs below it. */
module TreeReplacements {
  import opened ChildLists
  import opened Trees
  import opened TreeCopies

  /** The trees of a row after x, one of their nodes, has been linked to another row: the siblings
    * that used to follow x are no longer reached. */
  function Regraft(kids: seq<Shape>, x: Node, rest: seq<Shape>): seq<Shape>
    requires x in Under(kids)
    decreases kids
  {
    if kids[0].node == x then [kids[0]] + rest
    else if x in Under(kids[0].kids) then [Shape(kids[0].node, Regraft(kids[0].kids, x, rest))] + kids[1..]
    else [kids[0]] + Regraft(kids[1..], x, rest)
  }

  /** A row, but for where x points. */
  ghost predicate RowBut(kids: seq<Shape>, x: Node)
    reads Under(kids)`child, (Under(kids) - {x})`next
    decreases kids, 0
  {
    kids == [] ||
    (&& HangsBut(kids[0], x) && (kids[0].node != x ==> kids[0].node.next == NodeAt(kids, 1))
     && Nodes(kids[0]) !! Under(kids[1..]) && RowBut(kids[1..], x))
  }

  ghost predicate HangsBut(sh: Shape, x: Node)
    reads sh.node`child, Under(sh.kids)`child, (Under(sh.kids) - {x})`next
    decreases sh, 1
  {
    sh.node !in Under(sh.kids) && sh.node.child == NodeAt(sh.kids, 0) && RowBut(sh.kids, x)
  }

  lemma {:induction false} RowIsRowBut(kids: seq<Shape>, x: Node)
    requires Row(kids)
    ensures RowBut(kids, x)
    decreases kids
  {
    if kids != [] {
      RowIsRowBut(kids[0].kids, x);
      RowIsRowBut(kids[1..], x);
    }
  }

  lemma {:induction false} RowButElsewhere(kids: seq<Shape>, x: Node)
    requires RowBut(kids, x) && x !in Under(kids)
    ensures Row(kids)
    decreases kids
  {
    if kids != [] {
      RowButElsewhere(kids[0].kids, x);
      RowButElsewhere(kids[1..], x);
    }
  }

  lemma {:induction false} RegraftNodes(kids: seq<Shape>, x: Node, rest: seq<Shape>)
    requires x in Under(kids)
    ensures Under(Regraft(kids, x, rest)) <= Under(kids) + Under(rest)
    ensures x in Under(Regraft(kids, x, rest)) && Under(rest) <= Under(Regraft(kids, x, rest))
    ensures NodeAt(Regraft(kids, x, rest), 0) == NodeAt(kids, 0)
    decreases kids
  {
    if kids[0].node == x {
      assert ([kids[0]] + rest)[1..] == rest;
    } else if x in Under(kids[0].kids) {
      RegraftNodes(kids[0].kids, x, rest);
      var grafted := Shape(kids[0].node, Regraft(kids[0].kids, x, rest));
      assert ([grafted] + kids[1..])[1..] == kids[1..];
    } else {
      RegraftNodes(kids[1..], x, rest);
      var later := Regraft(kids[1..], x, rest);
      assert ([kids[0]] + later)[1..] == later;
    }
  }

  lemma RowCons(head: Shape, later: seq<Shape>)
    requires Hangs(head) && Row(later) && head.node.next == NodeAt(later, 0) && Nodes(head) !! Under(later)
    ensures Row([head] + later)
  {
    assert ([head] + later)[1..] == later;
  }

  /** Linking x to another row yields the regrafted row. */
  lemma {:induction false} RegraftIsRow(kids: seq<Shape>, x: Node, rest: seq<Shape>)
    requires x in Under(kids) && RowBut(kids, x) && Row(rest) && Under(rest) !! Under(kids)
    requires x.next == NodeAt(rest, 0)
    ensures Row(Regraft(kids, x, rest))
    decreases kids
  {
    var head, later := kids[0], kids[1..];
    if head.node == x {
      RowButElsewhere(head.kids, x);
      RowCons(head, rest);
    } else if x in Under(head.kids) {
      RegraftNodes(head.kids, x, rest);
      RegraftIsRow(head.kids, x, rest);
      RowButElsewhere(later, x);
      RowCons(Shape(head.node, Regraft(head.kids, x, rest)), later);
    } else {
      RegraftNodes(later, x, rest);
      RegraftIsRow(later, x, rest);
      RowButElsewhere(head.kids, x);
      RowCons(head, Regraft(later, x, rest));
    }
  }

  /** What is deleted with the item when x takes its place among the trees shs. */
  function Doomed(shs: seq<Shape>, i: nat, x: Node): Shape
    requires i < |shs|
  {
    var sh := shs[i];
    if x in Under(sh.kids) then Shape(sh.node, Regraft(sh.kids, x, shs[i + 1..])) else sh
  }

  /** The i-th tree and the later ones share nothing with the roots of the others. */
  lemma {:induction false} TreesApart(shs: seq<Shape>, i: nat)
    requires Forest(shs) && i < |shs|
    ensures Tree(shs[i]) && Forest(shs[i + 1..]) && Nodes(shs[i]) !! Under(shs[i + 1..])
    ensures Nodes(shs[i]) <= Under(shs) && Under(shs[i + 1..]) <= Under(shs)
    ensures Inner(shs[i + 1..]) <= Inner(shs) && Under(shs[i].kids) <= Inner(shs)
    decreases i
  {
    FirstInside(shs);
    if i == 0 {
      assert shs[1..] == shs[i + 1..];
    } else {
      TreesApart(shs[1..], i - 1);
      assert shs[1..][i..] == shs[i + 1..];
    }
  }

  /** The later roots, as long as they point to each other, lead a row. */
  lemma RestIsRow(shs: seq<Shape>, i: nat)
    requires i < |shs| && Forest(shs[i + 1..])
    requires forall k :: i < k < |shs| ==> Roots(shs)[k].next == NextOf(Roots(shs), k)
    ensures Row(shs[i + 1..]) && NodeAt(shs[i + 1..], 0) == NextOf(Roots(shs), i)
  {
    var rest := shs[i + 1..];
    forall k | 0 <= k < |rest|
      ensures Roots(rest)[k].next == NextOf(Roots(rest), k)
    {
      assert Roots(shs)[i + 1 + k].next == NextOf(Roots(shs), i + 1 + k);
    }
    ChainIsRow(rest);
  }

  lemma Alone(sh: Shape)
    requires Hangs(sh) && sh.node.next == null
    ensures Row([sh]) && Under([sh]) == Nodes(sh)
  {
    assert [sh][1..] == [];
  }

  /** What the deletion will rely on, when x hangs below the i-th root also of the later trees: nothing
    * of it depends on where x and the roots point. */
  ghost predicate Ready(shs: seq<Shape>, i: nat, x: Node)
    requires i < |shs|
    reads shs[i].node`child, Under(shs[i].kids)`child, (Under(shs[i].kids) - {x})`next
    reads RootSet(shs[i + 1..])`child, if x in Under(shs[i].kids) then Inner(shs[i + 1..]) else {}
  {
    && HangsBut(shs[i], x)
    && (x in Under(shs[i].kids) ==> Forest(shs[i + 1..]) && Nodes(shs[i]) !! Under(shs[i + 1..]))
  }

  /** After the links have been changed, the item leads what is doomed. */
  lemma DoomedHangs(shs: seq<Shape>, i: nat, x: Node)
    requires i < |shs| && Ready(shs, i, x)
    requires x in Under(shs[i].kids) ==>
               && (forall k :: i < k < |shs| ==> Roots(shs)[k].next == NextOf(Roots(shs), k))
               && x.next == NextOf(Roots(shs), i)
    ensures Hangs(Doomed(shs, i, x)) && Doomed(shs, i, x).node == shs[i].node
    ensures Nodes(Doomed(shs, i, x)) <= Nodes(shs[i]) + Under(shs[i + 1..])
  {
    if x in Under(shs[i].kids) {
      RestIsRow(shs, i);
      RegraftNodes(shs[i].kids, x, shs[i + 1..]);
      RegraftIsRow(shs[i].kids, x, shs[i + 1..]);
    } else {
      RowButElsewhere(shs[i].kids, x);
    }
  }

  lemma ReadyBefore(parent: Node, shs: seq<Shape>, i: nat, x: Node)
    requires Tree(Shape(parent, shs)) && i < |shs|
    ensures Ready(shs, i, x) && IsList(parent.child, Roots(shs)) && parent !in Under(shs)
    ensures parent !in Roots(shs) && Roots(shs)[i] == shs[i].node && shs[i].node in Nodes(shs[i])
    ensures forall n :: n in Roots(shs) ==> n in Under(shs) && n !in Under(shs[i].kids) && n !in Inner(shs[i + 1..])
    ensures RootSet(shs[i + 1..]) + Inner(shs[i + 1..]) == Under(shs[i + 1..]) <= Under(shs)
    ensures Nodes(shs[i]) <= Under(shs) && Nodes(shs[i]) !! Under(shs[i + 1..])
  {
    TreesApart(shs, i);
    RootsOutside(shs);
    RootsInside(shs);
    RootsInside(shs[i + 1..]);
    TreeHangs(shs[i]);
    RowIsRowBut(shs[i].kids, x);
    assert forall n :: n in Roots(shs) ==> n in RootSet(shs);
  }

  /** The links change, and the item then leads what is doomed. */
  method Relink(parent: Node, item: Node, replacement: Node, ghost shs: seq<Shape>, ghost nodes: set<Node>, ghost i: nat)
    requires Tree(Shape(parent, shs)) && nodes == Under(shs) && i < |shs| && shs[i].node == item && replacement != item
    modifies parent`child, replacement`next, replacement`prev, Roots(shs)`next, Roots(shs)`prev
    ensures IsList(parent.child, Roots(shs)[i := replacement]) <==> replacement !in Roots(shs)
    ensures Hangs(Doomed(shs, i, replacement)) && Doomed(shs, i, replacement).node == item && item.next == null
    ensures Nodes(Doomed(shs, i, replacement)) <= nodes
  {
    hide Tree, Ready, Hangs, IsList, Under, Inner, RootSet, Doomed, NextOf, Roots, Forest;
    ghost var s := Roots(shs);
    ReadyBefore(parent, shs, i, replacement);
    ReplaceLinks(parent, item, replacement, s, i);
    DoomedHangs(shs, i, replacement);
  }

  /** A list with no freed node in it. */
  ghost predicate Intact(head: Node?, s: seq<Node>, freed: seq<Piece>)
    reads s
  {
    IsList(head, s) && forall n :: n in s ==> Whole(n) !in freed
  }

  /** When x hangs below the item, deleting the item takes x with it, and all later items. */
  lemma ReplacementFreed(shs: seq<Shape>, i: nat, x: Node)
    requires i < |shs| && x in Under(shs[i].kids) && Row([Doomed(shs, i, x)])
    ensures Whole(x) in DeleteOrder([Doomed(shs, i, x)])
    ensures forall k :: i < k < |shs| ==> Whole(shs[k].node) in DeleteOrder([Doomed(shs, i, x)])
  {
    var sh, rest := Doomed(shs, i, x), shs[i + 1..];
    RegraftNodes(shs[i].kids, x, rest);
    FreedOnce([sh]);
    RootsInside(rest);
    forall n | n in Under(sh.kids)
      ensures Whole(n) in DeleteOrder([sh])
    {
      assert Owned([sh], Whole(n));
    }
    forall k | i < k < |shs|
      ensures shs[k].node in Under(rest)
    {
      assert Roots(rest)[k - i - 1] == shs[k].node;
    }
  }

  /** What becomes of the list that is left. */
  lemma Fates(shs: seq<Shape>, i: nat, x: Node, freed: seq<Piece>)
    requires i < |shs| && x != shs[i].node && Row([Doomed(shs, i, x)]) && freed == DeleteOrder([Doomed(shs, i, x)])
    requires Distinct(Roots(shs)) && forall n :: n in Roots(shs) ==> n !in Under(shs[i].kids)
    ensures (forall n :: n in Roots(shs)[i := x] ==> Whole(n) !in freed) <==> x !in Under(shs[i].kids)
  {
    var s := Roots(shs);
    if x in Under(shs[i].kids) {
      ReplacementFreed(shs, i, x);
      assert s[i := x][i] == x;
    } else {
      FreedOnce([shs[i]]);
      assert [shs[i]][1..] == [];
      forall n | n in s[i := x]
        ensures Whole(n) !in freed
      {
        var k :| 0 <= k < |s| && s[i := x][k] == n;
        assert k != i ==> n == s[k] != s[i];
        assert n !in Under([shs[i]]);
      }
    }
  }

  lemma RootsDistinct(parent: Node, shs: seq<Shape>)
    requires Tree(Shape(parent, shs))
    ensures Distinct(Roots(shs))
  {
  }

  method ReplaceAndDelete(parent: Node, item: Node, replacement: Node, ghost shs: seq<Shape>, ghost nodes: set<Node>,
                          ghost i: nat)
    returns (freed: seq<Piece>)
    requires Tree(Shape(parent, shs)) && nodes == Under(shs) && i < |shs| && shs[i].node == item && replacement != item
    modifies parent`child, replacement`next, replacement`prev, Roots(shs)`next, Roots(shs)`prev
    ensures IsList(parent.child, Roots(shs)[i := replacement]) <==> replacement !in Roots(shs)
    ensures freed == DeleteOrder([Doomed(shs, i, replacement)])
    ensures Intact(parent.child, Roots(shs)[i := replacement], freed) <==>
              replacement !in Roots(shs) && replacement !in Under(shs[i].kids)
  {
    hide Tree, Hangs, IsList, Under, Doomed, Row, DeleteOrder, Ready, Distinct, Inner, RootSet, Forest;
    ghost var sh := Doomed(shs, i, replacement);
    ReadyBefore(parent, shs, i, replacement);
    RootsDistinct(parent, shs);
    Relink(parent, item, replacement, shs, nodes, i);
    Alone(sh);
    ghost var gone;
    freed, gone := Delete(item, [sh], Nodes(sh), {});
    Fates(shs, i, replacement, freed);
  }

  /** cJSON_ReplaceItemViaPointer: the replaced item is unlinked and deleted with what it then leads
    * to.  The list with the replacement in the item's place is well linked and nothing of it is freed
    * exactly if the replacement is the item itself, or neither another item of the list nor below
    * the replaced one. */
  method ReplaceItemViaPointer(parent: Node?, item: Node?, replacement: Node?, ghost shs: seq<Shape>,
                               ghost nodes: set<Node>, ghost i: nat)
    returns (ok: bool, freed: seq<Piece>)
    requires parent != null ==> Tree(Shape(parent, shs)) && nodes == Under(shs)
    requires parent != null && parent.child != null && item != null ==> i < |shs| && shs[i].node == item
    modifies Optional(parent)`child, Optional(replacement)`next, Optional(replacement)`prev
    modifies Roots(shs)`next, Roots(shs)`prev
    ensures ok <==> parent != null && old(parent.child) != null && item != null && replacement != null
    ensures ok ==> (IsList(parent.child, Roots(shs)[i := replacement]) <==>
                      replacement == item || replacement !in Roots(shs))
    ensures ok ==> (Intact(parent.child, Roots(shs)[i := replacement], freed) <==>
                      replacement == item || (replacement !in Roots(shs) && replacement !in Under(shs[i].kids)))
    ensures freed == if ok && replacement != item then DeleteOrder([Doomed(shs, i, replacement)]) else []
    ensures !ok && parent != null ==> Tree(Shape(parent, shs))
  {
    freed := [];
    if parent == null || parent.child == null || replacement == null || item == null {
      return false, [];
    }
    ok := true;
    if replacement == item {
      assert Roots(shs)[i := replacement] == Roots(shs);
      return;
    }
    freed := ReplaceAndDelete(parent, item, replacement, shs, nodes, i);
  }

  /** cJSON_ReplaceItemInArray. */
  method ReplaceItemInArray(parent: Node?, which: int, replacement: Node?, ghost shs: seq<Shape>, ghost nodes: set<Node>)
    returns (ok: bool, freed: seq<Piece>)
    requires parent != null ==> Tree(Shape(parent, shs)) && nodes == Under(shs)
    modifies Optional(parent)`child, Optional(replacement)`next, Optional(replacement)`prev
    modifies Roots(shs)`next, Roots(shs)`prev
    ensures ok <==> parent != null && 0 <= which < |shs| && replacement != null
    ensures ok ==> (Intact(parent.child, Roots(shs)[which := replacement], freed) <==>
                      replacement == shs[which].node
                      || (replacement !in Roots(shs) && replacement !in Under(shs[which].kids)))
    ensures freed == if ok && replacement != shs[which].node then DeleteOrder([Doomed(shs, which, replacement)]) else []
    ensures !ok && parent != null ==> Tree(Shape(parent, shs))
  {
    if which < 0 {
      return false, [];
    }
    if parent != null {
      RootsInside(shs);
    }
    var item := GetItem(parent, which, Roots(shs));
    if item == null {
      return false, [];
    }
    ok, freed := ReplaceItemViaPointer(parent, item, replacement, shs, nodes, which);
  }
}
