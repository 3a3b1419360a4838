/** The child lists of c/cjson/cJSON.c: siblings linked in both directions, where the first one's
  * prev is the last one and the last one's next is null. */
module ChildLists {
  import opened Basics

  datatype Kind = KindNull | KindFalse | KindTrue | KindNumber | KindString | KindArray | KindObject

  /** What a node holds besides its links: type, valuedouble, valuestring and string. */
  datatype Data = Data(kind: Kind, number: real, text: Option<string>, key: Option<string>)

  class Node {
    var next: Node?
    var prev: Node?
    var child: Node?
    const data: Data

    constructor (data: Data)
      ensures next == null && prev == null && child == null && this.data == data
    {
      next, prev, child := null, null, null;
      this.data := data;
    }
  }

  ghost predicate Distinct<T>(s: seq<T>) {
    forall i, j :: 0 <= i < j < |s| ==> s[i] != s[j]
  }

  function NextOf(s: seq<Node>, i: nat): Node?
    requires i < |s|
  {
    if i + 1 < |s| then s[i + 1] else null
  }

  function PrevOf(s: seq<Node>, i: nat): Node
    requires i < |s|
  {
    if i == 0 then s[|s| - 1] else s[i - 1]
  }

  /** The child list that starts at head holds exactly the nodes s. */
  ghost predicate IsList(head: Node?, s: seq<Node>)
    reads s
  {
    && Distinct(s)
    && head == (if s == [] then null else s[0])
    && forall i :: 0 <= i < |s| ==> s[i].next == NextOf(s, i) && s[i].prev == PrevOf(s, i)
  }

  function Optional(n: Node?): set<Node> {
    if n == null then {} else {n}
  }

  lemma AppendedTwice(s: seq<Node>, x: Node)
    requires x in s
    ensures !Distinct(s + [x])
  {
    var i :| 0 <= i < |s| && s[i] == x;
    assert (s + [x])[i] == (s + [x])[|s|];
  }

  /** Linked behind the last node, x ends the list exactly when it points nowhere. */
  lemma AppendedList(s: seq<Node>, x: Node)
    requires s != [] && Distinct(s) && x !in s
    requires forall k :: 0 <= k < |s| ==> s[k].next == if k + 1 == |s| then x else NextOf(s, k)
    requires forall k :: 0 <= k < |s| ==> s[k].prev == if k == 0 then x else PrevOf(s, k)
    requires x.prev == s[|s| - 1]
    ensures IsList(s[0], s + [x]) <==> x.next == null
  {
    var t := s + [x];
    assert t[|s|] == x && NextOf(t, |s|) == null;
    forall k | 0 <= k < |s|
      ensures t[k] == s[k] && t[k].next == NextOf(t, k) && t[k].prev == PrevOf(t, k)
    {
    }
  }

  /** add_item_to_array.  The appended item keeps its next pointer, so what results is a list
    * again exactly when that pointer is null or the list was empty; and an item that is already in
    * the list is not refused. */
  method AddItemToArray(parent: Node?, item: Node?, ghost s: seq<Node>) returns (ok: bool)
    requires parent != null ==> IsList(parent.child, s) && parent !in s
    modifies Optional(parent)`child, Optional(item)`next, Optional(item)`prev, s`next, s`prev
    ensures ok <==> item != null && parent != null && parent != item
    ensures ok ==> (IsList(parent.child, s + [item]) <==> item !in s && (s == [] || old(item.next) == null))
    ensures !ok && parent != null ==> parent.child == old(parent.child) && IsList(parent.child, s)
  {
    if item == null || parent == null || parent == item {
      return false;
    }
    var child := parent.child;
    if child == null {
      parent.child := item;
      item.prev := item;
      item.next := null;
      assert s + [item] == [item];
    } else {
      if child.prev != null {
        SuffixObject(parent, child.prev, item, s);
      }
      if item in s {
        AppendedTwice(s, item);
      } else {
        AppendedList(s, item);
      }
    }
    ok := true;
  }

  /** suffix_object, and the head's prev. */
  method SuffixObject(parent: Node, prev: Node, item: Node, ghost s: seq<Node>)
    requires s != [] && IsList(parent.child, s) && prev == s[|s| - 1]
    modifies item`prev, s`next, s`prev
    ensures parent.child == s[0] && (item !in s ==> item.next == old(item.next) && item.prev == s[|s| - 1])
    ensures item !in s ==> forall k :: 0 <= k < |s| ==> s[k].next == if k + 1 == |s| then item else NextOf(s, k)
    ensures item !in s ==> forall k :: 0 <= k < |s| ==> s[k].prev == if k == 0 then item else PrevOf(s, k)
  {
    hide NextOf, PrevOf;
    prev.next := item;
    item.prev := prev;
    parent.child.prev := item;
  }

  /** cJSON_GetArraySize. */
  method GetArraySize(parent: Node?, ghost s: seq<Node>) returns (size: nat)
    requires parent != null ==> IsList(parent.child, s)
    ensures size == if parent == null then 0 else |s|
  {
    size := 0;
    if parent == null {
      return;
    }
    var child := parent.child;
    while child != null
      invariant size <= |s| && child == (if size < |s| then s[size] else null)
      decreases |s| - size
    {
      size := size + 1;
      child := child.next;
    }
  }

  /** get_array_item. */
  method GetItem(parent: Node?, index0: nat, ghost s: seq<Node>) returns (r: Node?)
    requires parent != null ==> IsList(parent.child, s)
    ensures r == if parent != null && index0 < |s| then s[index0] else null
  {
    if parent == null {
      return null;
    }
    var index := index0;
    r := parent.child;
    while r != null && index > 0
      invariant 0 <= index <= index0 && index0 - index <= |s| && r == (if index0 - index < |s| then s[index0 - index] else null)
    {
      index := index - 1;
      r := r.next;
    }
  }

  function Without<T>(s: seq<T>, i: nat): seq<T>
    requires i < |s|
  {
    s[..i] + s[i + 1..]
  }

  /** The next and prev pointers that detaching leaves in s[k]. */
  function NextAfterDetach(s: seq<Node>, i: nat, k: nat): Node?
    requires i < |s| && k < |s|
  {
    if k == i then null else if k + 1 == i then NextOf(s, i) else NextOf(s, k)
  }

  function PrevAfterDetach(s: seq<Node>, i: nat, k: nat): Node?
    requires i < |s| && k < |s|
  {
    if k == i then null
    else if k == i + 1 then PrevOf(s, i)
    else if k == 0 && i + 1 == |s| then PrevOf(s, i)
    else PrevOf(s, k)
  }

  lemma DetachedLinks(s: seq<Node>, i: nat, k: nat)
    requires i < |s| && k + 1 < |s|
    ensures var t, j := Without(s, i), if k < i then k else k + 1;
            |t| == |s| - 1 && t[k] == s[j] && NextAfterDetach(s, i, j) == NextOf(t, k) && PrevAfterDetach(s, i, j) == PrevOf(t, k)
  {
  }

  lemma DetachedList(head: Node?, s: seq<Node>, i: nat)
    requires i < |s| && Distinct(s)
    requires forall k :: 0 <= k < |s| ==> s[k].next == NextAfterDetach(s, i, k) && s[k].prev == PrevAfterDetach(s, i, k)
    requires head == if i == 0 then NextOf(s, 0) else s[0]
    ensures IsList(head, Without(s, i))
  {
    var t := Without(s, i);
    forall k | 0 <= k < |t|
      ensures t[k].next == NextOf(t, k) && t[k].prev == PrevOf(t, k)
    {
      DetachedLinks(s, i, k);
    }
  }

  /** The nodes of a list point to each other as they should. */
  ghost predicate Linked(s: seq<Node>)
    reads s
  {
    Distinct(s) && forall k :: 0 <= k < |s| ==> s[k].next == NextOf(s, k) && s[k].prev == PrevOf(s, k)
  }

  ghost predicate Separate(s: seq<Node>, t: seq<Node>) {
    forall n :: n in s ==> n !in t
  }

  /** The item is the i-th of its list home: the parent's own list s, or a list of another parent.
    * The last item of another list is no argument when s is empty: the code would follow a null
    * pointer. */
  ghost predicate HomeIs(parent: Node, item: Node, s: seq<Node>, home: seq<Node>, i: nat)
    reads home
  {
    && i < |home| && home[i] == item && Linked(home) && parent !in home
    && (home == s || (Separate(home, s) && (s == [] ==> i + 1 < |home|)))
  }

  /** cJSON_DetachItemViaPointer: for an item of the parent's list, the list without the item; an item
    * of no list changes nothing.  An item of another list is not refused, and both lists are still
    * well linked exactly if it is neither the first nor the last one there. */
  method DetachItem(parent: Node?, item: Node?, ghost s: seq<Node>, ghost home: seq<Node>, ghost i: nat) returns (r: Node?)
    requires parent != null ==> IsList(parent.child, s) && parent !in s
    requires parent != null && item != null ==>
               (home == [] && item !in s && item.prev == null) || HomeIs(parent, item, s, home, i)
    modifies Optional(parent)`child, s`next, s`prev, home`next, home`prev
    ensures r == if parent != null && item != null && home != [] then item else null
    ensures r != null ==> item.next == null && item.prev == null
    ensures r != null && home == s ==> IsList(parent.child, Without(s, i))
    ensures r != null && home != s ==> (IsList(parent.child, s) <==> i + 1 < |home|)
    ensures r != null && home != s ==> (IsList(home[0], Without(home, i)) <==> 0 < i && i + 1 < |home|)
    ensures r == null && parent != null ==> parent.child == old(parent.child) && IsList(parent.child, s)
  {
    if parent == null || item == null || (item != parent.child && item.prev == null) {
      return null;
    }
    HeadAt(parent.child, item, s, home, i);
    Unlink(parent, item, s, home, i);
    if home == s {
      OwnDetached(parent.child, s, i);
    } else {
      StrangerSkipped(s, home, i);
      StrangerDetached(parent.child, s, home, i);
    }
    r := item;
  }

  /** The links that are left when an item of another list is detached. */
  ghost predicate StrangerLinks(s: seq<Node>, home: seq<Node>, i: nat)
    reads s, home
    requires i < |home|
  {
    && (forall k :: 0 <= k < |s| ==>
          s[k].next == NextOf(s, k) && s[k].prev == if k == 0 && i + 1 == |home| then PrevOf(home, i) else PrevOf(s, k))
    && (forall k :: 0 <= k < |home| && k != i ==>
          && home[k].next == (if k + 1 == i || (i == 0 && k + 1 == |home|) then NextOf(home, i) else NextOf(home, k))
          && home[k].prev == (if k == i + 1 then PrevOf(home, i) else PrevOf(home, k)))
    && home[i].next == null && home[i].prev == null
  }

  lemma StrangerDetached(head: Node?, s: seq<Node>, home: seq<Node>, i: nat)
    requires i < |home| && Distinct(home) && Distinct(s) && Separate(home, s) && (s == [] ==> i + 1 < |home|)
    requires head == (if s == [] then null else s[0]) && StrangerLinks(s, home, i)
    ensures IsList(head, s) <==> i + 1 < |home|
    ensures IsList(home[0], Without(home, i)) <==> 0 < i && i + 1 < |home|
  {
    if i + 1 == |home| {
      assert s[0].prev == PrevOf(home, i) && PrevOf(home, i) in home && PrevOf(s, 0) in s;
    }
    var t := Without(home, i);
    if i == 0 {
      assert t != [] ==> t[0] == home[1];
    } else if i + 1 == |home| {
      assert t[0].prev == home[i] && PrevOf(t, 0) == home[i - 1];
    } else {
      DetachedList(home[0], home, i);
    }
  }

  /** The links behind the walk past the item, in its own list and in the parent's; tail says that
    * the parent's head got a new last node. */
  ghost predicate Skipped(s: seq<Node>, home: seq<Node>, i: nat, first: bool, tail: bool)
    reads s, home
    requires i < |home| && (tail ==> s != [])
  {
    && (forall k :: 0 <= k < |home| && k != i ==>
          home[k].next == if !first && home[k] == PrevOf(home, i) then NextOf(home, i) else NextOf(home, k))
    && (forall k :: 0 <= k < |home| && k != i ==>
          home[k].prev == if (tail && home[k] == s[0]) || k == i + 1 then PrevOf(home, i) else PrevOf(home, k))
    && (forall k :: 0 <= k < |s| && s[k] !in home ==>
          s[k].next == NextOf(s, k) && s[k].prev == if tail && k == 0 then PrevOf(home, i) else PrevOf(s, k))
    && home[i].next == null && home[i].prev == null
  }

  method Unlink(parent: Node, item: Node, ghost s: seq<Node>, ghost home: seq<Node>, ghost i: nat)
    requires IsList(parent.child, s) && parent !in s && HomeIs(parent, item, s, home, i)
    modifies parent`child, s`next, s`prev, home`next, home`prev
    ensures Skipped(s, home, i, item == old(parent.child), item != old(parent.child) && i + 1 == |home|)
    ensures parent.child == if item == old(parent.child) then NextOf(home, i) else old(parent.child)
  {
    HeadAt(parent.child, item, s, home, i);
    NextAt(home, i);
    ghost var first := item == parent.child;
    SkipOver(parent, item, s, home, i);
    hide SkippedOver, Skipped, NextOf, PrevOf, Linked, IsList, Distinct;
    FixEnds(parent, item, s, home, i, first);
  }

  /** The links when the siblings on either side point past the item. */
  ghost predicate SkippedOver(s: seq<Node>, home: seq<Node>, i: nat, first: bool)
    reads s, home
    requires i < |home|
  {
    && (forall k :: 0 <= k < |home| ==>
          home[k].next == if !first && home[k] == PrevOf(home, i) then NextOf(home, i) else NextOf(home, k))
    && (forall k :: 0 <= k < |home| ==> home[k].prev == if k == i + 1 then PrevOf(home, i) else PrevOf(home, k))
    && (forall k :: 0 <= k < |s| && s[k] !in home ==> s[k].next == NextOf(s, k) && s[k].prev == PrevOf(s, k))
  }

  method SkipOver(parent: Node, item: Node, ghost s: seq<Node>, ghost home: seq<Node>, ghost i: nat)
    requires Linked(s) && Linked(home) && i < |home| && home[i] == item
    modifies home`next, home`prev
    ensures SkippedOver(s, home, i, item == parent.child)
    ensures item.next == NextOf(home, i) && item.prev == PrevOf(home, i)
  {
    hide NextOf, PrevOf, Distinct;
    SkipLeft(parent, item, home, i);
    SkipRight(item, home, i);
  }

  lemma OwnDetached(head: Node?, s: seq<Node>, i: nat)
    requires Distinct(s) && i < |s| && Skipped(s, s, i, i == 0, i != 0 && i + 1 == |s|)
    requires head == if i == 0 then NextOf(s, 0) else s[0]
    ensures IsList(head, Without(s, i))
  {
    NextAt(s, i);
    DetachedList(head, s, i);
  }

  lemma StrangerSkipped(s: seq<Node>, home: seq<Node>, i: nat)
    requires i < |home| && Distinct(home) && Separate(home, s) && (i + 1 == |home| ==> s != [])
    requires Skipped(s, home, i, false, i + 1 == |home|)
    ensures StrangerLinks(s, home, i)
  {
    NextAt(home, i);
    assert forall k :: 0 <= k < |s| ==> s[k] in s;
  }

  lemma HeadAt(head: Node?, item: Node, s: seq<Node>, home: seq<Node>, i: nat)
    requires Distinct(s) && head == (if s == [] then null else s[0]) && i < |home| && home[i] == item
    ensures home == s ==> (item == head <==> i == 0)
    ensures home != s && Separate(home, s) ==> item != head
  {
    assert item in home && (s != [] ==> head in s);
  }

  /** Where the left neighbour, or the last node, is. */
  lemma NextAt(home: seq<Node>, i: nat)
    requires Distinct(home) && i < |home|
    ensures NextOf(home, i) == null <==> i + 1 == |home|
    ensures forall k :: 0 <= k < |home| ==> (home[k] == PrevOf(home, i) <==> if i == 0 then k + 1 == |home| else k + 1 == i)
  {
  }

  /** The left neighbour points past the item. */
  method SkipLeft(parent: Node, item: Node, ghost home: seq<Node>, ghost i: nat)
    requires Linked(home) && i < |home| && home[i] == item
    modifies home`next
    ensures forall k :: 0 <= k < |home| ==>
              home[k].next == if item != parent.child && home[k] == PrevOf(home, i) then NextOf(home, i) else NextOf(home, k)
  {
    assert PrevOf(home, i) in home && item.prev == PrevOf(home, i) && item.next == NextOf(home, i);
    hide NextOf, PrevOf, Distinct;
    if item != parent.child {
      item.prev.next := item.next;
    }
  }

  /** The right neighbour points past the item. */
  method SkipRight(item: Node, ghost home: seq<Node>, ghost i: nat)
    requires Distinct(home) && i < |home| && home[i] == item && item.next == NextOf(home, i)
    requires forall k :: 0 <= k < |home| ==> home[k].prev == PrevOf(home, k)
    modifies home`prev
    ensures forall k :: 0 <= k < |home| ==> home[k].prev == if k == i + 1 then PrevOf(home, i) else PrevOf(home, k)
  {
    assert item.prev == PrevOf(home, i);
    assert if i + 1 < |home| then item.next == home[i + 1] else item.next == null;
    hide NextOf, PrevOf;
    if item.next != null {
      item.next.prev := item.prev;
    }
  }

  /** The head moves on when the first item goes, and has a new tail when the last one goes; the
    * item then points nowhere. */
  method FixEnds(parent: Node, item: Node, ghost s: seq<Node>, ghost home: seq<Node>, ghost i: nat, ghost first: bool)
    requires Distinct(s) && Distinct(home) && i < |home| && home[i] == item && parent.child == (if s == [] then null else s[0])
    requires SkippedOver(s, home, i, first) && first == (item == parent.child)
    requires item.next == NextOf(home, i) && item.prev == PrevOf(home, i) && (item.next == null <==> i + 1 == |home|)
    requires item.next == null ==> s != []
    modifies parent`child, item`next, item`prev, s`prev
    ensures parent.child == if first then NextOf(home, i) else old(parent.child)
    ensures Skipped(s, home, i, first, !first && i + 1 == |home|)
  {
    hide NextOf, PrevOf;
    if item == parent.child {
      parent.child := item.next;
    } else if item.next == null {
      parent.child.prev := item.prev;
    }
    item.prev := null;
    item.next := null;
  }

  /** cJSON_DetachItemFromArray. */
  method DetachItemFromArray(parent: Node?, which: int, ghost s: seq<Node>) returns (r: Node?)
    requires parent != null ==> IsList(parent.child, s) && parent !in s
    modifies Optional(parent)`child, s`next, s`prev
    ensures r == if parent != null && 0 <= which < |s| then s[which] else null
    ensures r != null ==> IsList(parent.child, Without(s, which)) && r.next == null && r.prev == null
    ensures r == null && parent != null ==> parent.child == old(parent.child) && IsList(parent.child, s)
  {
    if which < 0 {
      return null;
    }
    var item := GetItem(parent, which, s);
    r := DetachItem(parent, item, s, if item == null then [] else s, which);
  }

  function Inserted<T>(s: seq<T>, i: nat, x: T): seq<T>
    requires i <= |s|
  {
    s[..i] + [x] + s[i..]
  }

  /** The next and prev pointers that inserting x in front of s[i] leaves in s[k]. */
  function NextAfterInsert(s: seq<Node>, i: nat, x: Node, k: nat): Node?
    requires i < |s| && k < |s|
  {
    if k + 1 == i then x else NextOf(s, k)
  }

  function PrevAfterInsert(s: seq<Node>, i: nat, x: Node, k: nat): Node?
    requires i < |s| && k < |s|
  {
    if k == i then x else PrevOf(s, k)
  }

  lemma InsertedLinks(s: seq<Node>, i: nat, x: Node, k: nat)
    requires i < |s| && k < |s|
    ensures var t, j := Inserted(s, i, x), if k < i then k else k + 1;
            && |t| == |s| + 1 && t[j] == s[k] && t[i] == x
            && NextAfterInsert(s, i, x, k) == NextOf(t, j) && PrevAfterInsert(s, i, x, k) == PrevOf(t, j)
            && NextOf(t, i) == s[i] && PrevOf(t, i) == PrevOf(s, i)
  {
  }

  lemma InsertedDistinct(s: seq<Node>, i: nat, x: Node)
    requires i < |s| && Distinct(s) && x !in s
    ensures Distinct(Inserted(s, i, x)) && Inserted(s, i, x)[0] == (if i == 0 then x else s[0])
  {
  }

  lemma InsertedList(head: Node?, s: seq<Node>, i: nat, x: Node)
    requires i < |s| && Distinct(s) && x !in s
    requires forall k :: 0 <= k < |s| ==> s[k].next == NextAfterInsert(s, i, x, k) && s[k].prev == PrevAfterInsert(s, i, x, k)
    requires x.next == s[i] && x.prev == PrevOf(s, i)
    requires head == if i == 0 then x else s[0]
    ensures IsList(head, Inserted(s, i, x))
  {
    var t := Inserted(s, i, x);
    InsertedDistinct(s, i, x);
    hide NextAfterInsert, PrevAfterInsert, NextOf, PrevOf, Inserted, Distinct;
    forall j | 0 <= j < |t|
      ensures t[j].next == NextOf(t, j) && t[j].prev == PrevOf(t, j)
    {
      InsertedLinks(s, i, x, if j < i then j else if j == i then i else j - 1);
    }
  }

  lemma InsertedTwice(s: seq<Node>, i: nat, x: Node)
    requires i < |s| && x in s
    ensures !Distinct(Inserted(s, i, x))
  {
    var t := Inserted(s, i, x);
    var k :| 0 <= k < |s| && s[k] == x;
    assert t[i] == x && t[if k < i then k else k + 1] == x;
  }

  /** cJSON_InsertItemInArray: in front of the item at an index, or at the end.  In front of an item
    * nothing is refused: neither an item that is already in the list nor the array itself. */
  method InsertItemInArray(parent: Node?, which: int, item: Node?, ghost s: seq<Node>) returns (ok: bool)
    requires parent != null ==> IsList(parent.child, s) && parent !in s
    modifies Optional(parent)`child, Optional(item)`next, Optional(item)`prev, s`next, s`prev
    ensures ok <==> which >= 0 && item != null && parent != null && (item == parent ==> which < |s|)
    ensures ok && which < |s| ==> (IsList(parent.child, Inserted(s, which, item)) <==> item !in s)
    ensures ok && which >= |s| ==>
              (IsList(parent.child, s + [item]) <==> item !in s && (s == [] || old(item.next) == null))
    ensures !ok && parent != null ==> parent.child == old(parent.child) && IsList(parent.child, s)
  {
    if which < 0 || item == null {
      return false;
    }
    var after := GetItem(parent, which, s);
    if after == null {
      ok := AddItemToArray(parent, item, s);
      return;
    }
    if after != parent.child && after.prev == null {
      return false;
    }
    LinkBefore(parent, after, item, s, which);
    if item in s {
      InsertedTwice(s, which, item);
    } else {
      InsertedList(parent.child, s, which, item);
    }
    ok := true;
  }

  method LinkBefore(parent: Node, after: Node, item: Node, ghost s: seq<Node>, ghost i: nat)
    requires IsList(parent.child, s) && i < |s| && s[i] == after
    modifies parent`child, item`next, item`prev, s`next, s`prev
    ensures item !in s ==> forall k :: 0 <= k < |s| ==>
              s[k].next == NextAfterInsert(s, i, item, k) && s[k].prev == PrevAfterInsert(s, i, item, k)
    ensures item !in s ==> item.next == s[i] && item.prev == PrevOf(s, i)
    ensures item !in s ==> parent.child == if i == 0 then item else s[0]
  {
    hide NextOf, PrevOf;
    StepInFront(after, item, s, i);
    LinkFromLeft(parent, after, item, s, i);
  }

  /** The item points to its new neighbours, and the right one back to it. */
  method StepInFront(after: Node, item: Node, ghost s: seq<Node>, ghost i: nat)
    requires Distinct(s) && i < |s| && s[i] == after
    requires forall k :: 0 <= k < |s| ==> s[k].next == NextOf(s, k) && s[k].prev == PrevOf(s, k)
    modifies item`next, item`prev, s`prev
    ensures item !in s ==> forall k :: 0 <= k < |s| ==> s[k].next == NextOf(s, k) && s[k].prev == PrevAfterInsert(s, i, item, k)
    ensures item !in s ==> item.next == s[i] && item.prev == PrevOf(s, i)
    ensures item.prev != null && (item.prev == item || item.prev in s)
  {
    assert PrevOf(s, i) in s;
    hide NextOf, PrevOf;
    assert after.prev == PrevOf(s, i);
    item.next := after;
    item.prev := after.prev;
    after.prev := item;
  }

  /** The left neighbour, or the parent, points to the item. */
  method LinkFromLeft(parent: Node, after: Node, item: Node, ghost s: seq<Node>, ghost i: nat)
    requires Distinct(s) && i < |s| && s[i] == after && parent.child == s[0]
    requires item.prev != null && (item.prev == item || item.prev in s)
    requires item !in s ==> item.prev == PrevOf(s, i) && forall k :: 0 <= k < |s| ==> s[k].next == NextOf(s, k)
    modifies parent`child, item`next, s`next
    ensures item !in s ==> item.next == old(item.next)
    ensures item !in s ==> forall k :: 0 <= k < |s| ==> s[k].next == NextAfterInsert(s, i, item, k)
    ensures item !in s ==> parent.child == if i == 0 then item else s[0]
  {
    assert i > 0 ==> PrevOf(s, i) == s[i - 1];
    assert PrevOf(s, i) in s;
    hide NextOf, PrevOf;
    if after == parent.child {
      parent.child := item;
    } else {
      item.prev.next := item;
    }
  }

  /** The next and prev pointers that putting x in the place of s[i] leaves in s[k]. */
  function NextAfterReplace(s: seq<Node>, i: nat, x: Node, k: nat): Node?
    requires i < |s| && k < |s|
  {
    if k == i then null else if k + 1 == i then x else NextOf(s, k)
  }

  function PrevAfterReplace(s: seq<Node>, i: nat, x: Node, k: nat): Node?
    requires i < |s| && k < |s|
  {
    if k == i then null
    else if k == i + 1 || (k == 0 && i + 1 == |s|) then x
    else PrevOf(s, k)
  }

  lemma ReplacedList(head: Node?, s: seq<Node>, i: nat, x: Node)
    requires i < |s| && Distinct(s) && x !in s
    requires forall k :: 0 <= k < |s| && k != i ==>
               s[k].next == NextAfterReplace(s, i, x, k) && s[k].prev == PrevAfterReplace(s, i, x, k)
    requires x.next == NextOf(s, i) && x.prev == (if |s| == 1 then x else PrevOf(s, i))
    requires head == if i == 0 then x else s[0]
    ensures IsList(head, s[i := x])
  {
    var t := s[i := x];
    assert Distinct(t);
    forall k | 0 <= k < |t|
      ensures t[k].next == NextOf(t, k) && t[k].prev == PrevOf(t, k)
    {
      assert k != i ==> t[k] == s[k];
    }
  }

  lemma ReplacedTwice(s: seq<Node>, i: nat, x: Node)
    requires i < |s| && x in s && x != s[i]
    ensures !Distinct(s[i := x])
  {
    var k :| 0 <= k < |s| && s[k] == x;
    assert s[i := x][i] == s[i := x][k] && k != i;
  }

  /** What cJSON_ReplaceItemViaPointer does to the links.  A replacement that is already in the list
    * is not refused. */
  method ReplaceLinks(parent: Node, item: Node, replacement: Node, ghost s: seq<Node>, ghost i: nat)
    requires IsList(parent.child, s) && parent !in s && i < |s| && s[i] == item && replacement != item
    modifies parent`child, replacement`next, replacement`prev, s`next, s`prev
    ensures IsList(parent.child, s[i := replacement]) <==> replacement !in s
    ensures item.next == null && item.prev == null
    ensures replacement !in s ==> replacement.next == NextOf(s, i) && forall k :: i < k < |s| ==> s[k].next == NextOf(s, k)
  {
    PutInPlace(parent, item, replacement, s, i);
    if replacement in s {
      ReplacedTwice(s, i, replacement);
    } else {
      ReplacedList(parent.child, s, i, replacement);
    }
  }

  method PutInPlace(parent: Node, item: Node, replacement: Node, ghost s: seq<Node>, ghost i: nat)
    requires IsList(parent.child, s) && i < |s| && s[i] == item && replacement != item
    modifies parent`child, replacement`next, replacement`prev, s`next, s`prev
    ensures item.next == null && item.prev == null
    ensures replacement !in s ==> forall k :: 0 <= k < |s| ==>
              s[k].next == NextAfterReplace(s, i, replacement, k) && s[k].prev == PrevAfterReplace(s, i, replacement, k)
    ensures replacement !in s ==> replacement.next == NextOf(s, i)
    ensures replacement !in s ==> replacement.prev == if |s| == 1 then replacement else PrevOf(s, i)
    ensures replacement !in s ==> parent.child == if i == 0 then replacement else s[0]
  {
    hide NextOf, PrevOf;
    CopyLinks(item, replacement, s, i);
    LinkAround(parent, item, replacement, s, i);
    item.next := null;
    item.prev := null;
  }

  /** The replacement takes over the item's links, and the next sibling points back to it. */
  method CopyLinks(item: Node, replacement: Node, ghost s: seq<Node>, ghost i: nat)
    requires Linked(s) && i < |s| && s[i] == item && replacement != item
    modifies replacement`next, replacement`prev, s`prev
    ensures replacement.prev != null && (replacement.prev == replacement || replacement.prev in s)
    ensures replacement !in s ==> forall k :: 0 <= k < |s| ==>
              s[k].next == NextOf(s, k) && s[k].prev == if k == i + 1 then replacement else PrevOf(s, k)
    ensures replacement !in s ==> replacement.next == NextOf(s, i) && replacement.prev == PrevOf(s, i)
  {
    assert PrevOf(s, i) in s && item.next == NextOf(s, i) && item.prev == PrevOf(s, i);
    hide PrevOf, NextOf, Distinct;
    replacement.next := item.next;
    replacement.prev := item.prev;
    PointBack(replacement, s, i);
  }

  method PointBack(replacement: Node, ghost s: seq<Node>, ghost i: nat)
    requires Distinct(s) && i < |s| && replacement.next == NextOf(s, i)
    modifies s`prev
    ensures forall k :: 0 <= k < |s| ==> s[k].prev == if k == i + 1 then replacement else old(s[k].prev)
    ensures replacement.prev == replacement || replacement.prev == old(replacement.prev)
  {
    assert if i + 1 < |s| then replacement.next == s[i + 1] else replacement.next == null;
    hide NextOf;
    if replacement.next != null {
      replacement.next.prev := replacement;
    }
  }

  /** The previous sibling, or the parent, points to the replacement, and the head to a new tail. */
  method LinkAround(parent: Node, item: Node, replacement: Node, ghost s: seq<Node>, ghost i: nat)
    requires Distinct(s) && i < |s| && s[i] == item && replacement != item && parent.child == s[0]
    requires replacement.prev != null && (replacement.prev == replacement || replacement.prev in s)
    requires replacement !in s ==> forall k :: 0 <= k < |s| ==>
               s[k].next == NextOf(s, k) && s[k].prev == if k == i + 1 then replacement else PrevOf(s, k)
    requires replacement !in s ==> replacement.next == NextOf(s, i) && replacement.prev == PrevOf(s, i)
    modifies parent`child, replacement`prev, replacement`next, s`next, s`prev
    ensures replacement !in s ==> forall k :: 0 <= k < |s| && k != i ==>
              s[k].next == NextAfterReplace(s, i, replacement, k) && s[k].prev == PrevAfterReplace(s, i, replacement, k)
    ensures replacement !in s ==> replacement.next == old(replacement.next)
    ensures replacement !in s ==> replacement.prev == if |s| == 1 then replacement else PrevOf(s, i)
    ensures replacement !in s ==> parent.child == if i == 0 then replacement else s[0]
  {
    assert parent.child == item <==> i == 0;
    assert replacement !in s ==> (s[0].prev == s[0] <==> |s| == 1);
    if parent.child == item {
      if parent.child.prev == parent.child {
        replacement.prev := replacement;
      }
      parent.child := replacement;
    } else {
      if replacement.prev != null {
        replacement.prev.next := replacement;
      }
      if replacement.next == null {
        parent.child.prev := replacement;
      }
    }
  }
}
