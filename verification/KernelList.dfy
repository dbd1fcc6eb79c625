/** The linked structure of tests/FreeRTOS/list.c and list.h: a circular doubly linked list
 *  around an end marker, proved to behave like the rings of ListModel. */
module KernelList {
  import opened ListModel

  class ListItem {
    var xItemValue: word
    var pxNext: ListItem?
    var pxPrevious: ListItem?
    var pvOwner: object?
    var pxContainer: List?

    constructor (value: word, owner: object?)
      ensures xItemValue == value && pvOwner == owner && pxContainer == null
    {
      xItemValue, pvOwner, pxNext, pxPrevious, pxContainer := value, owner, null, null, null;
    }
  }

  // ----- rings of nodes: the end marker e, then the items s -----

  /** Node 0 is the end marker, node i is the i-th item. */
  ghost function Node(e: ListItem, s: seq<ListItem>, i: nat): ListItem
    requires i <= |s|
  {
    if i == 0 then e else s[i - 1]
  }

  ghost function After(s: seq<ListItem>, i: nat): nat {
    if i >= |s| then 0 else i + 1
  }

  /** Node i and its successor point at each other. */
  ghost predicate Joined(e: ListItem, s: seq<ListItem>, i: nat)
    requires i <= |s|
    reads e`pxNext, e`pxPrevious, s`pxNext, s`pxPrevious
  {
    Node(e, s, i).pxNext == Node(e, s, After(s, i)) && Node(e, s, After(s, i)).pxPrevious == Node(e, s, i)
  }

  ghost predicate Distinct(e: ListItem, s: seq<ListItem>) {
    e !in s && forall i, j | 0 <= i < j < |s| :: s[i] != s[j]
  }

  ghost predicate Circular(e: ListItem, s: seq<ListItem>)
    reads e`pxNext, e`pxPrevious, s`pxNext, s`pxPrevious
  {
    forall i: nat | i <= |s| :: Joined(e, s, i)
  }

  /** x stands between node k and its successor, and the other neighbours are still joined. */
  lemma LinkedIn(e: ListItem, s: seq<ListItem>, k: nat, x: ListItem)
    requires Distinct(e, s) && k <= |s| && x !in s && x != e
    requires forall i: nat | i <= |s| && i != k :: Joined(e, s, i)
    requires Node(e, s, k).pxNext == x && x.pxPrevious == Node(e, s, k)
    requires x.pxNext == Node(e, s, After(s, k)) && Node(e, s, After(s, k)).pxPrevious == x
    ensures Distinct(e, InsertAt(s, k, x)) && Circular(e, InsertAt(s, k, x))
  {
    var t := InsertAt(s, k, x);
    forall i: nat | i <= |t|
      ensures Joined(e, t, i)
    {
      if i < k {
        assert Joined(e, s, i);
      } else if i > k + 1 {
        assert Joined(e, s, i - 1);
      }
    }
  }

  /** The neighbours of item k point at each other, and the other neighbours are still joined. */
  lemma LinkedOut(e: ListItem, s: seq<ListItem>, k: nat)
    requires Distinct(e, s) && k < |s|
    requires forall i: nat | i <= |s| && i != k && i != k + 1 :: Joined(e, s, i)
    requires var p, n := Node(e, s, k), Node(e, s, After(s, k + 1)); p.pxNext == n && n.pxPrevious == p
    ensures Distinct(e, RemoveAt(s, k)) && Circular(e, RemoveAt(s, k))
  {
    var t := RemoveAt(s, k);
    forall i: nat | i <= |t|
      ensures Joined(e, t, i)
    {
      if i < k {
        assert Joined(e, s, i);
      } else if i > k {
        assert Joined(e, s, i + 1);
      }
    }
  }

  lemma Shifted(s: seq<ListItem>, k: nat, x: ListItem)
    requires k <= |s|
    ensures var t := InsertAt(s, k, x);
            |t| == |s| + 1 && t[k] == x && (forall i | 0 <= i < |s| :: t[if i < k then i else i + 1] == s[i])
  {
  }

  lemma LargestLast(v: seq<word>)
    ensures InsertPosition(v, MAX_DELAY) == |v|
  {
  }

  lemma PositionIs(v: seq<word>, x: word, k: nat)
    requires k <= |v| && (forall j | 0 <= j < k :: v[j] <= x) && (k < |v| ==> x < v[k])
    ensures InsertPosition(v, x) == k
  {
  }

  class List {
    var uxNumberOfItems: nat
    var pxIndex: ListItem
    const xListEnd: ListItem
    ghost var items: seq<ListItem>
    ghost var cursor: nat

    ghost predicate Holds(i: nat)
      requires i < |items|
      reads this`items, items`pxContainer
    {
      items[i].pxContainer == this
    }

    ghost predicate Valid()
      reads this, xListEnd, items
    {
      && Distinct(xListEnd, items) && Circular(xListEnd, items)
      && xListEnd.xItemValue == MAX_DELAY && xListEnd.pxContainer == null
      && (forall i: nat | i < |items| :: Holds(i))
      && cursor <= |items| && pxIndex == Node(xListEnd, items, cursor)
      && uxNumberOfItems == |items|
    }

    ghost function Ring(): Ring<ListItem>
      reads this
    {
      ListModel.Ring(items, cursor)
    }

    /** The item values in list order. */
    ghost function ItemValues(): (v: seq<word>)
      reads this, items
      ensures |v| == |items| && forall i | 0 <= i < |items| :: v[i] == items[i].xItemValue
    {
      seq(|items|, i requires 0 <= i < |items| reads this, items => items[i].xItemValue)
    }

    /** vListInitialise. */
    constructor ()
      ensures Valid() && items == [] && cursor == 0 && fresh(xListEnd)
    {
      var end := new ListItem(MAX_DELAY, null);
      xListEnd, pxIndex, uxNumberOfItems := end, end, 0;
      items, cursor := [], 0;
      new;
      xListEnd.pxNext := xListEnd;
      xListEnd.pxPrevious := xListEnd;
    }

    lemma NotAMember(x: ListItem)
      requires Valid() && x.pxContainer != this
      ensures x !in items
    {
      forall i | 0 <= i < |items|
        ensures items[i] != x
      {
        assert Holds(i);
      }
    }

    /** The writes of vListInsertEnd: the new item goes between the cursor's node and its predecessor k. */
    method LinkBefore(pxIndex: ListItem, pxNewListItem: ListItem, ghost k: nat)
      requires Valid() && pxNewListItem.pxContainer == null && pxNewListItem != xListEnd
      requires k <= |items| && pxIndex == Node(xListEnd, items, After(items, k))
      modifies this`items, this`uxNumberOfItems, xListEnd`pxNext, xListEnd`pxPrevious, items`pxNext, items`pxPrevious
      modifies pxNewListItem`pxNext, pxNewListItem`pxPrevious, pxNewListItem`pxContainer
      ensures Distinct(xListEnd, items) && Circular(xListEnd, items)
      ensures items == InsertAt(old(items), k, pxNewListItem) && uxNumberOfItems == |items|
      ensures pxNewListItem.pxContainer == this && forall i: nat | i < |items| :: Holds(i)
    {
      ghost var e, s := xListEnd, items;
      NotAMember(pxNewListItem);
      assert Joined(e, s, k);
      pxNewListItem.pxNext := pxIndex;
      pxNewListItem.pxPrevious := pxIndex.pxPrevious;
      pxIndex.pxPrevious.pxNext := pxNewListItem;
      pxIndex.pxPrevious := pxNewListItem;
      forall i: nat | i <= |s| && i != k
        ensures Joined(e, s, i)
      {
        assert old(Joined(e, s, i));
      }
      LinkedIn(e, s, k, pxNewListItem);
      pxNewListItem.pxContainer := this;
      uxNumberOfItems := uxNumberOfItems + 1;
      items := InsertAt(items, k, pxNewListItem);
      forall i: nat | i < |items|
        ensures Holds(i)
      {
        assert i < k ==> old(Holds(i));
        assert i > k ==> old(Holds(i - 1));
      }
    }

    /** vListInsertEnd. */
    method InsertEnd(pxNewListItem: ListItem)
      requires Valid() && pxNewListItem.pxContainer == null && pxNewListItem != xListEnd
      modifies this, xListEnd`pxNext, xListEnd`pxPrevious, items`pxNext, items`pxPrevious
      modifies pxNewListItem`pxNext, pxNewListItem`pxPrevious, pxNewListItem`pxContainer
      ensures Valid() && Ring() == AddBeforeCursor(old(Ring()), pxNewListItem)
      ensures pxNewListItem.pxContainer == this
    {
      hide Distinct, Circular, InsertAt;
      LinkBefore(pxIndex, pxNewListItem, if cursor == 0 then |items| else cursor - 1);
      Shifted(old(items), if old(cursor) == 0 then |old(items)| else old(cursor) - 1, pxNewListItem);
      cursor := if cursor == 0 then 0 else cursor + 1;
    }

    /** The search of vListInsert.  The walk starts at the end marker and stops in front of the first
        larger value; it never has to pass the end marker, because MAX_DELAY is treated first. */
    method FindPlace(xValueOfInsertion: word) returns (pxIterator: ListItem, ghost k: nat)
      requires Valid()
      ensures k == InsertPosition(ItemValues(), xValueOfInsertion)
      ensures pxIterator == Node(xListEnd, items, k)
    {
      ghost var e, s, v := xListEnd, items, ItemValues();
      if xValueOfInsertion == MAX_DELAY {
        k := |s|;
        assert Joined(e, s, k);
        pxIterator := xListEnd.pxPrevious;
        LargestLast(v);
      } else {
        pxIterator, k := xListEnd, 0;
        assert Joined(e, s, 0);
        while pxIterator.pxNext.xItemValue <= xValueOfInsertion
          invariant k <= |s| && pxIterator == Node(e, s, k) && Joined(e, s, k)
          invariant forall j | 0 <= j < k :: v[j] <= xValueOfInsertion
          decreases |s| - k
        {
          assert k < |s|;
          pxIterator, k := pxIterator.pxNext, k + 1;
          assert Joined(e, s, k);
        }
        PositionIs(v, xValueOfInsertion, k);
      }
    }

    /** The writes of vListInsert: the new item goes between node k and its successor. */
    method LinkBehind(pxIterator: ListItem, pxNewListItem: ListItem, ghost k: nat)
      requires Valid() && pxNewListItem.pxContainer == null && pxNewListItem != xListEnd
      requires k <= |items| && pxIterator == Node(xListEnd, items, k)
      modifies this`items, this`uxNumberOfItems, xListEnd`pxNext, xListEnd`pxPrevious, items`pxNext, items`pxPrevious
      modifies pxNewListItem`pxNext, pxNewListItem`pxPrevious, pxNewListItem`pxContainer
      ensures Distinct(xListEnd, items) && Circular(xListEnd, items)
      ensures items == InsertAt(old(items), k, pxNewListItem) && uxNumberOfItems == |items|
      ensures pxNewListItem.pxContainer == this && forall i: nat | i < |items| :: Holds(i)
    {
      ghost var e, s := xListEnd, items;
      NotAMember(pxNewListItem);
      assert Joined(e, s, k);
      pxNewListItem.pxNext := pxIterator.pxNext;
      pxNewListItem.pxNext.pxPrevious := pxNewListItem;
      pxNewListItem.pxPrevious := pxIterator;
      pxIterator.pxNext := pxNewListItem;
      forall i: nat | i <= |s| && i != k
        ensures Joined(e, s, i)
      {
        assert old(Joined(e, s, i));
      }
      LinkedIn(e, s, k, pxNewListItem);
      pxNewListItem.pxContainer := this;
      uxNumberOfItems := uxNumberOfItems + 1;
      items := InsertAt(items, k, pxNewListItem);
      forall i: nat | i < |items|
        ensures Holds(i)
      {
        assert i < k ==> old(Holds(i));
        assert i > k ==> old(Holds(i - 1));
      }
    }

    /** vListInsert. */
    method Insert(pxNewListItem: ListItem)
      requires Valid() && pxNewListItem.pxContainer == null && pxNewListItem != xListEnd
      modifies this, xListEnd`pxNext, xListEnd`pxPrevious, items`pxNext, items`pxPrevious
      modifies pxNewListItem`pxNext, pxNewListItem`pxPrevious, pxNewListItem`pxContainer
      ensures Valid()
      ensures Ring() == AddAt(old(Ring()), InsertPosition(old(ItemValues()), pxNewListItem.xItemValue), pxNewListItem)
      ensures pxNewListItem.pxContainer == this
    {
      hide Distinct, Circular, InsertAt, InsertPosition;
      var pxIterator, k := FindPlace(pxNewListItem.xItemValue);
      LinkBehind(pxIterator, pxNewListItem, k);
      Shifted(old(items), k, pxNewListItem);
      cursor := if cursor > k then cursor + 1 else cursor;
    }

    /** listGET_OWNER_OF_NEXT_ENTRY. */
    method GetOwnerOfNextEntry() returns (owner: object?)
      requires Valid() && items != []
      modifies this`pxIndex, this`cursor
      ensures Valid() && Ring() == Step(old(Ring())) && owner == Visited(old(Ring())).pvOwner
    {
      assert Joined(xListEnd, items, cursor) && Joined(xListEnd, items, 0);
      pxIndex := pxIndex.pxNext;
      if pxIndex == xListEnd {
        pxIndex := pxIndex.pxNext;
      }
      cursor := if cursor == |items| then 1 else cursor + 1;
      owner := pxIndex.pvOwner;
    }

    /** The first two writes of uxListRemove. */
    method Unlink(pxItemToRemove: ListItem, ghost k: nat)
      requires Valid() && k < |items| && items[k] == pxItemToRemove
      modifies xListEnd`pxNext, xListEnd`pxPrevious, items`pxNext, items`pxPrevious
      ensures Distinct(xListEnd, RemoveAt(items, k)) && Circular(xListEnd, RemoveAt(items, k))
      ensures pxItemToRemove.pxPrevious == Node(xListEnd, items, k)
    {
      ghost var e, s := xListEnd, items;
      assert Joined(e, s, k) && Joined(e, s, k + 1);
      pxItemToRemove.pxNext.pxPrevious := pxItemToRemove.pxPrevious;
      pxItemToRemove.pxPrevious.pxNext := pxItemToRemove.pxNext;
      forall i: nat | i <= |s| && i != k && i != k + 1
        ensures Joined(e, s, i)
      {
        assert old(Joined(e, s, i));
      }
      LinkedOut(e, s, k);
    }

    /** uxListRemove, once the list is known from the item. */
    method Detach(pxItemToRemove: ListItem, ghost k: nat) returns (left: nat)
      requires Valid() && k < |items| && items[k] == pxItemToRemove
      modifies this, xListEnd`pxNext, xListEnd`pxPrevious, items`pxNext, items`pxPrevious, pxItemToRemove`pxContainer
      ensures Valid() && Ring() == Drop(old(Ring()), k) && left == |items|
      ensures pxItemToRemove.pxContainer == null
    {
      CursorOn(pxItemToRemove, k);
      Unlink(pxItemToRemove, k);
      if pxIndex == pxItemToRemove {
        pxIndex := pxItemToRemove.pxPrevious;
      }
      pxItemToRemove.pxContainer := null;
      uxNumberOfItems := uxNumberOfItems - 1;
      ghost var s := items;
      items := RemoveAt(items, k);
      cursor := if cursor > k then cursor - 1 else cursor;
      forall i: nat | i < |items|
        ensures Holds(i)
      {
        assert old(Holds(if i < k then i else i + 1));
      }
      left := uxNumberOfItems;
    }

    lemma CursorOn(x: ListItem, k: nat)
      requires Valid() && k < |items| && items[k] == x
      ensures pxIndex == x <==> cursor == k + 1
      ensures forall i | 0 <= i < |RemoveAt(items, k)| ::
                RemoveAt(items, k)[i] != x && RemoveAt(items, k)[i] == items[if i < k then i else i + 1]
    {
    }
  }

  // ----- pxContainer says exactly which list an item is in -----

  /** Of all items and lists there are. */
  ghost predicate Exact(all: set<ListItem>, lists: set<List>)
    reads all, lists
  {
    forall l, x | l in lists && x in all :: x.pxContainer == l <==> x in l.items
  }

  /** So no item is in two lists. */
  lemma OneList(all: set<ListItem>, lists: set<List>, x: ListItem, l: List, m: List)
    requires Exact(all, lists) && x in all && l in lists && m in lists && x in l.items && x in m.items
    ensures l == m
  {
    assert x.pxContainer == l;
  }

  lemma InsertedAt(s: seq<ListItem>, k: nat, x: ListItem)
    requires k <= |s|
    ensures forall y :: y in InsertAt(s, k, x) <==> y in s || y == x
  {
    assert s == s[..k] + s[k..];
  }

  lemma RemovedAt(s: seq<ListItem>, k: nat)
    requires k < |s| && forall i, j | 0 <= i < j < |s| :: s[i] != s[j]
    ensures s[k] !in RemoveAt(s, k)
    ensures forall y: ListItem | y != s[k] :: y in RemoveAt(s, k) <==> y in s
  {
    assert s == s[..k] + [s[k]] + s[k + 1..];
  }

  ghost function IndexOf(s: seq<ListItem>, x: ListItem): (k: nat)
    requires x in s
    ensures k < |s| && s[k] == x
  {
    if s[0] == x then 0 else 1 + IndexOf(s[1..], x)
  }

  /** uxListRemove, which finds the list from the item. */
  method ListRemove(pxItemToRemove: ListItem, ghost all: set<ListItem>, ghost lists: set<List>)
    returns (left: nat)
    requires pxItemToRemove.pxContainer != null
    requires var l := pxItemToRemove.pxContainer; l.Valid() && l in lists
    requires Exact(all, lists) && pxItemToRemove in all
    modifies var l := pxItemToRemove.pxContainer; {l}
    modifies pxItemToRemove.pxContainer.xListEnd`pxNext, pxItemToRemove.pxContainer.xListEnd`pxPrevious
    modifies pxItemToRemove.pxContainer.items`pxNext, pxItemToRemove.pxContainer.items`pxPrevious
    modifies pxItemToRemove`pxContainer
    ensures var l := old(pxItemToRemove.pxContainer);
            && pxItemToRemove in old(l.items)
            && l.Valid() && l.Ring() == Drop(old(l.Ring()), IndexOf(old(l.items), pxItemToRemove)) && left == |l.items|
    ensures pxItemToRemove.pxContainer == null && Exact(all, lists)
  {
    var pxList := pxItemToRemove.pxContainer;
    ghost var k := IndexOf(pxList.items, pxItemToRemove);
    RemovedAt(pxList.items, k);
    left := pxList.Detach(pxItemToRemove, k);
    forall l, x | l in lists && x in all
      ensures x.pxContainer == l <==> x in l.items
    {
      assert old(x.pxContainer) == l <==> x in old(l.items);
    }
  }

  /** vListInsert of an item that is in no list. */
  method ListInsert(pxList: List, pxNewListItem: ListItem, ghost all: set<ListItem>, ghost lists: set<List>)
    requires pxList.Valid() && pxNewListItem.pxContainer == null && pxNewListItem != pxList.xListEnd
    requires Exact(all, lists) && pxNewListItem in all && pxList in lists
    modifies pxList, pxList.xListEnd`pxNext, pxList.xListEnd`pxPrevious, pxList.items`pxNext, pxList.items`pxPrevious
    modifies pxNewListItem`pxNext, pxNewListItem`pxPrevious, pxNewListItem`pxContainer
    ensures pxList.Valid() && pxNewListItem.pxContainer == pxList && Exact(all, lists)
    ensures var k := InsertPosition(old(pxList.ItemValues()), pxNewListItem.xItemValue);
            pxList.Ring() == AddAt(old(pxList.Ring()), k, pxNewListItem)
  {
    hide InsertPosition, InsertAt, Distinct, Circular;
    InsertedAt(pxList.items, InsertPosition(pxList.ItemValues(), pxNewListItem.xItemValue), pxNewListItem);
    pxList.Insert(pxNewListItem);
    forall l, x | l in lists && x in all
      ensures x.pxContainer == l <==> x in l.items
    {
      assert old(x.pxContainer) == l <==> x in old(l.items);
    }
  }

  /** vListInsertEnd of an item that is in no list. */
  method ListInsertEnd(pxList: List, pxNewListItem: ListItem, ghost all: set<ListItem>, ghost lists: set<List>)
    requires pxList.Valid() && pxNewListItem.pxContainer == null && pxNewListItem != pxList.xListEnd
    requires Exact(all, lists) && pxNewListItem in all && pxList in lists
    modifies pxList, pxList.xListEnd`pxNext, pxList.xListEnd`pxPrevious, pxList.items`pxNext, pxList.items`pxPrevious
    modifies pxNewListItem`pxNext, pxNewListItem`pxPrevious, pxNewListItem`pxContainer
    ensures pxList.Valid() && pxNewListItem.pxContainer == pxList && Exact(all, lists)
    ensures pxList.Ring() == AddBeforeCursor(old(pxList.Ring()), pxNewListItem)
  {
    hide InsertAt, Distinct, Circular;
    ghost var s, c := pxList.items, pxList.cursor;
    InsertedAt(s, if c == 0 then |s| else c - 1, pxNewListItem);
    pxList.InsertEnd(pxNewListItem);
    forall l, x | l in lists && x in all
      ensures x.pxContainer == l <==> x in l.items
    {
      assert old(x.pxContainer) == l <==> x in old(l.items);
    }
  }
}
