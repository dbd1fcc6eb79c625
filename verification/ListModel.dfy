/** The meaning of the kernel's lists (tests/FreeRTOS/list.c, list.h): a sequence of items
 *  and a cursor.  Cursor c stands for pxIndex pointing to the c-th item, or to the end
 *  marker when c is 0. */
module ListModel {
  import opened Arithmetic

  const MAX_DELAY: word := 0xffff_ffff   // portMAX_DELAY

  type word = x: int | 0 <= x < 0x1_0000_0000

  function InsertAt<T>(s: seq<T>, k: nat, x: T): seq<T>
    requires k <= |s|
  {
    s[..k] + [x] + s[k..]
  }

  function RemoveAt<T>(s: seq<T>, k: nat): seq<T>
    requires k < |s|
  {
    s[..k] + s[k + 1..]
  }

  lemma RemoveUndoesInsert<T>(s: seq<T>, k: nat, x: T)
    requires k <= |s|
    ensures RemoveAt(InsertAt(s, k, x), k) == s
  {
    var r := InsertAt(s, k, x);
    assert r[..k] == s[..k] && r[k + 1..] == s[k..];
  }

  // ----- sorted insertion -----

  ghost predicate Sorted(values: seq<word>) {
    forall i, j | 0 <= i < j < |values| :: values[i] <= values[j]
  }

  /** Behind every leading value that is not larger; MAX_DELAY goes to the very end. */
  function InsertPosition(values: seq<word>, v: word): (k: nat)
    ensures k <= |values|
    ensures forall j | 0 <= j < k :: values[j] <= v
    ensures k < |values| ==> v < values[k]
  {
    if values == [] || v < values[0] then 0 else 1 + InsertPosition(values[1..], v)
  }

  datatype Entry = Entry(value: word, id: int)

  function Values(s: seq<Entry>): (r: seq<word>)
    ensures |r| == |s| && forall i | 0 <= i < |s| :: r[i] == s[i].value
  {
    seq(|s|, i requires 0 <= i < |s| => s[i].value)
  }

  /** vListInsert on the level of entries. */
  function Insert(s: seq<Entry>, e: Entry): seq<Entry> {
    InsertAt(s, InsertPosition(Values(s), e.value), e)
  }

  /** The entries that have value v, in list order. */
  function WithValue(s: seq<Entry>, v: word): seq<Entry> {
    if s == [] then []
    else if s[0].value == v then [s[0]] + WithValue(s[1..], v)
    else WithValue(s[1..], v)
  }

  lemma {:induction false} WithValueConcat(a: seq<Entry>, b: seq<Entry>, v: word)
    ensures WithValue(a + b, v) == WithValue(a, v) + WithValue(b, v)
  {
    if a == [] {
      assert a + b == b;
    } else {
      assert (a + b)[0] == a[0] && (a + b)[1..] == a[1..] + b;
      WithValueConcat(a[1..], b, v);
      assert WithValue(a, v) + WithValue(b, v)
          == (if a[0].value == v then [a[0]] else []) + (WithValue(a[1..], v) + WithValue(b, v));
    }
  }

  lemma {:induction false} NoneWithValue(s: seq<Entry>, v: word)
    requires forall i | 0 <= i < |s| :: s[i].value != v
    ensures WithValue(s, v) == []
  {
    if s != [] {
      NoneWithValue(s[1..], v);
    }
  }

  lemma Inserted(s: seq<Entry>, e: Entry)
    ensures var k, r := InsertPosition(Values(s), e.value), Insert(s, e);
            |r| == |s| + 1 && r[k] == e
            && (forall i | 0 <= i < k :: r[i] == s[i]) && (forall i | k < i < |r| :: r[i] == s[i - 1])
  {
  }

  lemma InsertKeepsSorted(s: seq<Entry>, e: Entry)
    requires Sorted(Values(s))
    ensures Sorted(Values(Insert(s, e)))
  {
    hide InsertPosition, Insert, Values;
    var v, k, r := Values(s), InsertPosition(Values(s), e.value), Insert(s, e);
    Inserted(s, e);
    forall i, j | 0 <= i < j < |r|
      ensures Values(r)[i] <= Values(r)[j]
    {
      var i', j' := if i < k then i else i - 1, if j < k then j else j - 1;
      if i == k {
        assert v[k] <= v[j'];
      } else if j != k {
        assert v[i'] <= v[j'];
      }
    }
  }

  /** A sorted insert is stable: among equal values the new entry comes last, and the entries
      of every value otherwise keep their order. */
  lemma InsertIsStable(s: seq<Entry>, e: Entry, v: word)
    requires Sorted(Values(s))
    ensures WithValue(Insert(s, e), v) == WithValue(s, v) + if v == e.value then [e] else []
  {
    hide InsertPosition, Values;
    var k := InsertPosition(Values(s), e.value);
    var a, b := s[..k], s[k..];
    assert s == a + b;
    WithValueConcat(a, b, v);
    WithValueConcat(a, [e], v);
    WithValueConcat(a + [e], b, v);
    if v == e.value {
      forall i | 0 <= i < |b|
        ensures b[i].value != v
      {
        assert i > 0 ==> Values(s)[k] <= Values(s)[k + i];
        assert Values(s)[k + i] == b[i].value;
      }
      NoneWithValue(b, v);
    }
  }

  /** Sortedness and the order within each value determine the list, so the two lemmas above
      say everything about a sorted insert. */
  lemma {:induction false} StableOrderIsUnique(a: seq<Entry>, b: seq<Entry>)
    requires Sorted(Values(a)) && Sorted(Values(b))
    requires forall v: word :: WithValue(a, v) == WithValue(b, v)
    ensures a == b
  {
    if a == [] {
      if b != [] {
        FirstIsLeast(b, a);
      }
    } else {
      FirstIsLeast(a, b);
      assert b != [];
      FirstIsLeast(b, a);
      assert WithValue(a, a[0].value) == WithValue(b, a[0].value);
      assert a[0] == WithValue(a, a[0].value)[0];
      assert b[0] == WithValue(b, b[0].value)[0];
      forall v: word
        ensures WithValue(a[1..], v) == WithValue(b[1..], v)
      {
        assert WithValue(a, v) == WithValue(b, v);
        var h := if a[0].value == v then [a[0]] else [];
        assert WithValue(a, v) == h + WithValue(a[1..], v);
        assert WithValue(b, v) == h + WithValue(b[1..], v);
        assert WithValue(a[1..], v) == WithValue(a, v)[|h|..];
        assert WithValue(b[1..], v) == WithValue(b, v)[|h|..];
      }
      TailSorted(a);
      TailSorted(b);
      StableOrderIsUnique(a[1..], b[1..]);
      assert a == [a[0]] + a[1..] && b == [b[0]] + b[1..];
    }
  }

  lemma TailSorted(s: seq<Entry>)
    requires s != [] && Sorted(Values(s))
    ensures Sorted(Values(s[1..]))
  {
    forall i, j | 0 <= i < j < |s| - 1
      ensures Values(s[1..])[i] <= Values(s[1..])[j]
    {
      assert Values(s)[i + 1] <= Values(s)[j + 1];
    }
  }

  lemma FirstIsLeast(a: seq<Entry>, b: seq<Entry>)
    requires a != [] && Sorted(Values(b))
    requires forall v: word :: WithValue(a, v) == WithValue(b, v)
    ensures b != [] && b[0].value <= a[0].value
  {
    assert WithValue(a, a[0].value)[0] == a[0];
    var w := WithValue(b, a[0].value);
    assert w[0] == a[0];
    var i := WithValueFind(b, a[0].value);
    assert i > 0 ==> Values(b)[0] <= Values(b)[i];
  }

  lemma {:induction false} WithValueFind(s: seq<Entry>, v: word) returns (i: nat)
    requires WithValue(s, v) != []
    ensures i < |s| && s[i].value == v
  {
    if s[0].value == v {
      i := 0;
    } else {
      i := WithValueFind(s[1..], v);
      i := i + 1;
    }
  }

  // ----- round robin -----

  datatype Ring<T> = Ring(items: seq<T>, cursor: nat)

  ghost predicate ValidRing<T>(r: Ring<T>) {
    r.cursor <= |r.items|
  }

  /** The items in the order the cursor will visit them. */
  function Rotation<T>(r: Ring<T>): (s: seq<T>)
    requires ValidRing(r)
    ensures |s| == |r.items|
  {
    r.items[r.cursor..] + r.items[..r.cursor]
  }

  /** listGET_OWNER_OF_NEXT_ENTRY: the cursor steps to the next item, past the end marker. */
  function Step<T>(r: Ring<T>): (r': Ring<T>)
    requires ValidRing(r) && r.items != []
    ensures ValidRing(r') && r'.cursor > 0 && r'.items == r.items
  {
    r.(cursor := if r.cursor == |r.items| then 1 else r.cursor + 1)
  }

  /** The item a step visits. */
  function Visited<T>(r: Ring<T>): T
    requires ValidRing(r) && r.items != []
  {
    Step(r).items[Step(r).cursor - 1]
  }

  lemma StepRotates<T>(r: Ring<T>)
    requires ValidRing(r) && r.items != []
    ensures Visited(r) == Rotation(r)[0]
    ensures Rotation(Step(r)) == Rotation(r)[1..] + [Rotation(r)[0]]
  {
    var c := r.cursor;
    if c == |r.items| {
      assert r.items[1..] + r.items[..1] == Rotation(Step(r));
    } else {
      assert r.items[c..] == [r.items[c]] + r.items[c + 1..];
      assert r.items[..c + 1] == r.items[..c] + [r.items[c]];
    }
  }

  function Steps<T>(r: Ring<T>, n: nat): (r': Ring<T>)
    requires ValidRing(r) && r.items != []
    ensures ValidRing(r') && r'.items == r.items
    decreases n
  {
    if n == 0 then r else Steps(Step(r), n - 1)
  }

  /** The items visited by n steps, in order. */
  function Visits<T>(r: Ring<T>, n: nat): (v: seq<T>)
    requires ValidRing(r) && r.items != []
    ensures |v| == n
    decreases n
  {
    if n == 0 then [] else [Visited(r)] + Visits(Step(r), n - 1)
  }

  /** i reduced modulo m. */
  function Wrap(i: nat, m: nat): (r: nat)
    requires m > 0
    ensures r < m
  {
    i % m
  }

  /** However many steps are taken, the i-th visit is to the item i places along the rotation. */
  lemma {:induction false} VisitsFollowRotation<T>(r: Ring<T>, n: nat, i: nat)
    requires ValidRing(r) && r.items != [] && i < n
    ensures Visits(r, n)[i] == Rotation(r)[Wrap(i, |r.items|)]
    decreases n
  {
    hide Rotation, Wrap, Step;
    var m := |r.items|;
    StepRotates(r);
    WrapStep(i, m);
    if i > 0 {
      VisitsFollowRotation(Step(r), n - 1, i - 1);
      RotatedIndex(Rotation(r), Wrap(i - 1, m));
    }
  }

  lemma WrapStep(i: nat, m: nat)
    requires m > 0
    ensures Wrap(i, m) == if i == 0 || Wrap(i - 1, m) + 1 == m then 0 else Wrap(i - 1, m) + 1
  {
    if i > 0 {
      SuccessorMod(i - 1, m);
    }
  }

  lemma RotatedIndex<T>(s: seq<T>, j: nat)
    requires j < |s|
    ensures (s[1..] + [s[0]])[j] == s[if j + 1 == |s| then 0 else j + 1]
  {
  }

  /** n steps turn the rotation by n, modulo the number of items. */
  lemma {:induction false} StepsTurnRotation<T>(r: Ring<T>, n: nat)
    requires ValidRing(r) && r.items != []
    ensures Rotation(Steps(r, n)) == Turned(Rotation(r), Wrap(n, |r.items|))
    decreases n
  {
    hide Rotation, Wrap, Step, Turned;
    var m := |r.items|;
    WrapStep(n, m);
    if n == 0 {
      TurnedBack(Rotation(r));
    } else {
      StepRotates(r);
      StepsTurnRotation(Step(r), n - 1);
      TurnedOnce(Rotation(r), Wrap(n - 1, m));
    }
  }

  function Turned<T>(s: seq<T>, k: nat): seq<T>
    requires k <= |s|
  {
    s[k..] + s[..k]
  }

  lemma TurnedBack<T>(s: seq<T>)
    ensures Turned(s, 0) == s
  {
  }

  lemma TurnedOnce<T>(s: seq<T>, k: nat)
    requires k < |s|
    ensures Turned(s[1..] + [s[0]], k) == Turned(s, if k + 1 == |s| then 0 else k + 1)
  {
    var t := s[1..] + [s[0]];
    assert t[k..] == s[k + 1..] + [s[0]];
    assert t[..k] == s[1..k + 1];
    assert s[..k + 1] == [s[0]] + s[1..k + 1];
  }

  /** Where the cursor stands after n steps. */
  lemma {:induction false} StepsMoveCursor<T>(r: Ring<T>, n: nat)
    requires ValidRing(r) && r.items != []
    ensures Steps(r, n).cursor == if n == 0 then r.cursor else 1 + Wrap(r.cursor + n - 1, |r.items|)
    decreases n
  {
    hide Wrap;
    var m, c := |r.items|, r.cursor;
    if n > 0 {
      StepsMoveCursor(Step(r), n - 1);
      if c == m {
        WrapPeriod(n - 1, m);
        WrapAround(0, m);
      } else {
        WrapBelow(c, m);
      }
    }
  }

  lemma WrapPeriod(i: nat, m: nat)
    requires m > 0
    ensures Wrap(i + m, m) == Wrap(i, m)
  {
    ModUnique(i + m, m, 1 + i / m, i % m);
  }

  /** A round of |items| steps leaves the order of visits as it was.  The cursor comes back exactly
      if it stood on an item: it never returns to the end marker. */
  lemma RoundComesBack<T>(r: Ring<T>)
    requires ValidRing(r) && r.items != []
    ensures Rotation(Steps(r, |r.items|)) == Rotation(r)
    ensures Steps(r, |r.items|) == r <==> r.cursor > 0
  {
    hide Rotation, Steps, Wrap, Turned;
    var m, c := |r.items|, r.cursor;
    StepsTurnRotation(r, m);
    StepsMoveCursor(r, m);
    TurnedBack(Rotation(r));
    WrapAround(0, m);
    if c > 0 {
      WrapAround(c - 1, m);
    } else {
      WrapBelow(m - 1, m);
    }
  }

  lemma WrapAround(i: nat, m: nat)
    requires i < m
    ensures Wrap(i + m, m) == i
  {
    ModUnique(i + m, m, 1, i);
  }

  /** Round robin is fair: any |items| consecutive steps visit every item exactly once. */
  lemma RoundIsFair<T>(r: Ring<T>)
    requires ValidRing(r) && r.items != []
    ensures Visits(r, |r.items|) == Rotation(r)
    ensures multiset(Visits(r, |r.items|)) == multiset(r.items)
  {
    hide Visits, Wrap, Rotation;
    var v, n := Visits(r, |r.items|), |r.items|;
    forall i | 0 <= i < n
      ensures v[i] == Rotation(r)[i]
    {
      VisitsFollowRotation(r, n, i);
      WrapBelow(i, n);
    }
    assert v == Rotation(r);
    RotationHasItems(r);
  }

  lemma WrapBelow(i: nat, m: nat)
    requires i < m
    ensures Wrap(i, m) == i
  {
    ModUnique(i, m, 0, i);
  }

  lemma RotationHasItems<T>(r: Ring<T>)
    requires ValidRing(r)
    ensures multiset(Rotation(r)) == multiset(r.items)
  {
    assert r.items == r.items[..r.cursor] + r.items[r.cursor..];
  }

  // ----- the operations on rings -----

  /** vListInsertEnd: insert directly before the node the cursor stands on. */
  function AddBeforeCursor<T>(r: Ring<T>, x: T): (r': Ring<T>)
    requires ValidRing(r)
    ensures ValidRing(r')
  {
    if r.cursor == 0 then Ring(InsertAt(r.items, |r.items|, x), 0)
    else Ring(InsertAt(r.items, r.cursor - 1, x), r.cursor + 1)
  }

  /** Sorted insertion leaves the cursor on the node it stands on. */
  function AddAt<T>(r: Ring<T>, k: nat, x: T): (r': Ring<T>)
    requires ValidRing(r) && k <= |r.items|
    ensures ValidRing(r')
  {
    Ring(InsertAt(r.items, k, x), if r.cursor > k then r.cursor + 1 else r.cursor)
  }

  /** uxListRemove: a cursor on the removed item steps back. */
  function Drop<T>(r: Ring<T>, k: nat): (r': Ring<T>)
    requires ValidRing(r) && k < |r.items|
    ensures ValidRing(r')
  {
    Ring(RemoveAt(r.items, k), if r.cursor > k then r.cursor - 1 else r.cursor)
  }

  /** The item added last in the round: only the item under the cursor, if there is one, is
      visited after it. */
  lemma PlaceOfAdded<T>(r: Ring<T>, x: T)
    requires ValidRing(r)
    ensures var n := |r.items|;
            Rotation(AddBeforeCursor(r, x)) ==
            InsertAt(Rotation(r), if r.cursor == 0 then n else n - 1, x)
  {
    var s, c, n := r.items, r.cursor, |r.items|;
    if c == 0 {
      assert Rotation(r) == s && InsertAt(s, n, x) == s + [x];
    } else {
      var t := InsertAt(s, c - 1, x);
      assert t[c + 1..] == s[c..];
      assert t[..c + 1] == s[..c - 1] + [x] + [s[c - 1]];
      assert Rotation(r)[..n - 1] == s[c..] + s[..c - 1];
      assert Rotation(r)[n - 1..] == [s[c - 1]];
    }
  }

  /** What the comment of vListInsertEnd promises holds exactly if the cursor is on the end marker. */
  lemma AddedIsLastExactly<T>(r: Ring<T>, x: T)
    requires ValidRing(r) && x !in r.items
    ensures (var s := Rotation(AddBeforeCursor(r, x)); s[|s| - 1] == x) <==> r.cursor == 0
  {
    PlaceOfAdded(r, x);
  }

  /** The input that shows it: 2 is added while the cursor is on 1, and visited before it. */
  lemma AddedIsNotLast()
    ensures Rotation(AddBeforeCursor(Ring([1], 1), 2)) == [2, 1]
  {
    PlaceOfAdded(Ring([1], 1), 2);
  }

  /** Removing an item, even the one under the cursor, only takes it out of the rotation. */
  lemma DropKeepsRotation<T>(r: Ring<T>, k: nat)
    requires ValidRing(r) && k < |r.items|
    ensures var p := if k < r.cursor then |r.items| - r.cursor + k else k - r.cursor;
            Rotation(r)[p] == r.items[k] && Rotation(Drop(r, k)) == RemoveAt(Rotation(r), p)
  {
    var s, c := r.items, r.cursor;
    if k < c {
      RemovedAhead(s, k, c);
    } else {
      RemovedBehind(s, k, c);
    }
  }

  lemma RemovedAhead<T>(s: seq<T>, k: nat, c: nat)
    requires k < c <= |s|
    ensures RemoveAt(s, k)[c - 1..] + RemoveAt(s, k)[..c - 1] == RemoveAt(s[c..] + s[..c], |s| - c + k)
    ensures (s[c..] + s[..c])[|s| - c + k] == s[k]
  {
    var t, u := RemoveAt(s, k), s[c..] + s[..c];
    assert t[c - 1..] == s[c..];
    assert t[..c - 1] == s[..k] + s[k + 1..c];
    assert u[..|s| - c + k] == s[c..] + s[..k];
    assert u[|s| - c + k + 1..] == s[k + 1..c];
  }

  lemma RemovedBehind<T>(s: seq<T>, k: nat, c: nat)
    requires c <= k < |s|
    ensures RemoveAt(s, k)[c..] + RemoveAt(s, k)[..c] == RemoveAt(s[c..] + s[..c], k - c)
    ensures (s[c..] + s[..c])[k - c] == s[k]
  {
    var t, u := RemoveAt(s, k), s[c..] + s[..c];
    assert t[c..] == s[c..k] + s[k + 1..];
    assert t[..c] == s[..c];
    assert u[..k - c] == s[c..k];
    assert u[k - c + 1..] == s[k + 1..] + s[..c];
  }

  /** Removing what was just inserted restores items and cursor. */
  lemma DropUndoesAdd<T>(r: Ring<T>, k: nat, x: T)
    requires ValidRing(r) && k <= |r.items|
    ensures Drop(AddAt(r, k, x), k) == r
  {
    RemoveUndoesInsert(r.items, k, x);
  }

  lemma DropUndoesAddBeforeCursor<T>(r: Ring<T>, x: T)
    requires ValidRing(r)
    ensures Drop(AddBeforeCursor(r, x), if r.cursor == 0 then |r.items| else r.cursor - 1) == r
  {
    RemoveUndoesInsert(r.items, if r.cursor == 0 then |r.items| else r.cursor - 1, x);
  }
}
