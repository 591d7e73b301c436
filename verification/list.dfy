/** The kernel's lists: circular, doubly linked, with an end marker and an index that walks round. */
module Lists {

  const MAX_DELAY := 0xFFFF

  // ----- What a list is -----

  /** The items in order from the one behind the end marker, and where the index is: 0 at the marker, `i` at the
      i-th. */
  datatype Ring<T> = Ring(items: seq<T>, index: nat)

  ghost predicate RingOk<T>(r: Ring<T>)
  {
    r.index <= |r.items| && forall i, j | 0 <= i < j < |r.items| :: r.items[i] != r.items[j]
  }

  /** `x` comes to stand at position `at`, counted from 1; an index at or behind it moves along. */
  function InsertAt<T>(r: Ring<T>, at: nat, x: T): Ring<T>
    requires 1 <= at <= |r.items| + 1
  {
    Ring(r.items[..at - 1] + [x] + r.items[at - 1..], if r.index >= at then r.index + 1 else r.index)
  }

  /** Where the next item goes that has to wait for everybody else's turn: just before the index. */
  function EndPosition<T>(r: Ring<T>): nat
  {
    if r.index == 0 then |r.items| + 1 else r.index
  }

  function RemoveAt<T>(r: Ring<T>, at: nat): Ring<T>
    requires 1 <= at <= |r.items|
  {
    Ring(r.items[..at - 1] + r.items[at..], if r.index >= at then r.index - 1 else r.index)
  }

  /** The index moves to the next item, skipping the end marker. */
  function Advanced<T>(r: Ring<T>): Ring<T>
    requires r.items != [] && r.index <= |r.items|
  {
    Ring(r.items, if r.index == |r.items| then 1 else r.index + 1)
  }

  /** The ring after `k` items have been asked for. */
  ghost function Turns<T>(r: Ring<T>, k: nat): (after: Ring<T>)
    requires r.items != [] && r.index <= |r.items|
    ensures after.items == r.items && after.index <= |r.items| && (k > 0 ==> after.index > 0)
  {
    if k == 0 then r else Advanced(Turns(r, k - 1))
  }

  lemma {:induction false} TurnsGoRound<T>(r: Ring<T>, k: nat)
    requires r.items != [] && r.index <= |r.items| && k <= |r.items|
    ensures Turns(r, k).index == if r.index + k <= |r.items| then r.index + k else r.index + k - |r.items|
  {
    if k > 0 {
      TurnsGoRound(r, k - 1);
    }
  }

  /** Which turn an item gets. */
  function TurnOf(index: nat, position: nat, n: nat): int
  {
    if position > index then position - index else position + n - index
  }

  /** In as many turns as there are items, each position comes up exactly once. */
  lemma OneTurnEach<T>(r: Ring<T>, position: nat, k: nat)
    requires r.items != [] && r.index <= |r.items| && 1 <= position <= |r.items| && 1 <= k <= |r.items|
    ensures 1 <= TurnOf(r.index, position, |r.items|) <= |r.items|
    ensures Turns(r, k).index == position <==> k == TurnOf(r.index, position, |r.items|)
  {
    TurnsGoRound(r, k);
  }

  /** An item inserted at the end has its turn only after every other item but the one whose turn it now is. */
  lemma EveryoneElseFirst<T>(r: Ring<T>, x: T, other: nat)
    requires r.index <= |r.items| && 1 <= other <= |r.items| && other != r.index
    ensures var end := EndPosition(r);
            var after := InsertAt(r, end, x);
            && after.items[end - 1] == x
            && TurnOf(after.index, if other >= end then other + 1 else other, |after.items|)
             < TurnOf(after.index, end, |after.items|)
  {
  }

  /** Inserting leaves the index at the item it was at, and the others where they were, in order. */
  lemma IndexKeepsItem<T>(r: Ring<T>, at: nat, x: T)
    requires r.index <= |r.items| && 1 <= at <= |r.items| + 1
    ensures var after := InsertAt(r, at, x);
            && after.items[at - 1] == x && after.index <= |after.items| == |r.items| + 1
            && after.items[..at - 1] == r.items[..at - 1] && after.items[at..] == r.items[at - 1..]
            && (r.index == 0 <==> after.index == 0)
            && (r.index > 0 ==> after.items[after.index - 1] == r.items[r.index - 1])
  {
  }

  /** Whose turn comes next. */
  ghost function Upcoming<T>(r: Ring<T>): T
    requires r.items != [] && r.index <= |r.items|
  {
    Advanced(r).items[Advanced(r).index - 1]
  }

  /** After an item is removed the turn goes to whoever would have had it next, unless that is the item removed. In
      particular, after removing the item whose turn it is, the item that followed it, or after the last the first,
      comes next. */
  lemma NextAfterRemoval<T>(r: Ring<T>, at: nat)
    requires r.index <= |r.items| && 1 <= at <= |r.items| && |r.items| >= 2
    ensures var n, after := |r.items|, RemoveAt(r, at);
            var next := if r.index == n then 1 else r.index + 1;
            && after.index <= |after.items| == n - 1
            && after.items[..at - 1] == r.items[..at - 1] && after.items[at - 1..] == r.items[at..]
            && (at == r.index || at == next ==> Upcoming(after) == r.items[if at == n then 0 else at])
            && (at != r.index && at != next ==> Upcoming(after) == r.items[next - 1])
  {
    var after := RemoveAt(r, at);
    assert after.items[..at - 1] == r.items[..at - 1] && after.items[at - 1..] == r.items[at..];
  }

  /** The item whose turn it is stays the one, if it is not the item removed. */
  lemma RemovalKeepsIndex<T>(r: Ring<T>, at: nat)
    requires 0 < r.index <= |r.items| && 1 <= at <= |r.items| && at != r.index
    ensures var after := RemoveAt(r, at);
            0 < after.index <= |after.items| && after.items[after.index - 1] == r.items[r.index - 1]
  {
  }

  /** Where a value goes: behind everything up to the first larger one. */
  ghost function ValuePosition(values: seq<nat>, v: nat): (at: nat)
    ensures 1 <= at <= |values| + 1
    ensures forall i | 0 <= i < at - 1 :: values[i] <= v
    ensures at <= |values| ==> values[at - 1] > v
  {
    if values == [] || values[0] > v then 1 else 1 + ValuePosition(values[1..], v)
  }

  ghost predicate Sorted(values: seq<nat>)
  {
    forall i, j | 0 <= i < j < |values| :: values[i] <= values[j]
  }

  /** Insertion keeps a sorted list sorted, and puts a newcomer behind its equals. */
  lemma InsertionStaysSorted(values: seq<nat>, v: nat)
    requires Sorted(values)
    ensures var at := ValuePosition(values, v);
            && Sorted(values[..at - 1] + [v] + values[at - 1..])
            && (forall i | 0 <= i < |values| && values[i] == v :: i < at - 1)
  {
    hide ValuePosition;
    var at := ValuePosition(values, v);
    forall i | at - 1 <= i < |values| ensures values[i] > v {
      assert values[at - 1] <= values[i];
    }
    SortedAround(values[..at - 1], v, values[at - 1..]);
  }

  lemma SortedAround(low: seq<nat>, v: nat, high: seq<nat>)
    requires Sorted(low + high)
    requires (forall i | 0 <= i < |low| :: low[i] <= v) && (forall i | 0 <= i < |high| :: v <= high[i])
    ensures Sorted(low + [v] + high)
  {
    var all, more, n := low + high, low + [v] + high, |low|;
    forall i, j | 0 <= i < j < |more| ensures more[i] <= more[j] {
      if j < n {
        assert all[i] <= all[j];
      } else if j == n {
        assert more[i] == low[i];
      } else if i == n {
        assert more[j] == high[j - n - 1];
      } else if i > n {
        assert all[i - 1] <= all[j - 1];
      } else {
        assert all[i] <= all[j - 1];
      }
    }
  }

  lemma {:induction false} PositionIsFirstLarger(values: seq<nat>, v: nat, at: nat)
    requires 1 <= at <= |values| + 1
    requires forall i | 0 <= i < at - 1 :: values[i] <= v
    requires at <= |values| ==> values[at - 1] > v
    ensures at == ValuePosition(values, v)
  {
  }

  // ----- The code -----

  class ListItem {
    var xItemValue: nat
    var pxNext: ListItem?
    var pxPrevious: ListItem?
    var pxContainer: List?

    /** vListInitialiseItem. */
    constructor (value: nat)
      ensures xItemValue == value && pxContainer == null
    {
      xItemValue, pxContainer, pxNext, pxPrevious := value, null, null, null;
    }
  }

  /** Two neighbours point at each other. */
  ghost predicate Joined(a: ListItem, b: ListItem)
    reads a`pxNext, b`pxPrevious
  {
    a.pxNext == b && b.pxPrevious == a
  }

  /** Once round the ring: every node is joined to the next. */
  ghost predicate Linked(path: seq<ListItem>)
    reads path`pxNext, path`pxPrevious
  {
    forall i | 0 <= i < |path| - 1 :: Joined(path[i], path[i + 1])
  }

  /** Nothing is met twice on the way from the first node of a path up to its last. */
  ghost predicate Apart(path: seq<ListItem>)
  {
    && (forall i, j | 0 <= i < j < |path| - 1 :: path[i] != path[j])
    && (forall i, j | 1 <= i < j < |path| :: path[i] != path[j])
  }

  ghost function Path(end: ListItem, items: seq<ListItem>): (path: seq<ListItem>)
    ensures |path| == |items| + 2 && path[0] == end == path[|items| + 1]
    ensures forall i | 0 <= i < |items| :: path[i + 1] == items[i]
  {
    [end] + items + [end]
  }

  ghost function Spliced(path: seq<ListItem>, k: nat, item: ListItem): seq<ListItem>
    requires k < |path|
  {
    path[..k + 1] + [item] + path[k + 1..]
  }

  lemma SplicedApart(path: seq<ListItem>, k: nat, item: ListItem)
    requires Apart(path) && item !in path && k + 1 < |path|
    ensures Apart(Spliced(path, k, item))
  {
  }

  /** The pointers both insertions set: `item` comes between two neighbours. */
  method LinkIn(item: ListItem, before: ListItem, after: ListItem, ghost path: seq<ListItem>, ghost k: nat)
    requires k + 1 < |path| && before == path[k] && after == path[k + 1]
    requires Linked(path) && Apart(path) && item !in path
    modifies item`pxNext, item`pxPrevious, before`pxNext, after`pxPrevious
    ensures Linked(Spliced(path, k, item))
  {
    item.pxNext := after;
    item.pxPrevious := before;
    before.pxNext := item;
    after.pxPrevious := item;
    ghost var longer := Spliced(path, k, item);
    forall i | 0 <= i < |longer| - 1 ensures Joined(longer[i], longer[i + 1]) {
      if i < k {
        assert old(Joined(path[i], path[i + 1]));
      } else if i > k + 1 {
        assert longer[i] == path[i - 1] && longer[i + 1] == path[i];
        assert old(Joined(path[i - 1], path[i]));
      }
    }
  }

  /** The pointers removal sets: the neighbours of `item` close up. */
  method LinkOut(item: ListItem, before: ListItem, after: ListItem, ghost path: seq<ListItem>, ghost k: nat)
    requires k + 2 < |path| && before == path[k] && item == path[k + 1] && after == path[k + 2]
    requires Linked(path) && Apart(path)
    modifies before`pxNext, after`pxPrevious
    ensures Linked(path[..k + 1] + path[k + 2..])
  {
    after.pxPrevious := before;
    before.pxNext := after;
    ghost var shorter := path[..k + 1] + path[k + 2..];
    forall i | 0 <= i < |shorter| - 1 ensures Joined(shorter[i], shorter[i + 1]) {
      if i < k {
        assert old(Joined(path[i], path[i + 1]));
      } else if i > k {
        assert shorter[i] == path[i + 1] && shorter[i + 1] == path[i + 2];
        assert old(Joined(path[i + 1], path[i + 2]));
      }
    }
  }

  ghost function Values(items: seq<ListItem>): (values: seq<nat>)
    reads items`xItemValue
    ensures |values| == |items|
  {
    if items == [] then [] else [items[0].xItemValue] + Values(items[1..])
  }

  lemma {:induction false} ValueAt(items: seq<ListItem>, i: nat)
    requires i < |items|
    ensures Values(items)[i] == items[i].xItemValue
  {
    if i > 0 {
      ValueAt(items[1..], i - 1);
    }
  }

  lemma {:induction false} ValuesWith(items: seq<ListItem>, k: nat, item: ListItem)
    requires k <= |items|
    ensures Values(items[..k] + [item] + items[k..]) == Values(items)[..k] + [item.xItemValue] + Values(items)[k..]
  {
    var more := items[..k] + [item] + items[k..];
    if k == 0 {
      assert more[1..] == items;
    } else {
      assert more[1..] == items[1..][..k - 1] + [item] + items[1..][k - 1..];
      ValuesWith(items[1..], k - 1, item);
    }
  }

  /** Members point back to their container, and no value is above the end marker's. */
  ghost predicate Owned(items: seq<ListItem>, list: List)
    reads items`pxContainer, items`xItemValue
  {
    forall i | 0 <= i < |items| :: items[i].pxContainer == list && items[i].xItemValue <= MAX_DELAY
  }

  lemma OwnedWith(items: seq<ListItem>, list: List, k: nat, item: ListItem)
    requires Owned(items, list) && k <= |items| && item.pxContainer == list && item.xItemValue <= MAX_DELAY
    ensures Owned(items[..k] + [item] + items[k..], list)
  {
  }

  lemma IndexMoves(end: ListItem, items: seq<ListItem>, k: nat, item: ListItem, at: nat)
    requires k <= |items| && at <= |items|
    ensures Path(end, items[..k] + [item] + items[k..])[if at >= k + 1 then at + 1 else at] == Path(end, items)[at]
  {
    var more := items[..k] + [item] + items[k..];
    assert Path(end, items)[at] == if at == 0 then end else items[at - 1];
    if 1 <= at <= k {
      assert more[at - 1] == items[at - 1];
    } else if at > k {
      assert more[at] == items[at - 1];
    }
  }

  class List {
    const xListEnd: ListItem
    var pxIndex: ListItem
    var uxNumberOfItems: nat
    ghost var items: seq<ListItem>
    ghost var at: nat                            // where the index is: 0 at the end marker

    ghost function Nodes(): (nodes: seq<ListItem>)
      reads this
      ensures |nodes| == |items| + 2
    {
      Path(xListEnd, items)
    }

    ghost predicate Valid()
      reads this, items, xListEnd
    {
      && |items| == uxNumberOfItems && at <= |items| && pxIndex == Nodes()[at]
      && Apart(Nodes()) && Linked(Nodes()) && Owned(items, this)
      && xListEnd.xItemValue == MAX_DELAY
    }

    ghost function Contents(): Ring<ListItem>
      reads this
    {
      Ring(items, at)
    }

    /** vListInitialise. */
    constructor ()
      ensures Valid() && Contents() == Ring([], 0) && fresh(xListEnd)
    {
      var marker := new ListItem(MAX_DELAY);
      xListEnd := marker;
      pxIndex := marker;
      uxNumberOfItems := 0;
      items := [];
      at := 0;
      new;
      marker.pxNext := marker;
      marker.pxPrevious := marker;
    }

    lemma Neighbours(k: nat)
      requires Valid() && k <= |items|
      ensures Nodes()[k + 1].pxPrevious == Nodes()[k] && Nodes()[k].pxNext == Nodes()[k + 1]
      ensures Nodes()[k] in items || Nodes()[k] == xListEnd
      ensures Nodes()[k + 1] in items || Nodes()[k + 1] == xListEnd
      ensures if k < |items| then Nodes()[k + 1] == items[k] else Nodes()[k + 1] == xListEnd
      ensures Nodes()[0] == xListEnd && xListEnd.xItemValue == MAX_DELAY
    {
      hide Apart, Owned;
      assert Joined(Nodes()[k], Nodes()[k + 1]);
    }

    /** What both insertions end with. */
    method InsertBetween(item: ListItem, before: ListItem, after: ListItem, ghost k: nat)
      requires Valid() && item !in items && item != xListEnd && item.xItemValue <= MAX_DELAY
      requires k <= |items| && before == Nodes()[k] && after == Nodes()[k + 1]
      modifies this`uxNumberOfItems, this`items, this`at, item`pxNext, item`pxPrevious, item`pxContainer,
               before`pxNext, after`pxPrevious
      ensures Valid() && Contents() == InsertAt(old(Contents()), k + 1, item)
    {
      hide Path, Linked, Apart, Spliced, Owned;
      ghost var path, was, more := Nodes(), items, items[..k] + [item] + items[k..];
      PathGrows(xListEnd, items, k, item, at);
      LinkIn(item, before, after, path, k);
      item.pxContainer := this;
      OwnedWith(was, this, k, item);
      assert Linked(Path(xListEnd, more)) && Owned(more, this);
      uxNumberOfItems := uxNumberOfItems + 1;
      at := if at >= k + 1 then at + 1 else at;
      items := more;
    }

    /** vListInsertEnd. */
    method InsertEnd(item: ListItem)
      requires Valid() && item !in items && item != xListEnd && item.xItemValue <= MAX_DELAY
      modifies this, items, xListEnd, item
      ensures Valid() && Contents() == InsertAt(old(Contents()), EndPosition(old(Contents())), item)
      ensures item.xItemValue == old(item.xItemValue)
    {
      hide Path, Linked, Apart, Owned;
      ghost var k := if at == 0 then |items| else at - 1;
      Neighbours(k);
      InsertBetween(item, pxIndex.pxPrevious, pxIndex, k);
    }

    /** The search of vListInsert: the node behind which a value below the maximum goes. */
    method FindPlace(value: nat) returns (iter: ListItem, ghost k: nat)
      requires Valid() && value < MAX_DELAY
      ensures k <= |items| && k + 1 == ValuePosition(Values(items), value)
      ensures iter == Nodes()[ValuePosition(Values(items), value) - 1]
    {
      hide Valid, Nodes, Values, ValuePosition;
      iter, k := xListEnd, 0;
      Neighbours(0);
      if items != [] {
        ValueAt(items, 0);
      }
      while iter.pxNext.xItemValue <= value
        invariant k <= |items| && iter == Nodes()[k] && iter.pxNext == Nodes()[k + 1]
        invariant if k < |items| then iter.pxNext.xItemValue == Values(items)[k] else iter.pxNext == xListEnd
        invariant forall i | 0 <= i < k :: Values(items)[i] <= value
        decreases |items| - k
      {
        iter := iter.pxNext;
        k := k + 1;
        Neighbours(k);
        if k < |items| {
          ValueAt(items, k);
        }
      }
      PositionIsFirstLarger(Values(items), value, k + 1);
    }

    /** Where vListInsert goes with a maximal value: behind everything, with no search. */
    lemma LastPlace()
      requires Valid()
      ensures xListEnd.pxPrevious == Nodes()[|items|]
      ensures ValuePosition(Values(items), MAX_DELAY) == |items| + 1
    {
      Neighbours(|items|);
      AllBelow();
      hide Valid, Nodes, Values, ValuePosition;
      PositionIsFirstLarger(Values(items), MAX_DELAY, |items| + 1);
    }

    lemma AllBelow()
      requires Valid()
      ensures forall i | 0 <= i < |items| :: Values(items)[i] <= MAX_DELAY
    {
      hide Linked, Apart, Nodes, Values;
      forall i | 0 <= i < |items| ensures Values(items)[i] <= MAX_DELAY {
        ValueAt(items, i);
      }
    }

    /** vListInsert. */
    method Insert(item: ListItem)
      requires Valid() && item !in items && item != xListEnd && item.xItemValue <= MAX_DELAY
      modifies this, items, xListEnd, item
      ensures Valid()
      ensures var at := ValuePosition(old(Values(items)), old(item.xItemValue));
              && Contents() == InsertAt(old(Contents()), at, item)
              && Values(items) == old(Values(items))[..at - 1] + [old(item.xItemValue)] + old(Values(items))[at - 1..]
      ensures old(Sorted(Values(items))) ==> Sorted(Values(items))
    {
      hide Valid, Nodes, Values, ValuePosition, Sorted;
      ghost var were, values := items, Values(items);
      var value := item.xItemValue;
      var iter: ListItem;
      ghost var k: nat;
      if value == MAX_DELAY {
        k := |items|;
        LastPlace();
        Neighbours(k);
        iter := xListEnd.pxPrevious;
      } else {
        iter, k := FindPlace(value);
        Neighbours(k);
      }
      InsertBetween(item, iter, iter.pxNext, k);
      ValuesWith(were, k, item);
      if Sorted(values) {
        InsertionStaysSorted(values, value);
      }
    }

    /** listGET_OWNER_OF_NEXT_ENTRY. */
    method NextEntry() returns (item: ListItem)
      requires Valid() && items != []
      modifies this`pxIndex, this`at
      ensures Valid() && Contents() == Advanced(old(Contents())) && item == items[at - 1]
    {
      hide Path, Apart, Linked, Owned;
      Neighbours(at);
      Neighbours(0);
      MarkerIsNoItem(at + 1);
      pxIndex := pxIndex.pxNext;
      at := at + 1;
      if pxIndex == xListEnd {
        pxIndex := xListEnd.pxNext;
        at := 1;
      }
      item := pxIndex;
    }

    lemma MarkerIsNoItem(k: nat)
      requires Apart(Nodes()) && 1 <= k <= |items| + 1
      ensures Nodes()[k] == xListEnd <==> k == |items| + 1
    {
      assert Nodes()[|items| + 1] == xListEnd;
    }

    /** uxListRemove, found through the item's own container. */
    static method Remove(item: ListItem, ghost k: nat) returns (left: nat)
      requires item.pxContainer != null && item.pxContainer.Valid()
      requires k < |item.pxContainer.items| && item.pxContainer.items[k] == item
      modifies item.pxContainer, item.pxContainer.items, item.pxContainer.xListEnd
      ensures var list := old(item.pxContainer);
              && list.Valid() && list.Contents() == RemoveAt(old(item.pxContainer.Contents()), k + 1)
              && left == |list.items| && item !in list.items && item.pxContainer == null
    {
      hide Path, Linked, Apart, Owned;
      var list := item.pxContainer;
      ghost var path, was := list.Nodes(), list.items;
      ghost var fewer := was[..k] + was[k + 1..];
      list.Neighbours(k);
      list.Neighbours(k + 1);
      PathShrinks(list.xListEnd, was, k, list.at);
      LinkOut(item, item.pxPrevious, item.pxNext, path, k);
      assert Linked(Path(list.xListEnd, fewer));
      if list.pxIndex == item {
        list.pxIndex := item.pxPrevious;
      }
      OwnedWithout(was, list, k);
      item.pxContainer := null;
      assert Owned(fewer, list);
      list.at := if list.at >= k + 1 then list.at - 1 else list.at;
      list.items := fewer;
      list.uxNumberOfItems := list.uxNumberOfItems - 1;
      left := list.uxNumberOfItems;
    }
  }

  lemma PathGrows(end: ListItem, items: seq<ListItem>, k: nat, item: ListItem, at: nat)
    requires Apart(Path(end, items)) && k <= |items| && at <= |items| && item !in items && item != end
    ensures var more := items[..k] + [item] + items[k..];
            && item !in Path(end, items) && k + 1 < |Path(end, items)|
            && Path(end, more) == Spliced(Path(end, items), k, item) && Apart(Path(end, more))
            && Path(end, more)[if at >= k + 1 then at + 1 else at] == Path(end, items)[at]
  {
    hide Path, Apart, Spliced;
    IndexMoves(end, items, k, item, at);
    NotOnPath(end, item, items);
    SplicedApart(Path(end, items), k, item);
    PathWith(end, items, k, item);
  }

  lemma NotOnPath(end: ListItem, item: ListItem, items: seq<ListItem>)
    requires item !in items && item != end
    ensures item !in Path(end, items)
  {
  }

  lemma PathWith(end: ListItem, items: seq<ListItem>, k: nat, item: ListItem)
    requires k <= |items|
    ensures Path(end, items[..k] + [item] + items[k..]) == Spliced(Path(end, items), k, item)
  {
    var path := Path(end, items);
    assert path[..k + 1] == [end] + items[..k];
    assert path[k + 1..] == items[k..] + [end];
    Regrouped([end], items[..k] + [item], items[k..], [end]);
  }

  lemma PathShrinks(end: ListItem, items: seq<ListItem>, k: nat, at: nat)
    requires Apart(Path(end, items)) && k < |items| && at <= |items|
    ensures var path, fewer := Path(end, items), items[..k] + items[k + 1..];
            && k + 2 < |path| && path[k + 1] == items[k]
            && Path(end, fewer) == path[..k + 1] + path[k + 2..] && Apart(Path(end, fewer))
            && items[k] !in fewer && items[k] != end
            && (path[at] == items[k] <==> at == k + 1)
            && Path(end, fewer)[if at >= k + 1 then at - 1 else at] == if at == k + 1 then path[k] else path[at]
  {
    hide Apart, Path;
    var path, fewer := Path(end, items), items[..k] + items[k + 1..];
    PathWithout(end, items, k);
    ShorterApart(path, k);
    IndexShrinks(path, k, at);
    NotAmong(end, items[k], fewer);
  }

  lemma PathWithout(end: ListItem, items: seq<ListItem>, k: nat)
    requires k < |items|
    ensures var path := Path(end, items);
            path[k + 1] == items[k] && Path(end, items[..k] + items[k + 1..]) == path[..k + 1] + path[k + 2..]
  {
    var path := Path(end, items);
    assert path[..k + 1] == [end] + items[..k];
    assert path[k + 2..] == items[k + 1..] + [end];
    Regrouped([end], items[..k], items[k + 1..], [end]);
  }

  lemma Regrouped(a: seq<ListItem>, b: seq<ListItem>, c: seq<ListItem>, d: seq<ListItem>)
    ensures (a + b) + (c + d) == a + (b + c) + d
  {
  }

  lemma IndexShrinks(path: seq<ListItem>, k: nat, at: nat)
    requires k + 2 < |path| && at < |path|
    ensures (path[..k + 1] + path[k + 2..])[if at >= k + 1 then at - 1 else at]
         == if at == k + 1 then path[k] else path[at]
  {
  }

  lemma NotAmong(end: ListItem, item: ListItem, items: seq<ListItem>)
    requires item !in Path(end, items)
    ensures item !in items && item != end
  {
    var path := Path(end, items);
    assert path[0] == end;
    if i: nat :| i < |items| && items[i] == item {
      assert path[i + 1] == item;
    }
  }

  lemma ShorterApart(path: seq<ListItem>, k: nat)
    requires Apart(path) && k + 2 < |path|
    ensures Apart(path[..k + 1] + path[k + 2..])
    ensures forall i | 0 <= i < |path| :: path[i] == path[k + 1] <==> i == k + 1
    ensures path[k + 1] !in path[..k + 1] + path[k + 2..]
  {
  }

  lemma OwnedWithout(items: seq<ListItem>, list: List, k: nat)
    requires Owned(items, list) && k < |items|
    ensures Owned(items[..k] + items[k + 1..], list)
  {
  }
}
