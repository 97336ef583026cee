/** The task store: the list widget reduced to a sequence of display strings,
    with the three edits the program asks of it (SetItem, RemoveItem and
    InsertItem), and the list invariant that every task line is well-formed. */
module Tasks {
  import opened Markers
  import opened Completion

  /** Every stored task line starts with "[ ] " or "[x] ". */
  predicate AllWellFormed(items: seq<string>) {
    forall k :: 0 <= k < |items| ==> WellFormed(items[k])
  }

  /** SetItem(i, v): replace the item at index i. */
  function SetAt(items: seq<string>, i: int, v: string): (r: seq<string>)
    requires 0 <= i < |items|
    ensures |r| == |items| && r[i] == v
    ensures forall k :: 0 <= k < |items| && k != i ==> r[k] == items[k]
  {
    items[i := v]
  }

  /** RemoveItem(i): delete the item at index i, later items move down by one. */
  function RemoveAt(items: seq<string>, i: int): (r: seq<string>)
    requires 0 <= i < |items|
    ensures |r| == |items| - 1
    ensures forall k :: 0 <= k < i ==> r[k] == items[k]
    ensures forall k :: i <= k < |r| ==> r[k] == items[k + 1]
    ensures multiset(r) + multiset{items[i]} == multiset(items)
  {
    assert items == items[..i] + [items[i]] + items[i + 1..];
    items[..i] + items[i + 1..]
  }

  /** InsertItem(i, v): insert at index i; an index past the end appends. */
  function InsertAt(items: seq<string>, i: nat, v: string): (r: seq<string>)
    ensures |r| == |items| + 1
    ensures var p := if i < |items| then i else |items|;
      r[p] == v &&
      (forall k :: 0 <= k < p ==> r[k] == items[k]) &&
      (forall k :: p < k < |r| ==> r[k] == items[k - 1])
  {
    if i < |items| then items[..i] + [v] + items[i..] else items + [v]
  }

  /** Inserting at an index at or past the end is an append. */
  lemma InsertPastEnd(items: seq<string>, i: nat, v: string)
    requires |items| <= i
    ensures InsertAt(items, i, v) == items + [v]
  {
    var r := InsertAt(items, i, v);
    assert forall k :: 0 <= k < |r| ==> r[k] == (items + [v])[k];
  }

  lemma SetAtWellFormed(items: seq<string>, i: int, v: string)
    requires AllWellFormed(items) && 0 <= i < |items| && WellFormed(v)
    ensures AllWellFormed(SetAt(items, i, v))
  {
  }

  lemma RemoveAtWellFormed(items: seq<string>, i: int)
    requires AllWellFormed(items) && 0 <= i < |items|
    ensures AllWellFormed(RemoveAt(items, i))
  {
    var r := RemoveAt(items, i);
    forall k | 0 <= k < |r| ensures WellFormed(r[k]) {
      if k >= i { assert r[k] == items[k + 1]; }
    }
  }

  lemma InsertAtWellFormed(items: seq<string>, i: nat, v: string)
    requires AllWellFormed(items) && WellFormed(v)
    ensures AllWellFormed(InsertAt(items, i, v))
  {
    var r := InsertAt(items, i, v);
    var p := if i < |items| then i else |items|;
    forall k | 0 <= k < |r| ensures WellFormed(r[k]) {
      if k > p { assert r[k] == items[k - 1]; }
    }
  }

  /** Replacing one item changes the done count by the difference of the two items' bits. */
  lemma {:induction false} CountDoneSetAt(items: seq<string>, i: int, v: string)
    requires 0 <= i < |items|
    ensures CountDone(SetAt(items, i, v)) + DoneBit(items[i]) == CountDone(items) + DoneBit(v)
  {
    assert items == items[..i] + [items[i]] + items[i + 1..];
    assert SetAt(items, i, v) == items[..i] + [v] + items[i + 1..];
    CountDoneConcat(items[..i] + [items[i]], items[i + 1..]);
    CountDoneConcat(items[..i], [items[i]]);
    CountDoneConcat(items[..i] + [v], items[i + 1..]);
    CountDoneConcat(items[..i], [v]);
    assert CountDone([v]) == DoneBit(v) by { assert [v][..0] == []; }
    assert CountDone([items[i]]) == DoneBit(items[i]) by { assert [items[i]][..0] == []; }
  }

  /** Removing one item lowers the done count by that item's bit. */
  lemma {:induction false} CountDoneRemoveAt(items: seq<string>, i: int)
    requires 0 <= i < |items|
    ensures CountDone(RemoveAt(items, i)) + DoneBit(items[i]) == CountDone(items)
  {
    assert items == items[..i] + [items[i]] + items[i + 1..];
    CountDoneConcat(items[..i] + [items[i]], items[i + 1..]);
    CountDoneConcat(items[..i], [items[i]]);
    CountDoneConcat(items[..i], items[i + 1..]);
    assert CountDone([items[i]]) == DoneBit(items[i]) by { assert [items[i]][..0] == []; }
  }
}
