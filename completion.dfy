/** The completion ratio of the task list (calculatePercent): the share of
    tasks whose display string starts with the done marker. */
module Completion {
  import opened Markers

  /** 1 for a task that counts as completed, 0 otherwise. */
  function DoneBit(s: string): nat {
    if HasPrefix(s, Done) then 1 else 0
  }

  /** Number of items with the "[x]" prefix, counted from the front. */
  function CountDone(items: seq<string>): (n: nat)
    ensures n <= |items|
  {
    if items == [] then 0 else CountDone(items[..|items| - 1]) + DoneBit(items[|items| - 1])
  }

  /** The count is zero exactly when no item is done ... */
  lemma {:induction false} CountDoneZero(items: seq<string>)
    ensures CountDone(items) == 0 <==> forall k :: 0 <= k < |items| ==> !HasPrefix(items[k], Done)
  {
    if items != [] {
      var init := items[..|items| - 1];
      CountDoneZero(init);
      assert forall k :: 0 <= k < |init| ==> init[k] == items[k];
    }
  }

  /** ... and equals the length exactly when every item is done. */
  lemma {:induction false} CountDoneAll(items: seq<string>)
    ensures CountDone(items) == |items| <==> forall k :: 0 <= k < |items| ==> HasPrefix(items[k], Done)
  {
    if items != [] {
      var init := items[..|items| - 1];
      CountDoneAll(init);
      assert forall k :: 0 <= k < |init| ==> init[k] == items[k];
    }
  }

  /** Counting distributes over concatenation. */
  lemma {:induction false} CountDoneConcat(a: seq<string>, b: seq<string>)
    ensures CountDone(a + b) == CountDone(a) + CountDone(b)
  {
    if b != [] {
      var init := b[..|b| - 1];
      assert (a + b)[..|a + b| - 1] == a + init;
      CountDoneConcat(a, init);
    } else {
      assert a + b == a;
    }
  }

  /** The completion ratio: 0 for an empty list, else done / total. */
  function Ratio(items: seq<string>): (r: real)
    ensures 0.0 <= r <= 1.0
  {
    if |items| == 0 then 0.0 else CountDone(items) as real / |items| as real
  }

  /** A quotient is 1 exactly when the operands agree and 0 exactly when the dividend is. */
  lemma QuotientExtremes(c: real, n: real)
    requires n > 0.0
    ensures c / n == 1.0 <==> c == n
    ensures c / n == 0.0 <==> c == 0.0
  {
    assert (c / n) * n == c;
  }

  /** The ratio is 1 exactly when the list is non-empty and every item is done,
      and 0 exactly when no item is done. */
  lemma RatioExtremes(items: seq<string>)
    ensures Ratio(items) == 1.0 <==> items != [] && forall k :: 0 <= k < |items| ==> HasPrefix(items[k], Done)
    ensures Ratio(items) == 0.0 <==> forall k :: 0 <= k < |items| ==> !HasPrefix(items[k], Done)
  {
    CountDoneAll(items);
    CountDoneZero(items);
    if items != [] {
      QuotientExtremes(CountDone(items) as real, |items| as real);
    }
  }

  /** calculatePercent: a loop that counts the done items and divides by the length. */
  method CalculatePercent(items: seq<string>) returns (percent: real)
    ensures percent == Ratio(items)
  {
    if |items| == 0 {
      return 0.0;
    }
    var completed := 0.0;
    for i := 0 to |items|
      invariant completed == CountDone(items[..i]) as real
    {
      assert items[..i + 1][..i] == items[..i];
      if HasPrefix(items[i], Done) {
        completed := completed + 1.0;
      }
    }
    assert items[..|items|] == items;
    percent := completed / |items| as real;
  }
}
