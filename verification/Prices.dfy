/** Pricing transactions from a list of historical quotes, in one pass. */
module Prices {
  type U32 = x: nat | x < 0x1_0000_0000

  const MAX_TIME: U32 := 0xFFFF_FFFF

  datatype Quote = Quote(time: U32, price: real)
  datatype TxUsd = TxUsd(id: nat, time: U32, price: real)

  ghost predicate IsFirst(pqs: seq<Quote>, t: nat, i: nat) {
    i <= |pqs| && (forall j :: 0 <= j < i ==> pqs[j].time <= t) && (i < |pqs| ==> pqs[i].time > t)
  }

  /** The index of the first quote after time t, or the number of quotes. */
  function FirstAfter(pqs: seq<Quote>, t: nat): (i: nat)
    ensures IsFirst(pqs, t, i)
  {
    FirstFrom(pqs, t, 0)
  }

  function FirstFrom(pqs: seq<Quote>, t: nat, from: nat): (i: nat)
    requires from <= |pqs| && forall j :: 0 <= j < from ==> pqs[j].time <= t
    ensures from <= i && IsFirst(pqs, t, i)
    decreases |pqs| - from
  {
    if from == |pqs| || pqs[from].time > t then from else FirstFrom(pqs, t, from + 1)
  }

  lemma FirstIsUnique(pqs: seq<Quote>, t: nat, i: nat, j: nat)
    requires IsFirst(pqs, t, i) && IsFirst(pqs, t, j)
    ensures i == j
  {}

  /** The largest time up to and including transaction k. */
  function LatestTime(txs: seq<TxUsd>, k: nat): (t: nat)
    requires k < |txs|
  {
    if k == 0 then txs[0].time
    else
      var before := LatestTime(txs, k - 1);
      if txs[k].time > before then txs[k].time else before
  }

  function PriceAt(pqs: seq<Quote>, i: nat): real
    requires pqs != [] && i <= |pqs|
  {
    if i == 0 then pqs[0].price else pqs[i - 1].price
  }

  /** Moves the pointer past the quotes that are not after time t. At the end
      it stops on any time but the last one, which runs past the quotes. */
  method Advance(pqs: seq<Quote>, t: U32, from: nat) returns (i: nat, inBounds: bool, steps: nat)
    requires from <= |pqs|
    ensures inBounds <==> t < 0xFFFF_FFFF
    ensures inBounds ==> from <= i <= |pqs| && steps == 1 + (i - from) && (i < |pqs| ==> pqs[i].time > t)
    ensures inBounds ==> forall j :: from <= j < i ==> pqs[j].time <= t
    ensures !inBounds ==> steps == 1 + (|pqs| - from)
  {
    i, steps := from, 0;
    while true
      invariant from <= i <= |pqs| && steps == i - from
      invariant forall j :: from <= j < i ==> pqs[j].time <= t
      decreases |pqs| - i
    {
      var time := if i == |pqs| then MAX_TIME else pqs[i].time;
      steps := steps + 1;
      if time > t { return i, true, steps; }
      if i == |pqs| { return i, false, steps; }
      i := i + 1;
    }
  }

  /** It is the largest of them. */
  lemma {:induction false} LatestIsLargest(txs: seq<TxUsd>, k: nat)
    requires k < |txs|
    ensures (forall j :: 0 <= j <= k ==> txs[j].time <= LatestTime(txs, k))
    ensures exists j :: 0 <= j <= k && txs[j].time == LatestTime(txs, k)
  {
    if k > 0 { LatestIsLargest(txs, k - 1); }
    if k == 0 || LatestTime(txs, k) != LatestTime(txs, k - 1) {
      assert txs[k].time == LatestTime(txs, k);
    } else {
      var j :| 0 <= j <= k - 1 && txs[j].time == LatestTime(txs, k - 1);
      assert txs[j].time == LatestTime(txs, k);
    }
  }

  /** Transaction k with the price of its quote. */
  ghost function Priced(was: seq<TxUsd>, pqs: seq<Quote>, k: nat): TxUsd
    requires pqs != [] && k < |was|
  {
    was[k].(price := PriceAt(pqs, FirstAfter(pqs, LatestTime(was, k))))
  }

  /** Each transaction gets the quote before the first one that is later than
      it and than every transaction before it. The pass fails on an empty list
      of quotes, and on the last time there is; it takes at most one step per
      transaction and per quote. */
  method FillHistoricalPrices(txs: array<TxUsd>, pqs: seq<Quote>) returns (ok: bool, steps: nat)
    modifies txs
    ensures ok <==> pqs != [] && forall k :: 0 <= k < txs.Length ==> old(txs[k].time) < 0xFFFF_FFFF
    ensures forall k :: 0 <= k < txs.Length ==> txs[k].id == old(txs[k].id) && txs[k].time == old(txs[k].time)
    ensures ok ==> forall k :: 0 <= k < txs.Length ==> txs[k] == Priced(old(txs[..]), pqs, k)
    ensures steps <= txs.Length + |pqs|
  {
    steps := 0;
    if pqs == [] { return false, 0; }
    ghost var was := txs[..];
    var i: nat := 0;
    for k := 0 to txs.Length
      invariant i <= |pqs| && steps == k + i
      invariant txs[k..] == was[k..] && PricedUpTo(was, pqs, k, txs[..])
      invariant if k == 0 then i == 0 else IsFirst(pqs, LatestTime(was, k - 1), i)
    {
      assert txs[k] == txs[k..][0] == was[k];
      ghost var from := i;
      var inBounds, more;
      i, inBounds, more := Advance(pqs, txs[k].time, i);
      steps := steps + more;
      if !inBounds {
        assert was[k].time == MAX_TIME;
        return false, steps;
      }
      PointerIsFirst(was, pqs, k, from, i);
      ghost var before := txs[..];
      txs[k] := txs[k].(price := if i == 0 then pqs[0].price else pqs[i - 1].price);
      assert txs[..] == before[k := Priced(was, pqs, k)];
      assert txs[k + 1..] == before[k..][1..];
    }
    ok := true;
  }

  /** The first k transactions have been priced, and none has the last time. */
  ghost predicate PricedUpTo(was: seq<TxUsd>, pqs: seq<Quote>, k: nat, txs: seq<TxUsd>)
    requires pqs != []
  {
    k <= |was| == |txs| && forall j :: 0 <= j < k ==> was[j].time < MAX_TIME && txs[j] == Priced(was, pqs, j)
  }

  lemma PointerIsFirst(was: seq<TxUsd>, pqs: seq<Quote>, k: nat, from: nat, i: nat)
    requires k < |was| && from <= i <= |pqs|
    requires if k == 0 then from == 0 else IsFirst(pqs, LatestTime(was, k - 1), from)
    requires (forall j :: from <= j < i ==> pqs[j].time <= was[k].time) && (i < |pqs| ==> pqs[i].time > was[k].time)
    ensures IsFirst(pqs, LatestTime(was, k), i) && FirstAfter(pqs, LatestTime(was, k)) == i
  {
    FirstIsUnique(pqs, LatestTime(was, k), FirstAfter(pqs, LatestTime(was, k)),
      FirstFrom(pqs, LatestTime(was, k), from));
    FirstIsUnique(pqs, LatestTime(was, k), FirstAfter(pqs, LatestTime(was, k)), i);
  }

  ghost predicate Sorted(pqs: seq<Quote>) {
    forall i, j :: 0 <= i < j < |pqs| ==> pqs[i].time <= pqs[j].time
  }

  ghost predicate SortedTxs(txs: seq<TxUsd>) {
    forall i, j :: 0 <= i < j < |txs| ==> txs[i].time <= txs[j].time
  }

  /** The last quote not after time t, or the first quote if all are after it. */
  ghost predicate IsQuoteFor(pqs: seq<Quote>, t: nat, price: real) {
    if forall j :: 0 <= j < |pqs| ==> pqs[j].time > t then pqs != [] && price == pqs[0].price
    else exists j :: 0 <= j < |pqs| && pqs[j].time <= t && price == pqs[j].price
                     && forall l :: j < l < |pqs| ==> pqs[l].time > t
  }

  lemma {:induction false} SortedLatest(txs: seq<TxUsd>, k: nat)
    requires SortedTxs(txs) && k < |txs|
    ensures LatestTime(txs, k) == txs[k].time
  {
    if k > 0 {
      SortedLatest(txs, k - 1);
      assert txs[k - 1].time <= txs[k].time;
    }
  }

  /** On sorted transactions and quotes, each transaction is priced on its own. */
  lemma PricedOnItsOwn(txs: seq<TxUsd>, pqs: seq<Quote>, k: nat)
    requires pqs != [] && Sorted(pqs) && SortedTxs(txs) && k < |txs|
    ensures IsQuoteFor(pqs, txs[k].time, Priced(txs, pqs, k).price)
  {
    SortedLatest(txs, k);
    QuoteFor(pqs, txs[k].time, FirstAfter(pqs, txs[k].time));
  }

  /** On quotes in order and transactions in any order, each transaction has
      the price of the largest time up to it. */
  lemma PricedByLatest(txs: seq<TxUsd>, pqs: seq<Quote>, k: nat) returns (latest: nat)
    requires pqs != [] && Sorted(pqs) && k < |txs|
    ensures latest <= k && forall j :: 0 <= j <= k ==> txs[j].time <= txs[latest].time
    ensures IsQuoteFor(pqs, txs[latest].time, Priced(txs, pqs, k).price)
  {
    LatestIsLargest(txs, k);
    latest :| latest <= k && txs[latest].time == LatestTime(txs, k);
    QuoteFor(pqs, txs[latest].time, FirstAfter(pqs, txs[latest].time));
  }

  lemma SameFirstIff(pqs: seq<Quote>, t: nat, u: nat)
    requires t <= u
    ensures FirstAfter(pqs, t) == FirstAfter(pqs, u)
      <==> FirstAfter(pqs, t) == |pqs| || pqs[FirstAfter(pqs, t)].time > u
  {
    var i := FirstAfter(pqs, t);
    if i == |pqs| || pqs[i].time > u { FirstIsUnique(pqs, u, i, FirstAfter(pqs, u)); }
  }

  /** So it takes the quote of its own time exactly when the next quote is later
      than every transaction before it. */
  lemma OwnQuoteIff(txs: seq<TxUsd>, pqs: seq<Quote>, k: nat)
    requires k < |txs|
    ensures
      var next := FirstAfter(pqs, txs[k].time);
      FirstAfter(pqs, LatestTime(txs, k)) == next <==>
        next == |pqs| || forall j :: 0 <= j < k ==> txs[j].time < pqs[next].time
  {
    hide FirstAfter;
    LatestIsLargest(txs, k);
    SameFirstIff(pqs, txs[k].time, LatestTime(txs, k));
    var next := FirstAfter(pqs, txs[k].time);
    assert next < |pqs| ==> pqs[next].time > txs[k].time;
  }

  lemma QuoteFor(pqs: seq<Quote>, t: nat, i: nat)
    requires pqs != [] && Sorted(pqs) && IsFirst(pqs, t, i)
    ensures IsQuoteFor(pqs, t, PriceAt(pqs, i))
  {
    forall l | i <= l < |pqs|
      ensures pqs[l].time > t
    {
      assert pqs[i].time <= pqs[l].time;
    }
    if i > 0 { assert pqs[i - 1].time <= t; }
  }
}
