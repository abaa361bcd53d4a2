/** Stock batches of one product and the sold-batch report `calculateSoldBatches`
    (components/InventoryTable.tsx). */
module Ledger {
  import opened Tables
  import opened Expiry

  /** Batch ids are opaque strings built from the product id and a timestamp. */
  type BatchId = string

  /** A lot of stock: `quantity` units entered on `entryDate`, `remaining` of them still on the
      shelf, expiring on `expiryDate`; `isNew` marks the lots restocked on the table's day. */
  datatype Batch = Batch(
    id: BatchId,
    productId: int,
    entryDate: int,
    expiryDate: int,
    quantity: int,
    remaining: int,
    isNew: bool)

  /** One line of the sold-batch report: the prior batch, how many of its units are gone, and
      whether the whole batch disappeared. */
  datatype SoldBatch = SoldBatch(batch: Batch, soldQuantity: int, soldAll: bool)

  function RemainingOf(b: Batch): int { b.remaining }

  function QuantityOf(b: Batch): int { b.quantity }

  /** `batches.reduce((sum, b) => sum + b.remaining, 0)` */
  function SumRemaining(bs: seq<Batch>): int
  {
    SumOf(bs, RemainingOf)
  }

  /** Sum of the entered quantities. */
  function SumQuantity(bs: seq<Batch>): int
  {
    SumOf(bs, QuantityOf)
  }

  /** No batch holds a negative remaining count. */
  predicate NonNegative(bs: seq<Batch>)
  {
    forall b :: b in bs ==> 0 <= b.remaining
  }

  /** Stock on hand is never negative when no batch is. */
  lemma SumRemainingNonNegative(bs: seq<Batch>)
    requires NonNegative(bs)
    ensures 0 <= SumRemaining(bs)
  {
    assert forall b :: b in bs ==> 0 <= RemainingOf(b);
  }

  /** Two ledgers side by side hold the stock of both. */
  lemma SumRemainingAppend(a: seq<Batch>, b: seq<Batch>)
    ensures SumRemaining(a + b) == SumRemaining(a) + SumRemaining(b)
  {
    SumOfAppend(a, b, RemainingOf);
  }

  lemma SumQuantityAppend(a: seq<Batch>, b: seq<Batch>)
    ensures SumQuantity(a + b) == SumQuantity(a) + SumQuantity(b)
  {
    SumOfAppend(a, b, QuantityOf);
  }

  /** A one-batch ledger holds that batch's stock. */
  lemma SumSingle(b: Batch)
    ensures SumRemaining([b]) == b.remaining && SumQuantity([b]) == b.quantity
  {
    assert [b][1..] == [];
    assert SumOf([b][1..], RemainingOf) == 0 && SumOf([b][1..], QuantityOf) == 0;
  }

  /** `batches.map(b => getBatchExpiryStatus(b.expiryDate, date))` */
  function Statuses(bs: seq<Batch>, date: int): (ts: seq<Tier>)
    ensures |ts| == |bs|
    ensures forall i :: 0 <= i < |bs| ==> ts[i] == Classify(bs[i].expiryDate, date)
  {
    if bs == [] then [] else [Classify(bs[0].expiryDate, date)] + Statuses(bs[1..], date)
  }

  /** Batch ids are pairwise distinct. */
  predicate DistinctIds(bs: seq<Batch>)
  {
    forall i, j :: 0 <= i < j < |bs| ==> bs[i].id != bs[j].id
  }

  predicate SortedByExpiry(bs: seq<Batch>)
  {
    forall i, j :: 0 <= i < j < |bs| ==> bs[i].expiryDate <= bs[j].expiryDate
  }

  /** Puts `b` in front of the first batch that expires no earlier than it. */
  function InsertByExpiry(b: Batch, s: seq<Batch>): (r: seq<Batch>)
    ensures |r| == |s| + 1
    ensures forall x :: x in r <==> x in s || x == b
  {
    if s == [] || b.expiryDate <= s[0].expiryDate then [b] + s
    else
      assert s == [s[0]] + s[1..];
      [s[0]] + InsertByExpiry(b, s[1..])
  }

  /** Inserting into a sorted ledger keeps it sorted. */
  lemma {:induction false} InsertKeepsSorted(b: Batch, s: seq<Batch>)
    requires SortedByExpiry(s)
    ensures SortedByExpiry(InsertByExpiry(b, s))
  {
    var r := InsertByExpiry(b, s);
    if s == [] || b.expiryDate <= s[0].expiryDate {
      forall i, j | 0 <= i < j < |r|
        ensures r[i].expiryDate <= r[j].expiryDate
      {
        if i > 0 {
          assert r[i] == s[i - 1] && r[j] == s[j - 1];
        } else {
          assert r[j] == s[j - 1];
        }
      }
    } else {
      var tail := s[1..];
      SortedTail(s);
      InsertKeepsSorted(b, tail);
      var rest := InsertByExpiry(b, tail);
      assert r == [s[0]] + rest;
      assert forall x :: x in rest ==> s[0].expiryDate <= x.expiryDate;
      forall i, j | 0 <= i < j < |r|
        ensures r[i].expiryDate <= r[j].expiryDate
      {
        assert r[j] == rest[j - 1];
        if i > 0 {
          assert r[i] == rest[i - 1];
        } else {
          assert rest[j - 1] in rest;
        }
      }
    }
  }

  /** `[...batches].sort((a, b) => a.expiryDate - b.expiryDate)`: a stable sort by expiry date,
      earliest first (an earlier batch goes before a later one with the same expiry day, as
      `SortByExpiryStable` states). */
  function SortByExpiry(s: seq<Batch>): (r: seq<Batch>)
    ensures forall x :: x in r <==> x in s
    ensures |r| == |s|
    ensures SortedByExpiry(r)
  {
    if s == [] then []
    else
      assert s == [s[0]] + s[1..];
      var rest := SortByExpiry(s[1..]);
      InsertKeepsSorted(s[0], rest);
      InsertByExpiry(s[0], rest)
  }

  /** Inserting adds exactly the one batch: the result is a permutation of `[b] + s`. */
  lemma {:induction false} InsertByExpiryPermutes(b: Batch, s: seq<Batch>)
    ensures multiset(InsertByExpiry(b, s)) == multiset(s) + multiset{b}
  {
    if s != [] && s[0].expiryDate < b.expiryDate {
      assert s == [s[0]] + s[1..];
      InsertByExpiryPermutes(b, s[1..]);
    }
  }

  /** Sorting neither adds, drops nor duplicates a batch: the result is a permutation. */
  lemma {:induction false} SortByExpiryPermutes(s: seq<Batch>)
    ensures multiset(SortByExpiry(s)) == multiset(s)
  {
    if s != [] {
      assert s == [s[0]] + s[1..];
      SortByExpiryPermutes(s[1..]);
      InsertByExpiryPermutes(s[0], SortByExpiry(s[1..]));
    }
  }

  /** The batches that expire on day `d`. */
  function ExpiresOn(d: int): Batch -> bool
  {
    (b: Batch) => b.expiryDate == d
  }

  /** Inserting keeps the order among batches that expire on the same day: `b` goes in front of
      every batch of `s` with its own expiry day. */
  lemma {:induction false} InsertByExpiryStable(b: Batch, s: seq<Batch>, d: int)
    ensures Filter(InsertByExpiry(b, s), ExpiresOn(d)) == Filter([b] + s, ExpiresOn(d))
  {
    var p := ExpiresOn(d);
    if s != [] && b.expiryDate > s[0].expiryDate {
      var tail := s[1..];
      var t := InsertByExpiry(b, tail);
      assert s == [s[0]] + tail;
      assert InsertByExpiry(b, s) == [s[0]] + t;
      InsertByExpiryStable(b, tail, d);
      FilterCons(s[0], t, p);
      FilterCons(s[0], tail, p);
      FilterCons(b, tail, p);
      FilterCons(b, s, p);
      if s[0].expiryDate == d {
        assert !p(b) && p(s[0]);
        assert Filter(t, p) == Filter(tail, p);
        assert Filter([b] + s, p) == Filter(s, p);
      } else {
        assert !p(s[0]);
        assert Filter([s[0]] + t, p) == Filter(t, p);
        assert Filter(s, p) == Filter(tail, p);
      }
    }
  }

  /** The sort is stable: the batches expiring on any one day come out in their original order. */
  lemma {:induction false} SortByExpiryStable(s: seq<Batch>, d: int)
    ensures Filter(SortByExpiry(s), ExpiresOn(d)) == Filter(s, ExpiresOn(d))
  {
    if s != [] {
      var rest := SortByExpiry(s[1..]);
      assert s == [s[0]] + s[1..];
      SortByExpiryStable(s[1..], d);
      InsertByExpiryStable(s[0], rest, d);
      FilterCons(s[0], rest, ExpiresOn(d));
      FilterCons(s[0], s[1..], ExpiresOn(d));
    }
  }

  /** `current.find(b => b.id === id)` */
  function FindBatch(current: seq<Batch>, id: BatchId): (r: Option<Batch>)
    ensures r.Some? ==> r.value in current && r.value.id == id
    ensures r.None? ==> forall b :: b in current ==> b.id != id
  {
    Find(current, (b: Batch) => b.id == id)
  }

  /** A prior batch has lost stock: its id is gone, or its remaining count went down. */
  predicate Depleted(p: Batch, current: seq<Batch>)
  {
    match FindBatch(current, p.id)
    case None => true
    case Some(c) => c.remaining < p.remaining
  }

  /** What a report line claims about its batch, judged against the current ledger. */
  predicate Describes(e: SoldBatch, current: seq<Batch>)
  {
    match FindBatch(current, e.batch.id)
    case None => e.soldAll && e.soldQuantity == e.batch.remaining
    case Some(c) => !e.soldAll && c.remaining < e.batch.remaining && e.soldQuantity == e.batch.remaining - c.remaining
  }

  /** The report line (or none) for one prior batch: the body of the loop in `calculateSoldBatches`. */
  function EntryFor(p: Batch, current: seq<Batch>): seq<SoldBatch>
  {
    match FindBatch(current, p.id)
    case None => [SoldBatch(p, p.remaining, true)]
    case Some(c) => if c.remaining < p.remaining then [SoldBatch(p, p.remaining - c.remaining, false)] else []
  }

  /** The report over prior batches taken in the given order. */
  function SoldEntries(prior: seq<Batch>, current: seq<Batch>): (r: seq<SoldBatch>)
    ensures |r| <= |prior|
  {
    if prior == [] then []
    else EntryFor(prior[0], current) + SoldEntries(prior[1..], current)
  }

  /** Every report line is about a prior batch and describes what the current ledger holds of it. */
  lemma {:induction false} SoldEntriesDescribe(prior: seq<Batch>, current: seq<Batch>)
    ensures forall e :: e in SoldEntries(prior, current) ==> e.batch in prior && Describes(e, current)
  {
    if prior != [] {
      SoldEntriesDescribe(prior[1..], current);
      assert forall x :: x in prior[1..] ==> x in prior;
    }
  }

  /** A report over two stretches of prior batches is the two reports back to back. */
  lemma {:induction false} SoldEntriesAppend(a: seq<Batch>, b: seq<Batch>, current: seq<Batch>)
    ensures SoldEntries(a + b, current) == SoldEntries(a, current) + SoldEntries(b, current)
  {
    if a == [] {
      assert a + b == b;
    } else {
      assert (a + b)[0] == a[0];
      assert (a + b)[1..] == a[1..] + b;
      SoldEntriesAppend(a[1..], b, current);
    }
  }

  /** A prior batch gets a report line exactly when it has been depleted. */
  lemma {:induction false} SoldEntriesComplete(prior: seq<Batch>, current: seq<Batch>, p: Batch)
    requires p in prior
    ensures Depleted(p, current) <==> exists e :: e in SoldEntries(prior, current) && e.batch == p
  {
    var r := SoldEntries(prior, current);
    SoldEntriesDescribe(prior, current);
    if prior[0] == p {
      if Depleted(p, current) {
        assert r[0].batch == p;
      } else {
        assert forall e :: e in r ==> (Describes(e, current) ==> Depleted(e.batch, current));
      }
    } else {
      assert p in prior[1..];
      SoldEntriesComplete(prior[1..], current, p);
      assert forall e :: e in r ==> (Describes(e, current) ==> Depleted(e.batch, current));
      if Depleted(p, current) {
        var e :| e in SoldEntries(prior[1..], current) && e.batch == p;
        assert e in r;
      }
    }
  }

  /** The tail of a sorted ledger is sorted and expires no earlier than its head. */
  lemma SortedTail(s: seq<Batch>)
    requires SortedByExpiry(s) && s != []
    ensures SortedByExpiry(s[1..])
    ensures forall x :: x in s[1..] ==> s[0].expiryDate <= x.expiryDate
  {
    var tail := s[1..];
    forall i, j | 0 <= i < j < |tail|
      ensures tail[i].expiryDate <= tail[j].expiryDate
    {
      assert tail[i] == s[i + 1] && tail[j] == s[j + 1];
    }
    forall x | x in tail
      ensures s[0].expiryDate <= x.expiryDate
    {
      var k :| 0 <= k < |tail| && tail[k] == x;
      assert s[k + 1] == x;
    }
  }

  /** Report lines ordered by the expiry of their batches. */
  predicate LinesByExpiry(r: seq<SoldBatch>)
  {
    forall i, j :: 0 <= i < j < |r| ==> r[i].batch.expiryDate <= r[j].batch.expiryDate
  }

  /** At most one line for a batch expiring on day `d`, put before ordered lines expiring no
      earlier, gives ordered lines. */
  lemma LinesByExpiryCons(head: seq<SoldBatch>, rest: seq<SoldBatch>, d: int)
    requires |head| <= 1 && forall e :: e in head ==> e.batch.expiryDate == d
    requires LinesByExpiry(rest) && forall e :: e in rest ==> d <= e.batch.expiryDate
    ensures LinesByExpiry(head + rest)
  {
    var r := head + rest;
    forall i, j | 0 <= i < j < |r|
      ensures r[i].batch.expiryDate <= r[j].batch.expiryDate
    {
      assert r[j] == rest[j - |head|];
      if i < |head| {
        assert r[i] == head[i];
        assert rest[j - |head|] in rest;
      } else {
        assert r[i] == rest[i - |head|];
      }
    }
  }

  /** Report lines come out in the order of the prior batches, so a sorted input gives
      lines ordered by non-decreasing expiry. */
  lemma {:induction false} SoldEntriesOrdered(prior: seq<Batch>, current: seq<Batch>)
    requires SortedByExpiry(prior)
    ensures LinesByExpiry(SoldEntries(prior, current))
  {
    if prior != [] {
      var tail := prior[1..];
      SortedTail(prior);
      SoldEntriesOrdered(tail, current);
      var rest := SoldEntries(tail, current);
      SoldEntriesDescribe(tail, current);
      LinesByExpiryCons(EntryFor(prior[0], current), rest, prior[0].expiryDate);
    }
  }

  /** When every prior batch is found unchanged in the current ledger nothing is reported. */
  lemma {:induction false} SoldEntriesNoneWhenUnchanged(prior: seq<Batch>, current: seq<Batch>)
    requires forall p :: p in prior ==> FindBatch(current, p.id) == Some(p)
    ensures SoldEntries(prior, current) == []
  {
    if prior != [] {
      assert forall x :: x in prior[1..] ==> x in prior;
      SoldEntriesNoneWhenUnchanged(prior[1..], current);
    }
  }

  /** With distinct ids, looking up a batch of `prior` in `prior + extra` finds that batch. */
  lemma FindBatchInPrefix(prior: seq<Batch>, extra: seq<Batch>, p: Batch)
    requires DistinctIds(prior) && p in prior
    ensures FindBatch(prior + extra, p.id) == Some(p)
  {
    var i :| 0 <= i < |prior| && prior[i] == p;
    var s := prior + extra;
    assert s[i] == p;
    assert forall j :: 0 <= j < i ==> s[j] == prior[j];
    FindFirst(s, (b: Batch) => b.id == p.id, i);
  }

  /** The report of an untouched day: the opening ledger is the prior ledger plus new batches,
      so no prior batch is reported sold. */
  lemma OpeningReportsNoSales(prior: seq<Batch>, extra: seq<Batch>)
    requires DistinctIds(prior)
    ensures SoldEntries(SortByExpiry(prior), prior + extra) == []
  {
    var sorted := SortByExpiry(prior);
    forall p | p in sorted
      ensures FindBatch(prior + extra, p.id) == Some(p)
    {
      FindBatchInPrefix(prior, extra, p);
    }
    SoldEntriesNoneWhenUnchanged(sorted, prior + extra);
  }

  /** One more prior batch adds its own line (or none) at the end of the report. */
  lemma SoldEntriesStep(s: seq<Batch>, k: nat, current: seq<Batch>)
    requires k < |s|
    ensures SoldEntries(s[..k + 1], current) == SoldEntries(s[..k], current) + EntryFor(s[k], current)
  {
    assert s[..k + 1] == s[..k] + [s[k]];
    SoldEntriesAppend(s[..k], [s[k]], current);
    assert [s[k]][1..] == [];
  }

  /** The report over the prior batches sorted by expiry has at most one line per prior batch,
      each line describes a prior batch, and the lines are ordered by expiry. */
  lemma SoldReportShape(previousBatches: seq<Batch>, currentBatches: seq<Batch>)
    ensures var r := SoldEntries(SortByExpiry(previousBatches), currentBatches);
      && |r| <= |previousBatches|
      && (forall e :: e in r ==> e.batch in previousBatches && Describes(e, currentBatches))
      && LinesByExpiry(r)
  {
    SoldEntriesDescribe(SortByExpiry(previousBatches), currentBatches);
    SoldEntriesOrdered(SortByExpiry(previousBatches), currentBatches);
  }

  /** `calculateSoldBatches(previousBatches, currentBatches)`: sorts the prior batches by expiry
      and walks them, pushing a line for each one whose id is gone from the current ledger (all
      of its remaining units sold) or whose remaining count went down (the difference sold). */
  method CalculateSoldBatches(previousBatches: seq<Batch>, currentBatches: seq<Batch>)
    returns (soldBatches: seq<SoldBatch>)
    ensures soldBatches == SoldEntries(SortByExpiry(previousBatches), currentBatches)
    ensures |soldBatches| <= |previousBatches|
    ensures forall e :: e in soldBatches ==> e.batch in previousBatches && Describes(e, currentBatches)
    ensures LinesByExpiry(soldBatches)
  {
    var sorted := SortByExpiry(previousBatches);
    soldBatches := [];
    for k := 0 to |sorted|
      invariant soldBatches == SoldEntries(sorted[..k], currentBatches)
    {
      var prevBatch := sorted[k];
      var currentBatch := FindBatch(currentBatches, prevBatch.id);
      SoldEntriesStep(sorted, k, currentBatches);
      if currentBatch.None? {
        assert EntryFor(prevBatch, currentBatches) == [SoldBatch(prevBatch, prevBatch.remaining, true)];
        soldBatches := soldBatches + [SoldBatch(prevBatch, prevBatch.remaining, true)];
      } else if currentBatch.value.remaining < prevBatch.remaining {
        assert EntryFor(prevBatch, currentBatches)
          == [SoldBatch(prevBatch, prevBatch.remaining - currentBatch.value.remaining, false)];
        soldBatches := soldBatches + [SoldBatch(prevBatch, prevBatch.remaining - currentBatch.value.remaining, false)];
      } else {
        assert EntryFor(prevBatch, currentBatches) == [];
      }
    }
    assert sorted[..|sorted|] == sorted;
    SoldReportShape(previousBatches, currentBatches);
  }
}
