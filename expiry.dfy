/** Freshness of stock: the per-batch classifier `getBatchExpiryStatus` and the per-product
    rollup that tallies batch tiers and picks the strict plurality (components/InventoryTable.tsx).
    Dates are whole day numbers, so `differenceInDays(expiry, today)` is `expiry - today`. */
module Expiry {

  datatype Tier = Expired | Warning | Safe

  /** Tier of a batch that expires on day `expiryDate`, seen from day `today`. */
  function Classify(expiryDate: int, today: int): (t: Tier)
    ensures t == Expired <==> expiryDate - today <= 0
    ensures t == Warning <==> 1 <= expiryDate - today <= 2
    ensures t == Safe <==> expiryDate - today > 2
  {
    var daysToExpiry := expiryDate - today;
    if daysToExpiry <= 0 then Expired
    else if daysToExpiry <= 2 then Warning
    else Safe
  }

  /** How close to the bin a tier is: Safe 0, Warning 1, Expired 2. */
  function Severity(t: Tier): nat
  {
    match t
    case Safe => 0
    case Warning => 1
    case Expired => 2
  }

  /** As the reference day moves forward a batch's tier never gets better. */
  lemma ClassifyMonotone(expiryDate: int, earlier: int, later: int)
    requires earlier <= later
    ensures Severity(Classify(expiryDate, earlier)) <= Severity(Classify(expiryDate, later))
  {
  }

  /** The statusCounts record of an inventory row. */
  datatype Counts = Counts(expired: nat, warning: nat, safe: nat)

  /** `statuses.filter(s => s === t).length` */
  function CountOf(ts: seq<Tier>, t: Tier): (n: nat)
    ensures n <= |ts|
  {
    if ts == [] then 0 else (if ts[0] == t then 1 else 0) + CountOf(ts[1..], t)
  }

  /** Counting a tier is taking its multiplicity: the tally ignores the order of the batches. */
  lemma {:induction false} CountIsMultiplicity(ts: seq<Tier>, t: Tier)
    ensures CountOf(ts, t) == multiset(ts)[t]
  {
    if ts != [] {
      assert ts == [ts[0]] + ts[1..];
      assert multiset(ts) == multiset{ts[0]} + multiset(ts[1..]);
      CountIsMultiplicity(ts[1..], t);
    }
  }

  /** Every status lands in exactly one of the three counters. */
  lemma {:induction false} CountsCoverAll(ts: seq<Tier>)
    ensures CountOf(ts, Expired) + CountOf(ts, Warning) + CountOf(ts, Safe) == |ts|
  {
    if ts != [] {
      CountsCoverAll(ts[1..]);
    }
  }

  /** The three counters of a list of statuses. */
  function Tally(ts: seq<Tier>): (c: Counts)
    ensures c.expired + c.warning + c.safe == |ts|
  {
    CountsCoverAll(ts);
    Counts(CountOf(ts, Expired), CountOf(ts, Warning), CountOf(ts, Safe))
  }

  /** Each counter is the multiplicity of its tier, so the tally ignores the order of the
      statuses. */
  lemma TallyIsMultiplicity(ts: seq<Tier>)
    ensures Tally(ts) == Counts(multiset(ts)[Expired], multiset(ts)[Warning], multiset(ts)[Safe])
  {
    CountIsMultiplicity(ts, Expired);
    CountIsMultiplicity(ts, Warning);
    CountIsMultiplicity(ts, Safe);
  }

  /** The product's rolled-up status: a tier wins only with a count strictly above both
      other counts; with no such tier (empty list, ties) the row is Safe. */
  function Majority(c: Counts): (t: Tier)
    ensures t == Expired <==> c.expired > c.warning && c.expired > c.safe
    ensures t == Warning <==> c.warning > c.expired && c.warning > c.safe
    ensures t == Safe <==>
      (c.expired <= c.warning || c.expired <= c.safe) && (c.warning <= c.expired || c.warning <= c.safe)
  {
    if c.expired > c.warning && c.expired > c.safe then Expired
    else if c.warning > c.expired && c.warning > c.safe then Warning
    else Safe
  }

  /** A winning tier (other than the default) holds more statuses than either other tier. */
  lemma MajorityWinnerDominates(ts: seq<Tier>)
    ensures Majority(Tally(ts)) != Safe ==>
      forall u :: u != Majority(Tally(ts)) ==> multiset(ts)[u] < multiset(ts)[Majority(Tally(ts))]
  {
    TallyIsMultiplicity(ts);
  }

  /** The rollup depends only on how many batches are in each tier, not on their order. */
  lemma RollupIgnoresOrder(ts: seq<Tier>, us: seq<Tier>)
    requires multiset(ts) == multiset(us)
    ensures Majority(Tally(ts)) == Majority(Tally(us))
  {
    TallyIsMultiplicity(ts);
    TallyIsMultiplicity(us);
  }

  /** The default: no batches, or a tie at the top, reads as Safe, even when no batch is safe. */
  lemma MajorityDefaultsToSafe()
    ensures Majority(Tally([])) == Safe
    ensures Majority(Tally([Expired, Warning])) == Safe
    ensures Majority(Tally([Expired, Warning, Safe])) == Safe
  {
    TallyIsMultiplicity([]);
    TallyIsMultiplicity([Expired, Warning]);
    TallyIsMultiplicity([Expired, Warning, Safe]);
    assert [Expired, Warning] == [Expired] + [Warning];
    assert multiset([Expired, Warning])[Expired] == 1;
    assert multiset([Expired, Warning])[Warning] == 1;
    assert multiset([Expired, Warning, Safe])[Expired] == 1;
    assert multiset([Expired, Warning, Safe])[Warning] == 1;
    assert multiset([Expired, Warning, Safe])[Safe] == 1;
  }
}
