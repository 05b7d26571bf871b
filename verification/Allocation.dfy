/** The controller that decides the next quota of one client for one flow control. */
module Allocation {
  import opened Wrappers
  import opened Numbers

  datatype FlowControlType = MaxRequestsInflight | TokenBucket | Unknown

  datatype Bucket = Bucket(qps: int, burst: int)

  /** A limit is given as a maximum in flight, as a token bucket, or not at all. */
  datatype Limit = Limit(maxInflight: Option<int>, bucket: Option<Bucket>)

  const NO_LIMIT := Limit(None, None)

  datatype Strategy = LocalLimit | GlobalAllocateLimit | GlobalCountLimit

  datatype Item = Item(name: string, limit: Limit, strategy: Strategy)

  datatype ItemStatus = ItemStatus(name: string, limit: Limit, level: int)

  function TypeOf(limit: Limit): FlowControlType {
    if limit.maxInflight.Some? then MaxRequestsInflight
    else if limit.bucket.Some? then TokenBucket
    else Unknown
  }

  function LimitQuota(limit: Limit, typ: FlowControlType): int {
    match typ
    case MaxRequestsInflight => limit.maxInflight.GetOr(0)
    case TokenBucket => limit.bucket.GetOr(Bucket(0, 0)).qps
    case Unknown => -1
  }

  function SetLimit(limit: Limit, typ: FlowControlType, quota: int, burst: int): (r: Limit)
    ensures typ != Unknown ==> LimitQuota(r, typ) == quota
    ensures typ == MaxRequestsInflight ==> r.bucket == limit.bucket
    ensures typ == TokenBucket ==> r.maxInflight == limit.maxInflight
  {
    match typ
    case MaxRequestsInflight => limit.(maxInflight := Some(quota))
    case TokenBucket => limit.(bucket := Some(Bucket(quota, burst)))
    case Unknown => limit
  }

  // ---------- thresholds ----------

  /** The share of the total, in percent, that should be handed out while nothing is in use. */
  function MinimumPercent(total: int): int {
    var p := Trunc(70.0 - total as real / 100.0);
    if p < 60 then 60 else p
  }

  /** The share of the total, in percent, that should be handed out at a given upstream request level. */
  function ExpectedAllocatePercent(upstreamLevel: int, total: int): int {
    var minPercent := MinimumPercent(total);
    Wrap32(TruncDiv(Wrap32(upstreamLevel * (100 - minPercent)), 100) + minPercent)
  }

  /** What the conversion of an undefined float to 32 bits yields: Go leaves it open, and so does the model. */
  const UNDEFINED_AS_INT32: int

  /** The root of a percentage, rounded down; a negative one has none. */
  function Compensation(percent: real): int {
    if percent < 0.0 then UNDEFINED_AS_INT32 else ISqrt(percent.Floor)
  }

  /** The utilisation a single client should have, at most 100. */
  function TargetLevel(upstreamLevel: int, total: int, used: int): (target: int)
    requires total != 0
    requires ExpectedAllocatePercent(upstreamLevel, total) != 0
    ensures target <= 100
  {
    var expectTotalLevel := Wrap32(TruncDiv(Wrap32(upstreamLevel * 95), 100) + 5);
    var target := Wrap32(TruncDiv(Wrap32(expectTotalLevel * 100), ExpectedAllocatePercent(upstreamLevel, total)));
    var target' := Wrap32(target + Compensation(used as real * 100.0 / total as real));
    if target' > 100 then 100 else target'
  }

  /** Below the first level quota is taken back, from the second on quota is added. */
  function Thresholds(target: int): (t: (int, int)) {
    if target > 50 then (target - 5, target) else (target, target + 5)
  }

  /** A reported level above 100 is recomputed when the client did not use more than its quota. */
  function EffectiveLevel(current: int, used: int, level: int): int {
    if used <= current && level > 100 && current != 0
    then Trunc(used as real * 100.0 / current as real)
    else level
  }

  // ---------- the controller ----------

  datatype Branch = Join | Idle | Reduce | Increase | Keep

  /** Everything the controller reads. */
  datatype Reading = Reading(total: int, handedOut: int, upstreamLevel: int,
                             current: int, used: int, level: int, clients: nat)
  {
    /** The divisions are defined. */
    predicate Valid() { total != 0 && ExpectedAllocatePercent(upstreamLevel, total) != 0 }

    function Remaining(): int { total - handedOut }

    function Branch(): Branch
      requires Valid()
    {
      var (reducing, increasing) := Thresholds(TargetLevel(upstreamLevel, total, used));
      var effective := EffectiveLevel(current, used, level);
      if current == 0 then Join
      else if effective == 0 then Idle
      else if effective < reducing then Reduce
      else if effective >= increasing then Increase
      else Keep
    }

    /** The wish of the controller, before the limits of the global quota apply. */
    function Proposal(): real
      requires Valid()
    {
      var cur := current as real;
      var remaining := Remaining() as real;
      match Branch()
      case Join =>
        if clients <= 10 then remaining * 0.05 else remaining / clients as real
      case Idle =>
        var percent := handedOut as real / total as real * 100.0;
        var expected := ExpectedAllocatePercent(upstreamLevel, total) as real;
        // with no known client the source divides by zero and the bound is infinite
        var bounded := clients > 0;
        var upper := if bounded then Round(total as real * 0.7 / clients as real) as real else 0.0;
        if percent < expected - 5.0 then
          var next := cur + remaining * 0.3;
          if bounded && next > upper then upper else next
        else if percent >= expected || (bounded && cur > upper) then
          var reduce := cur * 0.2;
          var minReduce := total as real / 50.0;
          var reduce' := if reduce > 0.0 && reduce < minReduce then minReduce else reduce;
          var reduce'' := if reduce' > 0.0 && reduce' < 1.0 then 1.0 else reduce';
          cur - reduce''
        else cur
      case Reduce =>
        var reduce := cur * 0.2;
        var maxReduce := cur - used as real;
        var reduce' := if reduce > maxReduce then maxReduce else reduce;
        var reduce'' := if reduce' > 0.0 && reduce' < 1.0 then 1.0 else reduce';
        cur - reduce''
      case Increase =>
        var delta := cur * 0.3;
        var delta' := if EffectiveLevel(current, used, level) > 100 then delta * 2.0 else delta;
        if delta' < remaining then cur + delta' else cur + remaining
      case Keep => cur
    }

    /** The next quota: at least 1 and 0.2% of the total, unless the global quota does not allow it. */
    function Next(): int
      requires Valid()
    {
      var wish := Proposal();
      var atLeast1 := if wish < 1.0 then 1.0 else wish;
      var atLeastMin := if atLeast1 < total as real * 0.002 then total as real * 0.002 else atLeast1;
      var capped := if atLeastMin - current as real > Remaining() as real
                    then (current + Remaining()) as real else atLeastMin;
      Ceil(capped)
    }
  }

  function NextBurst(next: int, total: int, totalBurst: int): int
    requires total != 0
  {
    Ceil(next as real / total as real * totalBurst as real)
  }

  /** What the controller reads when a client reports an item. */
  function ReadingOf(total: Item, upstream: ItemStatus, item: Item, status: ItemStatus, clients: nat): Reading {
    var typ := TypeOf(total.limit);
    Reading(LimitQuota(total.limit, typ), LimitQuota(upstream.limit, typ), upstream.level,
            LimitQuota(item.limit, typ), LimitQuota(status.limit, typ), status.level, clients)
  }

  /** The computation is defined; a count-limited or untyped item needs no computation. */
  predicate Computable(total: Item, upstream: ItemStatus, item: Item, status: ItemStatus, clients: nat) {
    item.strategy == GlobalCountLimit || TypeOf(total.limit) == Unknown
    || ReadingOf(total, upstream, item, status, clients).Valid()
  }

  /** The item that is stored and sent back to the client. */
  function NextItem(total: Item, upstream: ItemStatus, item: Item, status: ItemStatus, clients: nat): (r: Item)
    requires Computable(total, upstream, item, status, clients)
    ensures r.name == item.name && r.strategy == item.strategy
  {
    if item.strategy == GlobalCountLimit then
      item.(limit := total.limit)
    else
      var typ := TypeOf(total.limit);
      if typ == Unknown then item
      else
        var next := ReadingOf(total, upstream, item, status, clients).Next();
        var burst := if typ == TokenBucket
                     then NextBurst(next, LimitQuota(total.limit, typ), total.limit.bucket.value.burst)
                     else 0;
        item.(limit := SetLimit(item.limit, typ, next, burst))
  }

  // ---------- bounds for every reading ----------

  /** No division by zero, and at least 60% of the total is handed out, unless a 32-bit product overflows. */
  lemma AllocatePercentAtLeast60(upstreamLevel: int, total: int)
    requires total > 0
    requires 0 <= upstreamLevel && upstreamLevel * 100 < 0x8000_0000
    ensures ExpectedAllocatePercent(upstreamLevel, total) >= 60
  {
    var p := Trunc(70.0 - total as real / 100.0);
    assert p <= 70;
    var minPercent := if p < 60 then 60 else p;
    ProductInRange(upstreamLevel, 100 - minPercent);
  }

  lemma ProductInRange(level: int, percent: int)
    requires 0 <= level && 30 <= percent <= 40
    ensures 0 <= level * percent <= level * 40
  {
  }

  lemma ThresholdsAreFiveApart(r: Reading)
    requires r.Valid()
    ensures var (reducing, increasing) := Thresholds(TargetLevel(r.upstreamLevel, r.total, r.used));
            reducing + 5 == increasing <= 100
    ensures r.current != 0 && EffectiveLevel(r.current, r.used, r.level) >= 100 ==> r.Branch() == Increase
  {
  }

  /** The next quota never takes more than what remains, and is at least 1 when that is possible. */
  lemma NextIsBounded(r: Reading)
    requires r.Valid()
    ensures r.Next() <= r.current + r.Remaining()
    ensures r.Next() >= if r.current + r.Remaining() < 1 then r.current + r.Remaining() else 1
  {
  }

  /** A quota is never negative exactly when the global quota is not over-allocated by more than the client's own. */
  lemma NextIsNonNegativeIff(r: Reading)
    requires r.Valid()
    ensures r.Next() >= 0 <==> r.handedOut <= r.total + r.current
  {
    NextIsBounded(r);
  }

  /** After the total was cut from 100 to 10, a client holding 50 of 100 allocated gets a negative quota. */
  lemma CutTotalGivesNegativeQuota()
    ensures var r := Reading(10, 100, 50, 50, 25, 50, 2);
            r.Valid() && r.Next() == -40
  {
    var r := Reading(10, 100, 50, 50, 25, 50, 2);
    AllocatePercentAtLeast60(50, 10);
    NextIsBounded(r);
  }

  /** A client that was given a negative quota stays at what the total allows, and is back at 1 once that allows it. */
  lemma NegativeQuotaRecovers(r: Reading)
    requires r.Valid() && r.current < 0
    ensures if r.current + r.Remaining() < 1 then r.Next() == r.current + r.Remaining()
            else 1 <= r.Next() <= r.current + r.Remaining()
    ensures r.Next() >= 1 <==> r.current + r.Remaining() >= 1
  {
    NextIsBounded(r);
  }

  /** Taking quota back never cuts below what the client uses, unless the global quota forces it. */
  lemma ReduceKeepsUsed(r: Reading)
    requires r.Valid() && r.Branch() == Reduce
    ensures r.Next() >= if r.used <= r.current + r.Remaining() then r.used else r.current + r.Remaining()
  {
    var cur := r.current as real;
    var reduce := cur * 0.2;
    var maxReduce := cur - r.used as real;
    assert r.used < r.current ==> maxReduce >= 1.0;
    assert r.Proposal() >= r.used as real;
  }

  /** A client that uses its whole quota and reports full load is seen at level 100 or more. */
  lemma SaturatedLevel(current: int, used: int, level: int)
    requires 1 <= current <= used && level >= 100
    ensures EffectiveLevel(current, used, level) >= 100
  {
    if used == current {
      var c := current as real;
      assert c * 100.0 / c == 100.0;
    }
  }

  /** A saturated client gains at least one unit as long as one remains. */
  lemma SaturatedClientGains(r: Reading)
    requires r.Valid() && 1 <= r.current <= r.used && r.level >= 100
    requires r.Remaining() >= 0
    ensures r.Next() >= r.current + if r.Remaining() >= 1 then 1 else 0
  {
    SaturatedLevel(r.current, r.used, r.level);
    ThresholdsAreFiveApart(r);
  }

  // ---------- what each branch may change ----------

  /** The global quota is not over-allocated. */
  predicate Sound(r: Reading) { r.Valid() && r.total > 0 && r.Remaining() >= 0 }

  /** The quota is at least 0.2% of the total. */
  predicate AboveMinimum(quota: int, total: int) { quota >= 1 && 500 * quota >= total }

  lemma MinimumInReals(quota: int, total: int)
    ensures 500 * quota >= total <==> quota as real >= total as real * 0.002
  {
    assert (500 * quota) as real == 500.0 * quota as real;
  }

  lemma KeptInTheBand(r: Reading)
    requires Sound(r) && r.Branch() == Keep && AboveMinimum(r.current, r.total)
    ensures r.Next() == r.current
  {
    MinimumInReals(r.current, r.total);
  }

  /** Too little use costs a fifth, or one unit of a small quota, but no used unit and nothing below the minimum. */
  lemma ReducedByAFifth(r: Reading)
    requires Sound(r) && r.Branch() == Reduce && r.used < r.current && AboveMinimum(r.current - 1, r.total)
    ensures r.used <= r.Next() <= r.current - 1
    ensures 5 * (r.current - r.Next()) <= r.current || (r.current < 5 && r.Next() == r.current - 1)
    ensures 5 * (r.Next() - 1) < 4 * r.current || r.Next() == r.used || !AboveMinimum(r.Next() - 1, r.total)
  {
    MinimumInReals(r.current - 1, r.total);
    MinimumInReals(r.Next() - 1, r.total);
    ReduceKeepsUsed(r);
    var cut := r.current as real * 0.2;
    assert r.Proposal() <= (r.current - 1) as real;
    assert r.Proposal() >= r.current as real - (if cut < 1.0 then 1.0 else cut);
  }

  /** The reducing branch raises the quota exactly when the client uses more than it has and something remains. */
  lemma ReduceRaisesIff(r: Reading)
    requires Sound(r) && r.Branch() == Reduce && AboveMinimum(r.current, r.total)
    ensures r.Next() > r.current <==> r.used > r.current && r.Remaining() >= 1
  {
    MinimumInReals(r.current, r.total);
    if r.used > r.current {
      assert r.Proposal() == r.used as real;
    } else {
      assert r.Proposal() <= r.current as real;
    }
  }

  lemma LargeSquare(r: nat)
    ensures r >= 11 ==> r * r >= 121
  {
  }

  /** At an upstream level of 0, of a total of 100, a client is expected to use more than 5 percent. */
  lemma TargetAboveFive(total: int, used: nat)
    requires used <= total == 100
    ensures ExpectedAllocatePercent(0, total) != 0 && 5 < TargetLevel(0, total, used) <= 50
  {
    assert ExpectedAllocatePercent(0, total) == 69;
    assert (used as real * 100.0 / total as real).Floor == used;
    LargeSquare(ISqrt(used));
  }

  /** A client with a quota of 10 that uses 20 and reports a low level is "reduced" to 20. */
  lemma ReducedToTwice(r: Reading)
    requires r == Reading(100, 50, 0, 10, 20, 1, 2)
    ensures r.Valid() && r.Branch() == Reduce && r.Next() == 20
  {
    TargetAboveFive(r.total, r.used);
    assert r.Proposal() == r.used as real;
  }

  /** A client may report a use and a level that earn it all that remains. */
  function Greedy(total: int, handedOut: int, upstreamLevel: int, current: int, clients: nat): (r: Reading)
    requires total != 0 && ExpectedAllocatePercent(upstreamLevel, total) != 0
    ensures r.total == total && r.handedOut == handedOut && r.upstreamLevel == upstreamLevel
    ensures r.current == current && r.clients == clients
  {
    var remaining := total - handedOut;
    var used := if remaining > 0 then current + remaining else current + 1;
    var (reducing, _) := Thresholds(TargetLevel(upstreamLevel, total, used));
    Reading(total, handedOut, upstreamLevel, current, used, if reducing < 0 then reducing - 1 else -1, clients)
  }

  lemma GreedyTakesAll(total: int, handedOut: int, upstreamLevel: int, current: int, clients: nat)
    requires total != 0 && ExpectedAllocatePercent(upstreamLevel, total) != 0 && current > 0
    ensures var r := Greedy(total, handedOut, upstreamLevel, current, clients);
            r.Valid() && r.Next() == current + total - handedOut
  {
    var r := Greedy(total, handedOut, upstreamLevel, current, clients);
    assert r.Branch() == Reduce;
    assert r.Proposal() == r.used as real;
  }

  /** High use gains 30%, overload 60%, rounded up, or all that remains. */
  lemma IncreasedByThreeTenths(r: Reading)
    requires Sound(r) && r.Branch() == Increase && AboveMinimum(r.current, r.total)
    ensures var tenths := if EffectiveLevel(r.current, r.used, r.level) > 100 then 6 else 3;
            || (10 * r.current + tenths * r.current <= 10 * r.Next() < 10 * r.current + tenths * r.current + 10)
            || (r.Next() == r.current + r.Remaining() && 10 * r.Remaining() <= tenths * r.current + 9)
  {
    MinimumInReals(r.current, r.total);
  }

  /** A newcomer gets a twentieth of what remains, rounded up, and no less than the minimum. */
  lemma JoinsWithATwentieth(r: Reading)
    requires Sound(r) && r.Branch() == Join && r.clients <= 10 && AboveMinimum(r.Remaining(), r.total)
    ensures AboveMinimum(r.Next(), r.total) && r.Remaining() <= 20 * r.Next() && r.Next() <= r.Remaining()
    ensures AboveMinimum(r.Next() - 1, r.total) ==> 20 * (r.Next() - 1) < r.Remaining()
  {
    MinimumInReals(r.Remaining(), r.total);
    MinimumInReals(r.Next(), r.total);
    MinimumInReals(r.Next() - 1, r.total);
    assert r.Proposal() == r.Remaining() as real * 0.05;
  }

  lemma ShareBelow(remaining: int, clients: int, next: int)
    requires clients > 0 && remaining as real / clients as real <= next as real
    ensures remaining <= clients * next
  {
    var share, n := remaining as real / clients as real, clients as real;
    assert share * n == remaining as real;
    ScaleOrder(share, next as real, n);
    MulAsReal(next, clients);
  }

  /** With more than ten clients it gets an equal share. */
  lemma JoinsWithEqualShare(r: Reading)
    requires Sound(r) && r.Branch() == Join && r.clients > 10 && AboveMinimum(r.Remaining(), r.total)
    ensures r.Next() <= r.Remaining() <= r.clients * r.Next() && AboveMinimum(r.Next(), r.total)
    ensures AboveMinimum(r.Next() - 1, r.total) ==> r.clients * (r.Next() - 1) < r.Remaining()
  {
    NextIsBounded(r);
    MinimumInReals(r.Remaining(), r.total);
    MinimumInReals(r.Next(), r.total);
    MinimumInReals(r.Next() - 1, r.total);
    ShareIsPart(r.Remaining(), r.clients);
    ShareBelow(r.Remaining(), r.clients, r.Next());
    if AboveMinimum(r.Next() - 1, r.total) { ShareAbove(r.Remaining(), r.clients, r.Next() - 1); }
  }

  lemma ShareAbove(remaining: int, clients: int, below: int)
    requires clients > 0 && (below as real) < remaining as real / clients as real
    ensures clients * below < remaining
  {
    var share, n := remaining as real / clients as real, clients as real;
    assert share * n == remaining as real;
    ScaleOrder(below as real, share, n);
    MulAsReal(below, clients);
  }

  lemma ShareIsPart(remaining: int, clients: int)
    requires remaining >= 0 && clients > 0
    ensures remaining as real / clients as real <= remaining as real
  {
    var share := remaining as real / clients as real;
    assert share * clients as real == remaining as real;
    if share > remaining as real {
      ScaleOrder(remaining as real, share, clients as real);
    }
  }

  /** So twenty newcomers among few clients, or as many as there are, would use up all that remains. */
  lemma JoinsTakeAShare(r: Reading)
    requires Sound(r) && r.Branch() == Join
    ensures r.Remaining() <= (if r.clients <= 10 then 20 else r.clients) * r.Next()
  {
    MinimumInReals(r.Remaining(), r.total);
    if !AboveMinimum(r.Remaining(), r.total) {
      TakesAllBelowMinimum(r);
      AtLeastOnce(if r.clients <= 10 then 20 else r.clients, r.Remaining());
    } else if r.clients <= 10 {
      JoinsWithATwentieth(r);
    } else {
      JoinsWithEqualShare(r);
    }
  }

  lemma TakesAllBelowMinimum(r: Reading)
    requires Sound(r) && r.current == 0 && !AboveMinimum(r.Remaining(), r.total)
    ensures r.Next() == r.Remaining()
  {
    MinimumInReals(r.Remaining(), r.total);
  }

  lemma AtLeastOnce(k: nat, x: nat)
    requires k >= 1
    ensures x <= k * x
  {
  }

  predicate UnderAllocated(r: Reading)
    requires r.Valid()
  {
    r.handedOut as real / r.total as real * 100.0 < ExpectedAllocatePercent(r.upstreamLevel, r.total) as real - 5.0
  }

  /** Enough is handed out, or the client has more than its share of 70% of the total. */
  predicate OverAllocated(r: Reading)
    requires r.Valid()
  {
    || r.handedOut as real / r.total as real * 100.0 >= ExpectedAllocatePercent(r.upstreamLevel, r.total) as real
    || (r.clients > 0 && r.current > Round(r.total as real * 0.7 / r.clients as real))
  }

  /**
   * While enough is handed out, an idle client gives back the largest of a fifth of its quota, a fiftieth of the
   * total and one unit, down to the minimum.
   */
  lemma IdleGivesBack(r: Reading)
    requires Sound(r) && r.Branch() == Idle && r.current > 0 && !UnderAllocated(r) && OverAllocated(r)
    ensures r.Next() < r.current || !AboveMinimum(r.current - 1, r.total)
    ensures 5 * r.Next() >= 4 * r.current || 50 * r.Next() >= 50 * r.current - r.total || r.Next() >= r.current - 1
    ensures AboveMinimum(r.Next() - 1, r.total) ==>
              5 * (r.Next() - 1) < 4 * r.current && 50 * (r.Next() - 1) < 50 * r.current - r.total
              && r.Next() <= r.current - 1
  {
    MinimumInReals(r.current - 1, r.total);
    MinimumInReals(r.Next() - 1, r.total);
    IdleProposal(r);
  }

  lemma IdleProposal(r: Reading)
    requires Sound(r) && r.Branch() == Idle && r.current > 0 && !UnderAllocated(r) && OverAllocated(r)
    ensures var wish, cur := r.Proposal(), r.current as real;
            && (wish == cur - cur * 0.2 || wish == cur - r.total as real / 50.0 || wish == cur - 1.0)
            && wish <= cur - cur * 0.2 && wish <= cur - r.total as real / 50.0 && wish <= cur - 1.0
  {
  }

  /** In between it keeps what it has. */
  lemma IdleKeeps(r: Reading)
    requires Sound(r) && r.Branch() == Idle && AboveMinimum(r.current, r.total)
    requires !UnderAllocated(r) && !OverAllocated(r)
    ensures r.Next() == r.current
  {
    MinimumInReals(r.current, r.total);
  }

  /** While too little is handed out and no client is known, it gains 30% of what remains. */
  lemma IdleGrowsFreely(r: Reading)
    requires Sound(r) && r.Branch() == Idle && UnderAllocated(r) && r.clients == 0
    ensures 10 * r.Next() >= 10 * r.current + 3 * r.Remaining()
    ensures AboveMinimum(r.Next() - 1, r.total) ==> 10 * (r.Next() - 1) < 10 * r.current + 3 * r.Remaining()
  {
    MinimumInReals(r.Next() - 1, r.total);
    assert r.Proposal() == r.current as real + r.Remaining() as real * 0.3;
  }

  /** While too little is handed out, an idle client gains 30% of what remains, up to its share of 70% of the total. */
  lemma IdleGrowsToItsShare(r: Reading, upper: int)
    requires Sound(r) && r.Branch() == Idle && UnderAllocated(r) && r.clients > 0
    requires upper == Round(r.total as real * 0.7 / r.clients as real)
    ensures 10 * r.Next() >= 10 * r.current + 3 * r.Remaining() || r.Next() >= upper
    ensures AboveMinimum(r.Next() - 1, r.total) ==>
              10 * (r.Next() - 1) < 10 * r.current + 3 * r.Remaining() && r.Next() <= upper
  {
    MinimumInReals(r.Next() - 1, r.total);
    var wish := r.current as real + r.Remaining() as real * 0.3;
    assert r.Proposal() == if wish > upper as real then upper as real else wish;
    assert wish <= (r.current + r.Remaining()) as real;
  }

  lemma ScaledShare(next: real, total: real, whole: real)
    requires total > 0.0
    ensures next / total * whole * total == next * whole
  {
    var q := next / total;
    assert q * total == next;
    calc {
      q * whole * total;
      q * (whole * total);
      q * (total * whole);
      q * total * whole;
    }
  }

  lemma ScaleOrder(a: real, b: real, t: real)
    requires t > 0.0
    ensures a <= b ==> a * t <= b * t
    ensures a < b ==> a * t < b * t
  {
  }

  lemma MulAsReal(a: int, b: int)
    ensures (a * b) as real == a as real * b as real
  {
  }

  lemma ShareCovered(next: int, total: int, whole: int, part: int)
    requires total > 0 && next as real / total as real * whole as real <= part as real
    ensures next * whole <= part * total
  {
    ScaledShare(next as real, total as real, whole as real);
    ScaleOrder(next as real / total as real * whole as real, part as real, total as real);
    MulAsReal(next, whole);
    MulAsReal(part, total);
  }

  lemma ShareNotCovered(next: int, total: int, whole: int, part: int)
    requires total > 0 && next as real / total as real * whole as real > part as real
    ensures next * whole > part * total
  {
    ScaledShare(next as real, total as real, whole as real);
    ScaleOrder(part as real, next as real / total as real * whole as real, total as real);
    MulAsReal(next, whole);
    MulAsReal(part, total);
  }

  /** The burst is the next quota's share of the total burst, rounded up. */
  lemma BurstIsProportional(next: int, total: int, totalBurst: int)
    requires total > 0
    ensures var burst := NextBurst(next, total, totalBurst);
            (burst - 1) * total < next * totalBurst <= burst * total
  {
    var burst := NextBurst(next, total, totalBurst);
    ShareCovered(next, total, totalBurst, burst);
    ShareNotCovered(next, total, totalBurst, burst - 1);
  }

  /** What is stored for an item: the whole total if it is limited by counting, and the next quota otherwise. */
  lemma NextItemIs(total: Item, upstream: ItemStatus, item: Item, status: ItemStatus, clients: nat)
    requires Computable(total, upstream, item, status, clients)
    ensures var r, typ := NextItem(total, upstream, item, status, clients), TypeOf(total.limit);
            && (item.strategy == GlobalCountLimit ==> r.limit == total.limit)
            && (item.strategy != GlobalCountLimit && typ == Unknown ==> r == item)
            && (item.strategy != GlobalCountLimit && typ != Unknown ==>
                  LimitQuota(r.limit, typ) == ReadingOf(total, upstream, item, status, clients).Next())
            && (item.strategy != GlobalCountLimit && typ == MaxRequestsInflight ==> r.limit.bucket == item.limit.bucket)
  {
  }

  /** The burst of a token bucket is the least that covers its share of the configured burst. */
  lemma NextItemBurst(total: Item, upstream: ItemStatus, item: Item, status: ItemStatus, clients: nat)
    requires Computable(total, upstream, item, status, clients) && item.strategy != GlobalCountLimit
    requires TypeOf(total.limit) == TokenBucket && LimitQuota(total.limit, TokenBucket) > 0
    ensures var r, whole := NextItem(total, upstream, item, status, clients).limit, total.limit.bucket.value;
            && r.maxInflight == item.limit.maxInflight && r.bucket.Some?
            && (r.bucket.value.burst - 1) * whole.qps < r.bucket.value.qps * whole.burst
            && r.bucket.value.qps * whole.burst <= r.bucket.value.burst * whole.qps
  {
    var next, whole := ReadingOf(total, upstream, item, status, clients).Next(), total.limit.bucket.value;
    BurstIsProportional(next, whole.qps, whole.burst);
  }
}
