/** What the thresholds of the quota controller are: two-sided bounds on whole numbers, and the branch they select. */
module Targets {
  import opened Numbers
  import opened Allocation

  // ---------- the numbers, by what they have to satisfy ----------

  /** 70 percent less one for every 100 units of the total, rounded down, but not below 60. */
  predicate IsMinimum(m: int, total: int) {
    if m == 60 then 7000 - total < 6100 else m > 60 && 100 * m <= 7000 - total < 100 * (m + 1)
  }

  /** On the line from the minimum at level 0 to 100 at level 100, rounded down. */
  predicate IsPercent(e: int, m: int, level: int) { 100 * (e - m) <= level * (100 - m) < 100 * (e - m + 1) }

  /** On the line from 5 at level 0 to 100 at level 100, rounded down. */
  predicate IsExpected(x: int, level: int) { 100 * (x - 5) <= 95 * level < 100 * (x - 4) }

  /** The root of the percentage of the total that a client uses, rounded down. */
  predicate IsRoot(c: nat, total: int, used: int) { c * c * total <= 100 * used < (c + 1) * (c + 1) * total }

  /** The expected level as a percentage of e, rounded down, and c more, but at most 100. */
  predicate IsTarget(t: int, e: int, x: int, c: int) {
    t <= 100 && e * (t - c) <= 100 * x && (t < 100 ==> 100 * x < e * (t - c + 1))
  }

  /** The use as a percentage of the quota, rounded down. */
  predicate IsLevel(l: int, current: int, used: int) { l * current <= 100 * used < (l + 1) * current }

  /** Levels and uses whose products fit 32 bits. */
  predicate Fits32(level: int, used: int) { 0 <= level <= 20_000_000 && 0 <= used < 0x8000_0000 }

  /** m, e, x, c and t are the numbers that belong to an upstream level, a total and a use. */
  predicate Belong(m: int, e: int, x: int, c: nat, t: int, level: int, total: int, used: int) {
    && IsMinimum(m, total) && IsPercent(e, m, level) && IsExpected(x, level) && IsRoot(c, total, used)
    && IsTarget(t, e, x, c)
  }

  // ---------- the controller computes them ----------

  lemma MinimumIs(total: int)
    requires total > 0
    ensures IsMinimum(MinimumPercent(total), total) && 60 <= MinimumPercent(total) <= 69
  {
    var y := 70.0 - total as real / 100.0;
    assert y * 100.0 == (7000 - total) as real;
    var p := Trunc(y);
    if p >= 61 {
      assert p as real * 100.0 <= y * 100.0 < (p + 1) as real * 100.0;
    }
  }

  lemma MinimumIsUnique(m: int, total: int)
    requires total > 0 && IsMinimum(m, total)
    ensures m == MinimumPercent(total)
  {
    MinimumIs(total);
  }

  lemma QuotientIs(a: int, b: int, q: int)
    requires b > 0 && q == a / b
    ensures b * q <= a < b * (q + 1)
  {
  }

  lemma PercentIs(level: int, total: int, m: int)
    requires total > 0 && 0 <= level <= 20_000_000 && m == MinimumPercent(total)
    ensures IsPercent(ExpectedAllocatePercent(level, total), m, level) && ExpectedAllocatePercent(level, total) >= 60
  {
    MinimumIs(total);
    ProductInRange(level, 100 - m);
    QuotientIs(level * (100 - m), 100, level * (100 - m) / 100);
  }

  lemma BelowQuotient(a: int, b: int, y: real, f: int)
    requires b > 0 && y * b as real == a as real && f as real <= y
    ensures f * b <= a
  {
    ScaleOrder(f as real, y, b as real);
    MulAsReal(f, b);
  }

  lemma AboveQuotient(a: int, b: int, y: real, g: int)
    requires b > 0 && y * b as real == a as real && y < g as real
    ensures a < g * b
  {
    ScaleOrder(y, g as real, b as real);
    MulAsReal(g, b);
  }

  /** The integer part of a quotient of whole numbers, without reals. */
  lemma FloorIs(a: int, b: int, f: int)
    requires b > 0 && f == (a as real / b as real).Floor
    ensures f * b <= a < (f + 1) * b
  {
    var y := a as real / b as real;
    BelowQuotient(a, b, y, f);
    AboveQuotient(a, b, y, f + 1);
  }

  lemma ScaleInt(a: int, b: int, k: int)
    requires a <= b && k > 0
    ensures a * k <= b * k
  {
  }

  lemma RootIs(total: int, used: int, c: int)
    requires total > 0 && 0 <= used < 0x8000_0000 && c == Compensation(used as real * 100.0 / total as real)
    ensures c >= 0 && IsRoot(c, total, used) && c <= 500_000
  {
    var y := used as real * 100.0 / total as real;
    assert used as real * 100.0 == (100 * used) as real;
    var f := y.Floor;
    FloorIs(100 * used, total, f);
    assert f >= 0;
    ScaleInt(c * c, f, total);
    ScaleInt(f + 1, (c + 1) * (c + 1), total);
    AtLeastOnce(total, f);
    RootIsSmall(c, f);
  }

  lemma RootIsSmall(c: nat, f: nat)
    requires c * c <= f < 250_000_000_000
    ensures c <= 500_000
  {
    SquareAtLeast(c, 500_001);
  }

  lemma SquareAtLeast(c: nat, k: nat)
    ensures c >= k ==> c * c >= k * k
  {
    if c >= k {
      assert c * c >= k * c >= k * k;
    }
  }

  lemma ExpectedIs(level: int) returns (x: int)
    requires 0 <= level <= 20_000_000
    ensures IsExpected(x, level) && x == Wrap32(TruncDiv(Wrap32(level * 95), 100) + 5) && 5 <= x <= 19_000_005
  {
    x := level * 95 / 100 + 5;
  }

  /** What is left of the target computation on whole numbers: nothing wraps around. */
  lemma TargetFrom(x: int, e: int, c: int, q: int)
    requires 5 <= x <= 19_000_005 && 60 <= e && 0 <= c <= 500_000 && q == x * 100 / e
    ensures Wrap32(Wrap32(TruncDiv(Wrap32(x * 100), e)) + c) == q + c
  {
    QuotientSmall(x * 100, e, q);
  }

  lemma QuotientSmall(a: nat, e: nat, q: int)
    requires e >= 1 && q == a / e
    ensures 0 <= q <= a
  {
  }

  lemma CappedIsTarget(q: int, e: int, x: int, c: int)
    requires e > 0 && e * q <= 100 * x < e * (q + 1)
    ensures IsTarget(if q + c > 100 then 100 else q + c, e, x, c)
  {
    if q + c > 100 {
      ScaleInt(100 - c, q, e);
    } else {
      assert q + c - c == q;
    }
  }

  /** The controller's numbers are the ones that belong to its reading. */
  lemma TargetIs(level: int, total: int, used: int) returns (m: int, e: int, x: int, c: nat)
    requires total > 0 && Fits32(level, used)
    ensures e == ExpectedAllocatePercent(level, total) >= 60
    ensures Belong(m, e, x, c, TargetLevel(level, total, used), level, total, used)
  {
    m, e := MinimumPercent(total), ExpectedAllocatePercent(level, total);
    MinimumIs(total);
    PercentIs(level, total, m);
    x := ExpectedIs(level);
    var root := Compensation(used as real * 100.0 / total as real);
    RootIs(total, used, root);
    c := root;
    var q := x * 100 / e;
    TargetFrom(x, e, c, q);
    QuotientIs(x * 100, e, q);
    CappedIsTarget(q, e, x, c);
  }

  // ---------- and there are no others ----------

  lemma SquaresGrow(b: nat, a: nat, total: int)
    requires total > 0
    ensures b < a ==> (b + 1) * (b + 1) * total <= a * a * total
  {
    if b < a {
      assert (b + 1) * (b + 1) <= a * a;
      ScaleInt((b + 1) * (b + 1), a * a, total);
    }
  }

  lemma RootsAreEqual(a: nat, b: nat, total: int, used: int)
    requires total > 0 && IsRoot(a, total, used) && IsRoot(b, total, used)
    ensures a <= b
  {
    SquaresGrow(b, a, total);
  }

  lemma TargetsAreEqual(a: int, b: int, e: int, x: int, c: int)
    requires e > 0 && IsTarget(a, e, x, c) && IsTarget(b, e, x, c)
    ensures a <= b
  {
    if a > b { ScaleInt(b - c + 1, a - c, e); }
  }

  lemma PercentsAreEqual(a: int, b: int, m: int, level: int)
    requires IsPercent(a, m, level) && IsPercent(b, m, level)
    ensures a == b
  {
  }

  /** Whatever belongs to a reading is what the controller computes. */
  lemma TargetIsUnique(m: int, e: int, x: int, c: nat, t: int, level: int, total: int, used: int)
    requires total > 0 && Fits32(level, used) && Belong(m, e, x, c, t, level, total, used)
    ensures e == ExpectedAllocatePercent(level, total) >= 60 && t == TargetLevel(level, total, used)
  {
    var m', e', x', c' := TargetIs(level, total, used);
    MinimumIsUnique(m, total);
    MinimumIsUnique(m', total);
    PercentsAreEqual(e, e', m, level);
    assert x == x';
    RootsAreEqual(c, c', total, used);
    RootsAreEqual(c', c, total, used);
    var t' := TargetLevel(level, total, used);
    TargetsAreEqual(t, t', e, x, c);
    TargetsAreEqual(t', t, e, x, c);
  }

  // ---------- the branches ----------

  /** The level that counts: a level above 100 is recomputed when the client did not use more than its quota. */
  predicate Counts(l: int, r: Reading) {
    if r.used <= r.current && r.level > 100 && r.current != 0 then IsLevel(l, r.current, r.used) else l == r.level
  }

  lemma LevelsAreEqual(a: int, b: int, current: int, used: int)
    requires current > 0 && IsLevel(a, current, used) && IsLevel(b, current, used)
    ensures a <= b
  {
    if a > b { ScaleInt(b + 1, a, current); }
  }

  lemma LevelIsUnique(l: int, r: Reading)
    requires r.used >= 0 && Counts(l, r)
    ensures l == EffectiveLevel(r.current, r.used, r.level)
  {
    if r.used <= r.current && r.level > 100 && r.current != 0 {
      assert r.used as real * 100.0 == (100 * r.used) as real;
      var f := (r.used as real * 100.0 / r.current as real).Floor;
      FloorIs(100 * r.used, r.current, f);
      LevelsAreEqual(f, l, r.current, r.used);
      LevelsAreEqual(l, f, r.current, r.used);
    }
  }

  /**
   * Which branch a client takes: it joins without a quota and is idle at level 0; otherwise, for a target t above
   * 50, quota is taken back below t - 5 and added from t on, and for a lower target below t and from t + 5 on.
   */
  lemma BranchIff(r: Reading, m: int, e: int, x: int, c: nat, t: int, l: int)
    requires r.total > 0 && Fits32(r.upstreamLevel, r.used)
    requires Belong(m, e, x, c, t, r.upstreamLevel, r.total, r.used) && Counts(l, r)
    ensures r.Valid()
    ensures r.Branch() == Join <==> r.current == 0
    ensures r.Branch() == Idle <==> r.current != 0 && l == 0
    ensures r.Branch() == Reduce <==> r.current != 0 && l != 0 && l < (if t > 50 then t - 5 else t)
    ensures r.Branch() == Increase <==> r.current != 0 && l != 0 && l >= (if t > 50 then t else t + 5)
    ensures r.Branch() == Keep <==>
            r.current != 0 && l != 0 && (if t > 50 then t - 5 <= l < t else t <= l < t + 5)
  {
    TargetIsUnique(m, e, x, c, t, r.upstreamLevel, r.total, r.used);
    LevelIsUnique(l, r);
  }

  /** Every reading has such numbers. */
  lemma NumbersExist(r: Reading) returns (m: int, e: int, x: int, c: nat, t: int, l: int)
    requires r.total > 0 && Fits32(r.upstreamLevel, r.used)
    ensures Belong(m, e, x, c, t, r.upstreamLevel, r.total, r.used) && Counts(l, r)
  {
    m, e, x, c := TargetIs(r.upstreamLevel, r.total, r.used);
    t, l := TargetLevel(r.upstreamLevel, r.total, r.used), EffectiveLevel(r.current, r.used, r.level);
    if r.used <= r.current && r.level > 100 && r.current != 0 {
      assert r.used as real * 100.0 == (100 * r.used) as real;
      FloorIs(100 * r.used, r.current, (r.used as real * 100.0 / r.current as real).Floor);
    }
  }

  // ---------- how they depend on the upstream level ----------

  /** The percent runs from the minimum at level 0 to 100 at level 100. */
  lemma PercentAtEnds(e: int, m: int, level: int)
    requires IsPercent(e, m, level)
    ensures level == 0 ==> e == m
    ensures level == 100 ==> e == 100
  {
  }

  lemma PercentGrows(e: int, m: int, level: int, e': int, level': int)
    requires m < 100 && level <= level' && IsPercent(e, m, level) && IsPercent(e', m, level')
    ensures e <= e'
  {
    ScaleInt(level, level', 100 - m);
  }

  lemma Distribute(level: int, m: int, p: int)
    requires p == level * m
    ensures level * (100 - m) == 100 * level - p
  {
  }

  lemma ProductBounds(level: int, m: int, p: int)
    requires 60 <= m && p == level * m
    ensures level >= 100 ==> p - 100 * m >= 60 * (level - 100)
    ensures level <= 100 ==> 100 * m - p >= 60 * (100 - level)
  {
    if level > 100 {
      ScaleInt(60, m, level - 100);
      assert m * (level - 100) == p - 100 * m;
    } else if level < 100 {
      ScaleInt(60, m, 100 - level);
      assert m * (100 - level) == 100 * m - p;
    }
  }

  lemma PercentBelowExpected(m: int, e: int, x: int, level: int)
    requires 60 <= m <= 69 && level >= 100 && IsPercent(e, m, level) && IsExpected(x, level)
    ensures e <= x
  {
    Distribute(level, m, level * m);
    ProductBounds(level, m, level * m);
  }

  lemma ExpectedBelowPercent(m: int, e: int, x: int, level: int)
    requires 60 <= m <= 69 && 0 <= level <= 100 && IsPercent(e, m, level) && IsExpected(x, level)
    ensures x <= e
  {
    Distribute(level, m, level * m);
    ProductBounds(level, m, level * m);
  }

  lemma CapIsReached(t: int, e: int, x: int, c: nat)
    requires 0 < e <= x && IsTarget(t, e, x, c)
    ensures t == 100
  {
    if t < 100 { ScaleInt(t - c + 1, 100, e); }
  }

  /** A full upstream makes every client's target 100. */
  lemma FullUpstreamTargets100(level: int, total: int, used: int)
    requires total > 0 && Fits32(level, used) && level >= 100
    ensures ExpectedAllocatePercent(level, total) >= 60 && TargetLevel(level, total, used) == 100
  {
    var m, e, x, c := TargetIs(level, total, used);
    MinimumIs(total);
    MinimumIsUnique(m, total);
    PercentBelowExpected(m, e, x, level);
    CapIsReached(TargetLevel(level, total, used), e, x, c);
  }

  /** The expected level as a percentage of the allocate percent, rounded down. */
  predicate IsRatio(q: int, e: int, x: int) { e * q <= 100 * x < e * (q + 1) }

  lemma TargetIsRatio(e: int, x: int, c: nat, t: int, q: int)
    requires e >= 60 && IsTarget(t, e, x, c) && IsRatio(q, e, x)
    ensures t == if q + c > 100 then 100 else q + c
  {
    CappedIsTarget(q, e, x, c);
    var t' := if q + c > 100 then 100 else q + c;
    TargetsAreEqual(t, t', e, x, c);
    TargetsAreEqual(t', t, e, x, c);
  }

  /** The six steps of the upstream level at which rounding lowers the ratio. */
  predicate Dips(m: int, level: int) {
    (level == 20 && m % 5 == 1) || (level == 60 && m % 5 == 2) || (level == 80 && m % 5 == 4)
  }

  /** One level more adds at most one percent. */
  lemma PercentSteps(m: int, level: int, e: int, e': int)
    requires 0 <= m <= 100 && IsPercent(e, m, level) && IsPercent(e', m, level + 1)
    ensures e <= e' <= e + 1
  {
    Distribute(level, m, level * m);
    Distribute(level + 1, m, level * m + m);
  }

  /** One level more adds one to the expected level, but nothing at every twentieth. */
  lemma ExpectedSteps(level: int, k: int, j: int, x: int, x': int)
    requires level == 20 * k + j && 0 <= j < 20 && IsExpected(x, level) && IsExpected(x', level + 1)
    ensures x == (if j == 0 then 19 * k + 5 else 19 * k + j + 4) && x' == if j == 0 then x else x + 1
  {
  }

  lemma QuotientGrows(x: int, e: int, q: int, e': int, q': int)
    requires 0 < x <= e <= e' <= e + 1 && IsRatio(q, e, x) && IsRatio(q', e', x + 1)
    ensures q <= q'
  {
    if q > 100 { ScaleInt(101, q, e); }
    assert e' * q <= e * q + 100;
    if q' < q { ScaleInt(q' + 1, q, e'); }
  }

  /** How the ratio changes from a level to the next one where the expected level stays. */
  predicate StepsBy(level: int, m: int, q: int, q': int) { q' == q - if Dips(m, level) then 1 else 0 }

  lemma RatioAt0(m: int, e: int, q: int, e': int, q': int)
    requires 60 <= m <= 69 && IsPercent(e, m, 0) && IsPercent(e', m, 1) && IsRatio(q, e, 5) && IsRatio(q', e', 5)
    ensures StepsBy(0, m, q, q')
  {
    match m
    case 60 => assert e == 60 && e' == 60;
    case 61 => assert e == 61 && e' == 61;
    case 62 => assert e == 62 && e' == 62;
    case 63 => assert e == 63 && e' == 63;
    case 64 => assert e == 64 && e' == 64;
    case 65 => assert e == 65 && e' == 65;
    case 66 => assert e == 66 && e' == 66;
    case 67 => assert e == 67 && e' == 67;
    case 68 => assert e == 68 && e' == 68;
    case _ => assert e == 69 && e' == 69;
  }

  lemma RatioAt20(m: int, e: int, q: int, e': int, q': int)
    requires 60 <= m <= 69 && IsPercent(e, m, 20) && IsPercent(e', m, 21) && IsRatio(q, e, 24) && IsRatio(q', e', 24)
    ensures StepsBy(20, m, q, q')
  {
    match m
    case 60 => assert e == 68 && e' == 68;
    case 61 => assert e == 68 && e' == 69;
    case 62 => assert e == 69 && e' == 69;
    case 63 => assert e == 70 && e' == 70;
    case 64 => assert e == 71 && e' == 71;
    case 65 => assert e == 72 && e' == 72;
    case 66 => assert e == 72 && e' == 73;
    case 67 => assert e == 73 && e' == 73;
    case 68 => assert e == 74 && e' == 74;
    case _ => assert e == 75 && e' == 75;
  }

  lemma RatioAt40(m: int, e: int, q: int, e': int, q': int)
    requires 60 <= m <= 69 && IsPercent(e, m, 40) && IsPercent(e', m, 41) && IsRatio(q, e, 43) && IsRatio(q', e', 43)
    ensures StepsBy(40, m, q, q')
  {
    match m
    case 60 => assert e == 76 && e' == 76;
    case 61 => assert e == 76 && e' == 76;
    case 62 => assert e == 77 && e' == 77;
    case 63 => assert e == 77 && e' == 78;
    case 64 => assert e == 78 && e' == 78;
    case 65 => assert e == 79 && e' == 79;
    case 66 => assert e == 79 && e' == 79;
    case 67 => assert e == 80 && e' == 80;
    case 68 => assert e == 80 && e' == 81;
    case _ => assert e == 81 && e' == 81;
  }

  lemma RatioAt60(m: int, e: int, q: int, e': int, q': int)
    requires 60 <= m <= 69 && IsPercent(e, m, 60) && IsPercent(e', m, 61) && IsRatio(q, e, 62) && IsRatio(q', e', 62)
    ensures StepsBy(60, m, q, q')
  {
    match m
    case 60 => assert e == 84 && e' == 84;
    case 61 => assert e == 84 && e' == 84;
    case 62 => assert e == 84 && e' == 85;
    case 63 => assert e == 85 && e' == 85;
    case 64 => assert e == 85 && e' == 85;
    case 65 => assert e == 86 && e' == 86;
    case 66 => assert e == 86 && e' == 86;
    case 67 => assert e == 86 && e' == 87;
    case 68 => assert e == 87 && e' == 87;
    case _ => assert e == 87 && e' == 87;
  }

  lemma RatioAt80(m: int, e: int, q: int, e': int, q': int)
    requires 60 <= m <= 69 && IsPercent(e, m, 80) && IsPercent(e', m, 81) && IsRatio(q, e, 81) && IsRatio(q', e', 81)
    ensures StepsBy(80, m, q, q')
  {
    match m
    case 60 => assert e == 92 && e' == 92;
    case 61 => assert e == 92 && e' == 92;
    case 62 => assert e == 92 && e' == 92;
    case 63 => assert e == 92 && e' == 92;
    case 64 => assert e == 92 && e' == 93;
    case 65 => assert e == 93 && e' == 93;
    case 66 => assert e == 93 && e' == 93;
    case 67 => assert e == 93 && e' == 93;
    case 68 => assert e == 93 && e' == 93;
    case _ => assert e == 93 && e' == 94;
  }

  lemma RatioBetween(m: int, level: int, e: int, x: int, q: int, e': int, q': int)
    requires 60 <= m <= 69 && 0 <= level < 100 && IsPercent(e, m, level) && IsPercent(e', m, level + 1)
    requires IsExpected(x, level) && IsRatio(q, e, x) && IsRatio(q', e', x + 1)
    ensures q <= q'
  {
    PercentSteps(m, level, e, e');
    ExpectedBelowPercent(m, e, x, level);
    QuotientGrows(x, e, q, e', q');
  }

  lemma RatioSteps(m: int, level: int, e: int, x: int, q: int, e': int, x': int, q': int)
    requires 60 <= m <= 69 && 0 <= level < 100
    requires IsPercent(e, m, level) && IsExpected(x, level) && IsRatio(q, e, x)
    requires IsPercent(e', m, level + 1) && IsExpected(x', level + 1) && IsRatio(q', e', x')
    ensures q <= q' + if Dips(m, level) then 1 else 0
    ensures Dips(m, level) ==> q == q' + 1
  {
    ExpectedSteps(level, level / 20, level % 20, x, x');
    if level == 0 {
      RatioAt0(m, e, q, e', q');
    } else if level == 20 {
      RatioAt20(m, e, q, e', q');
    } else if level == 40 {
      RatioAt40(m, e, q, e', q');
    } else if level == 60 {
      RatioAt60(m, e, q, e', q');
    } else if level == 80 {
      RatioAt80(m, e, q, e', q');
    } else {
      assert level % 20 != 0;
      RatioBetween(m, level, e, x, q, e', q');
    }
  }

  lemma RatioExists(e: int, x: int) returns (q: int)
    requires e > 0
    ensures IsRatio(q, e, x)
  {
    q := 100 * x / e;
    QuotientIs(100 * x, e, q);
  }

  /** One level more lowers a target exactly at a dip, by one, unless it is capped there. */
  lemma TargetFallsIff(level: int, total: int, used: int, m: int)
    requires total > 0 && Fits32(level, used) && level < 100 && IsMinimum(m, total)
    ensures ExpectedAllocatePercent(level, total) >= 60 && ExpectedAllocatePercent(level + 1, total) >= 60
    ensures var t, t' := TargetLevel(level, total, used), TargetLevel(level + 1, total, used);
            t' < t <==> Dips(m, level) && t' < 100
    ensures TargetLevel(level + 1, total, used) >= TargetLevel(level, total, used) - 1
  {
    var m0, e, x, c := TargetIs(level, total, used);
    var m1, e', x', c' := TargetIs(level + 1, total, used);
    MinimumIs(total);
    MinimumIsUnique(m, total);
    MinimumIsUnique(m0, total);
    MinimumIsUnique(m1, total);
    RootsAreEqual(c, c', total, used);
    RootsAreEqual(c', c, total, used);
    var q := RatioExists(e, x);
    var q' := RatioExists(e', x');
    TargetIsRatio(e, x, c, TargetLevel(level, total, used), q);
    TargetIsRatio(e', x', c, TargetLevel(level + 1, total, used), q');
    RatioSteps(m, level, e, x, q, e', x', q');
  }

  /** Otherwise targets grow with the upstream level. */
  lemma {:induction false} TargetGrows(level: int, level': int, total: int, used: int, m: int)
    requires total > 0 && Fits32(level, used) && level <= level' <= 100 && IsMinimum(m, total)
    requires forall l :: level <= l < level' ==> !Dips(m, l)
    ensures ExpectedAllocatePercent(level, total) >= 60 && ExpectedAllocatePercent(level', total) >= 60
    ensures TargetLevel(level, total, used) <= TargetLevel(level', total, used)
    decreases level' - level
  {
    if level == level' {
      var _, _, _, _ := TargetIs(level, total, used);
    } else {
      TargetFallsIff(level, total, used, m);
      TargetGrows(level + 1, level', total, used, m);
    }
  }

  /** With a total of 100, a client that uses nothing has a target of 87 at upstream level 80 and of 86 at 81. */
  lemma HigherLevelLowerTarget(total: int, used: int)
    requires total == 100 && used == 0
    ensures ExpectedAllocatePercent(80, total) == 93 && ExpectedAllocatePercent(81, total) == 94
    ensures TargetLevel(80, total, used) == 87 && TargetLevel(81, total, used) == 86
  {
    TargetIsUnique(69, 93, 81, 0, 87, 80, total, used);
    TargetIsUnique(69, 94, 81, 0, 86, 81, total, used);
  }

  // ---------- how they depend on a client's use ----------

  lemma RootsGrow(c: nat, c': nat, total: int, used: int, used': int)
    requires total > 0 && used <= used' && IsRoot(c, total, used) && IsRoot(c', total, used')
    ensures c <= c'
  {
    SquaresGrow(c', c, total);
  }

  /** A client's compensation is at most 10 exactly while it uses less than 121 percent of the total. */
  lemma CompensationAtMostTenIff(c: nat, total: int, used: int)
    requires total > 0 && IsRoot(c, total, used)
    ensures c <= 10 <==> 100 * used < 121 * total
  {
    if c <= 10 {
      assert (c + 1) * (c + 1) <= 121;
      ScaleInt((c + 1) * (c + 1), 121, total);
    } else {
      assert 121 <= c * c;
      ScaleInt(121, c * c, total);
    }
  }

  lemma TargetIsSum(level: int, total: int, used: int, e: int, x: int, c: nat, q: int)
    requires total > 0 && Fits32(level, used) && e == ExpectedAllocatePercent(level, total) >= 60
    requires IsExpected(x, level) && IsRoot(c, total, used) && IsRatio(q, e, x)
    ensures TargetLevel(level, total, used) == if q + c > 100 then 100 else q + c
  {
    var m, _, x0, c0 := TargetIs(level, total, used);
    RootsAreEqual(c, c0, total, used);
    RootsAreEqual(c0, c, total, used);
    assert x0 == x;
    TargetIsRatio(e, x, c, TargetLevel(level, total, used), q);
  }

  lemma RootIff(c: nat, c': nat, total: int, used: int)
    requires total > 0 && IsRoot(c', total, used)
    ensures IsRoot(c, total, used) <==> c == c'
  {
    if IsRoot(c, total, used) {
      RootsAreEqual(c, c', total, used);
      RootsAreEqual(c', c, total, used);
    }
  }

  /** A client that uses less does not get a higher target; it gets as high a one exactly when the rounded root of the
      used percentage is the same or the target is capped. */
  lemma LessUseAsHighIff(level: int, total: int, used: int, used': int, c: nat)
    requires total > 0 && Fits32(level, used) && Fits32(level, used') && used <= used' && IsRoot(c, total, used)
    ensures ExpectedAllocatePercent(level, total) >= 60
    ensures var t, t' := TargetLevel(level, total, used), TargetLevel(level, total, used');
            t <= t' && (t >= t' <==> IsRoot(c, total, used') || t == 100)
  {
    var _, e, x, c' := TargetIs(level, total, used');
    var q := RatioExists(e, x);
    TargetIsSum(level, total, used, e, x, c, q);
    TargetIsSum(level, total, used', e, x, c', q);
    RootsGrow(c, c', total, used, used');
    RootIff(c, c', total, used');
  }

  /** With a total of 100 and an idle upstream, using nothing gives a target of 7, using everything one of 17. */
  lemma MoreUseHigherTarget(total: int)
    requires total == 100
    ensures ExpectedAllocatePercent(0, total) == 69
    ensures TargetLevel(0, total, 0) == 7 && TargetLevel(0, total, 100) == 17
  {
    TargetIsUnique(69, 69, 5, 0, 7, 0, total, 0);
    TargetIsUnique(69, 69, 5, 10, 17, 0, total, 100);
  }
}
