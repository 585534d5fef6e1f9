/**
 * Physical planning of a logical aggregate: moving the group expressions
 * and the aggregate arguments into a projection, and choosing between a
 * simple (ungrouped), a hash and a perfect-hash aggregate.  A perfect-hash
 * aggregate addresses its table directly with the bits of each group key's
 * offset from the group's minimum, so it needs integer groups with known,
 * small ranges.
 */
module PlanAggregate {
  import opened Wrappers

  // ---------------------------------------------------------------------
  // Bit lengths

  const UINT32_LIMIT: nat := 0x1_0000_0000

  function Pow2(k: nat): (p: nat)
    ensures p >= 1
  {
    if k == 0 then 1 else 2 * Pow2(k - 1)
  }

  lemma {:induction false} Pow2Add(a: nat, b: nat)
    ensures Pow2(a + b) == Pow2(a) * Pow2(b)
    decreases a
  {
    if a > 0 {
      Pow2Add(a - 1, b);
    }
  }

  lemma Pow2Of32()
    ensures Pow2(32) == UINT32_LIMIT
  {
    assert Pow2(4) == 16;
    Pow2Add(4, 4);
    Pow2Add(8, 8);
    Pow2Add(16, 16);
  }

  /** Number of binary digits of `n` (0 for 0). */
  function BitLength(n: nat): nat
  {
    if n == 0 then 0 else 1 + BitLength(n / 2)
  }

  /** BitLength(n) is the least b with n < 2^b. */
  lemma {:induction false} BitLengthIsLeast(n: nat)
    ensures n < Pow2(BitLength(n))
    ensures n > 0 ==> Pow2(BitLength(n) - 1) <= n
  {
    if n > 0 {
      BitLengthIsLeast(n / 2);
    }
  }

  /** A value below 2^k needs at most k bits. */
  lemma {:induction false} BitLengthBound(n: nat, k: nat)
    requires n < Pow2(k)
    ensures BitLength(n) <= k
  {
    if n > 0 {
      BitLengthBound(n / 2, k - 1);
    }
  }

  /** RequiredBitsForValue: shift `n` right until it is 0, counting the shifts. */
  method RequiredBitsForValue(n: nat) returns (requiredBits: nat)
    requires n < UINT32_LIMIT
    ensures requiredBits == BitLength(n)
  {
    var m := n;
    requiredBits := 0;
    while m > 0
      invariant requiredBits + BitLength(m) == BitLength(n)
      decreases m
    {
      m := m / 2;
      requiredBits := requiredBits + 1;
    }
  }

  // ---------------------------------------------------------------------
  // Types, expressions, statistics

  datatype PhysicalType = Int8 | Int16 | Int32 | Int64 | OtherPhysical(name: string)

  datatype LogicalType = LogicalType(name: string, internalType: PhysicalType)

  /** A bound expression: a reference to a projected column, or any other expression. */
  datatype Expression =
    | BoundReference(returnType: LogicalType, index: nat)
    | OtherExpression(returnType: LogicalType, id: nat)

  /** A bound aggregate call: what its function supports, DISTINCT, and its arguments. */
  datatype BoundAggregate = BoundAggregate(
    hasCombine: bool, hasSimpleUpdate: bool, distinct: bool, children: seq<Expression>)

  /** Numeric statistics of a group column; a NULL min or max is None. */
  datatype NumericStatistics = NumericStatistics(min: Option<int>, max: Option<int>, hasNull: bool)

  const INT32_MAX: int := 0x7FFF_FFFF
  const INT64_MIN: int := -0x8000_0000_0000_0000
  const INT64_MAX: int := 0x7FFF_FFFF_FFFF_FFFF

  /** The integer physical types perfect hashing handles. */
  predicate IsPerfectHashType(t: PhysicalType)
  {
    t.Int8? || t.Int16? || t.Int32? || t.Int64?
  }

  function MinimumValue(t: PhysicalType): int
    requires IsPerfectHashType(t)
  {
    match t
    case Int8 => -0x80
    case Int16 => -0x8000
    case Int32 => -0x8000_0000
    case Int64 => INT64_MIN
  }

  function MaximumValue(t: PhysicalType): int
    requires IsPerfectHashType(t)
  {
    match t
    case Int8 => 0x7F
    case Int16 => 0x7FFF
    case Int32 => INT32_MAX
    case Int64 => INT64_MAX
  }

  /** TrySubtractOperator on int64: None when the difference overflows. */
  function TrySubtract(a: int, b: int): (r: Option<int>)
    ensures r.Some? <==> INT64_MIN <= a - b <= INT64_MAX
    ensures r.Some? ==> r.value == a - b
  {
    if INT64_MIN <= a - b <= INT64_MAX then Some(a - b) else None
  }


  // ---------------------------------------------------------------------
  // Perfect-hash eligibility of one group

  datatype GroupCheck = Reject | Accept(stats: NumericStatistics, bits: nat)

  /** Statistics covering a whole small type, with NULLs possible. */
  function FullRange(t: PhysicalType): NumericStatistics
    requires IsPerfectHashType(t)
  {
    NumericStatistics(Some(MinimumValue(t)), Some(MaximumValue(t)), true)
  }

  /**
   * One iteration of the group loop of CanUsePerfectHashAggregate, up to the
   * bit budget: reject the group, or accept it with the statistics it ends up
   * with and the bits its range needs.  The range, with two extra slots (one
   * for NULL, one because offsets start at one), is handed to
   * RequiredBitsForValue, whose parameter is a uint32: the conversion from
   * int64 is taken modulo 2^32.
   */
  function CheckGroup(t: PhysicalType, stats: Option<NumericStatistics>): (r: GroupCheck)
    ensures r.Accept? ==> IsPerfectHashType(t) && r.stats.min.Some? && r.stats.max.Some?
  {
    if !IsPerfectHashType(t) then Reject
    else if stats.None? && !(t.Int8? || t.Int16?) then Reject
    else
      var s := if stats.Some? then stats.value else FullRange(t);
      if s.min.None? || s.max.None? then Reject
      else
        var range := if t.Int64? then TrySubtract(s.max.value, s.min.value) else Some(s.max.value - s.min.value);
        if range.None? then Reject
        else if range.value >= INT32_MAX then Reject
        else Accept(s, BitLength((range.value + 2) % UINT32_LIMIT))
  }

  /**
   * Only integer groups are accepted, and only with statistics, which are
   * assumed to cover the whole type for INT8 and INT16; an accepted group has
   * both bounds, a range below INT32_MAX and the bit length of its range
   * plus two.
   */
  lemma CheckGroupSpec(t: PhysicalType, stats: Option<NumericStatistics>)
    ensures var r := CheckGroup(t, stats);
      (!IsPerfectHashType(t) ==> r.Reject?) &&
      (stats.None? && !(t.Int8? || t.Int16?) ==> r.Reject?) &&
      (r.Accept? && stats.Some? ==> r.stats == stats.value) &&
      (r.Accept? && stats.None? ==> r.stats == FullRange(t)) &&
      (r.Accept? ==> r.stats.max.value - r.stats.min.value < INT32_MAX) &&
      (r.Accept? ==> r.bits == BitLength((r.stats.max.value - r.stats.min.value + 2) % UINT32_LIMIT))
  {
  }

  /** The statistics a group is checked against: its own, or the whole type for INT8 and INT16 without any. */
  function CheckedStats(t: PhysicalType, stats: Option<NumericStatistics>): NumericStatistics
    requires IsPerfectHashType(t)
  {
    if stats.Some? then stats.value else FullRange(t)
  }

  /**
   * Statistics that allow perfect hashing: both bounds present, a max - min
   * that does not overflow int64 (checked for INT64 columns), and below
   * INT32_MAX.
   */
  predicate StatsFit(t: PhysicalType, s: NumericStatistics)
    requires IsPerfectHashType(t)
  {
    s.min.Some? && s.max.Some? &&
    (t.Int64? ==> INT64_MIN <= s.max.value - s.min.value <= INT64_MAX) &&
    s.max.value - s.min.value < INT32_MAX
  }

  /**
   * Both directions of the group check: a group is accepted exactly when it
   * is an integer column, has statistics or is INT8/INT16, and its checked
   * statistics fit; it is then accepted with those statistics and the bit
   * length of its range plus two.
   */
  lemma CheckGroupAccepts(t: PhysicalType, stats: Option<NumericStatistics>)
    ensures CheckGroup(t, stats).Accept? <==>
      IsPerfectHashType(t) && (stats.Some? || t.Int8? || t.Int16?) && StatsFit(t, CheckedStats(t, stats))
    ensures IsPerfectHashType(t) && (stats.Some? || t.Int8? || t.Int16?) && StatsFit(t, CheckedStats(t, stats)) ==>
      CheckGroup(t, stats) == Accept(CheckedStats(t, stats),
        BitLength((CheckedStats(t, stats).max.value - CheckedStats(t, stats).min.value + 2) % UINT32_LIMIT))
  {
  }

  lemma AcceptKeepsStats(t: PhysicalType, stats: Option<NumericStatistics>)
    requires CheckGroup(t, stats).Accept? && stats.Some?
    ensures CheckGroup(t, stats).stats == stats.value
  {
  }

  /** A group is rejected when a bound is NULL, when int64 subtraction overflows, or when the range is too wide. */
  lemma RejectionCases(t: PhysicalType, s: NumericStatistics)
    requires IsPerfectHashType(t)
    ensures s.min.None? || s.max.None? ==> CheckGroup(t, Some(s)).Reject?
    ensures s.min.Some? && s.max.Some? && t.Int64? && !(INT64_MIN <= s.max.value - s.min.value <= INT64_MAX) ==>
      CheckGroup(t, Some(s)).Reject?
    ensures s.min.Some? && s.max.Some? && s.max.value - s.min.value >= INT32_MAX ==> CheckGroup(t, Some(s)).Reject?
  {
  }

  lemma SmallModulus(x: int, m: nat)
    requires 0 <= x < m
    ensures x % m == x
  {
  }

  /**
   * The bits of an accepted group address every offset of its range plus
   * the NULL slot: with consistent statistics, range + 2 < 2^bits; and no
   * group takes more than 32 bits.
   */
  lemma AcceptedBitsCoverRange(t: PhysicalType, stats: Option<NumericStatistics>)
    requires CheckGroup(t, stats).Accept?
    ensures var r := CheckGroup(t, stats);
      r.bits <= 32 &&
      (r.stats.min.value <= r.stats.max.value ==> r.stats.max.value - r.stats.min.value + 2 < Pow2(r.bits))
  {
    var r := CheckGroup(t, stats);
    CheckGroupSpec(t, stats);
    var range := r.stats.max.value - r.stats.min.value;
    var n := (range + 2) % UINT32_LIMIT;
    if 0 <= range {
      SmallModulus(range + 2, UINT32_LIMIT);
    }
    BitLengthIsLeast(n);
    Pow2Of32();
    BitLengthBound(n, 32);
  }

  /** A group without statistics is accepted exactly when its type is INT8 or INT16, with 9 or 17 bits. */
  lemma SmallTypesWithoutStats(t: PhysicalType)
    ensures CheckGroup(t, None).Accept? <==> t.Int8? || t.Int16?
    ensures t.Int8? ==> CheckGroup(t, None) == Accept(FullRange(t), 9)
    ensures t.Int16? ==> CheckGroup(t, None) == Accept(FullRange(t), 17)
  {
    if t.Int8? {
      assert BitLength(257) == 9 by {
        assert BitLength(1) == 1;
        assert BitLength(2) == 2;
        assert BitLength(4) == 3;
        assert BitLength(8) == 4;
        assert BitLength(16) == 5;
        assert BitLength(32) == 6;
        assert BitLength(64) == 7;
        assert BitLength(128) == 8;
      }
    } else if t.Int16? {
      assert BitLength(65537) == 17 by {
        assert BitLength(1) == 1;
        assert BitLength(2) == 2;
        assert BitLength(4) == 3;
        assert BitLength(8) == 4;
        assert BitLength(16) == 5;
        assert BitLength(32) == 6;
        assert BitLength(64) == 7;
        assert BitLength(128) == 8;
        assert BitLength(256) == 9;
        assert BitLength(512) == 10;
        assert BitLength(1024) == 11;
        assert BitLength(2048) == 12;
        assert BitLength(4096) == 13;
        assert BitLength(8192) == 14;
        assert BitLength(16384) == 15;
        assert BitLength(32768) == 16;
      }
    }
  }

  /**
   * The body of the group loop of CanUsePerfectHashAggregate for one group,
   * up to the bit budget: the type filter, the full range assumed for small
   * types without statistics, the NULL and overflow checks and the range limit.
   */
  method InspectGroup(groupType: PhysicalType, groupStats: Option<NumericStatistics>) returns (r: GroupCheck)
    ensures r == CheckGroup(groupType, groupStats)
  {
    if !IsPerfectHashType(groupType) {
      return Reject;
    }
    var stats := groupStats;
    if stats.None? {
      if groupType.Int8? || groupType.Int16? {
        stats := Some(FullRange(groupType));
      } else {
        return Reject;
      }
    }
    var nstats := stats.value;
    if nstats.min.None? || nstats.max.None? {
      return Reject;
    }
    var range: int;
    if groupType.Int64? {
      var diff := TrySubtract(nstats.max.value, nstats.min.value);
      if diff.None? {
        return Reject;
      }
      range := diff.value;
    } else {
      range := nstats.max.value - nstats.min.value;
    }
    if range >= INT32_MAX {
      return Reject;
    }
    range := range + 2;
    var requiredBits := RequiredBitsForValue(range % UINT32_LIMIT);
    return Accept(nstats, requiredBits);
  }

  /** InspectGroup on the group at position i of a list of groups, stated against GroupChecks. */
  method InspectGroupAt(groupType: PhysicalType, groupStats: Option<NumericStatistics>,
                        ghost types: seq<PhysicalType>, ghost stats: seq<Option<NumericStatistics>>, ghost i: nat)
    returns (r: GroupCheck)
    requires |stats| == |types| && i < |types| && types[i] == groupType && stats[i] == groupStats
    ensures r == GroupChecks(types, stats)[i]
    ensures r.Accept? && groupStats.Some? ==> r.stats == groupStats.value
  {
    r := InspectGroup(groupType, groupStats);
    GroupChecksAt(types, stats, i);
    if r.Accept? && groupStats.Some? {
      AcceptKeepsStats(groupType, groupStats);
    }
  }

  // ---------------------------------------------------------------------
  // Perfect-hash eligibility of all groups

  /** The check of every group against its statistics. */
  function GroupChecks(types: seq<PhysicalType>, stats: seq<Option<NumericStatistics>>): (checks: seq<GroupCheck>)
    requires |stats| == |types|
    ensures |checks| == |types|
  {
    if types == [] then [] else [CheckGroup(types[0], stats[0])] + GroupChecks(types[1..], stats[1..])
  }

  lemma {:induction false} GroupChecksAt(types: seq<PhysicalType>, stats: seq<Option<NumericStatistics>>, i: nat)
    requires |stats| == |types| && i < |types|
    ensures GroupChecks(types, stats)[i] == CheckGroup(types[i], stats[i])
  {
    if i > 0 {
      GroupChecksAt(types[1..], stats[1..], i - 1);
    }
  }

  predicate AllAccepted(checks: seq<GroupCheck>)
  {
    forall k :: 0 <= k < |checks| ==> checks[k].Accept?
  }

  /** The bits of every group, when all of them are accepted. */
  function AcceptedBits(checks: seq<GroupCheck>): (bits: seq<nat>)
    requires AllAccepted(checks)
    ensures |bits| == |checks|
  {
    seq(|checks|, k requires 0 <= k < |checks| => checks[k].bits)
  }

  /** The statistics of every group, when all of them are accepted. */
  function AcceptedStats(checks: seq<GroupCheck>): (stats: seq<Option<NumericStatistics>>)
    requires AllAccepted(checks)
    ensures |stats| == |checks|
  {
    seq(|checks|, k requires 0 <= k < |checks| => Some(checks[k].stats))
  }

  function Sum(xs: seq<nat>): nat
  {
    if xs == [] then 0 else xs[0] + Sum(xs[1..])
  }

  lemma {:induction false} SumAppend(xs: seq<nat>, x: nat)
    ensures Sum(xs + [x]) == Sum(xs) + x
  {
    if xs != [] {
      assert (xs + [x])[1..] == xs[1..] + [x];
      SumAppend(xs[1..], x);
    }
  }

  /** The sum of a prefix of a sequence of naturals is at most the sum of the whole. */
  lemma {:induction false} SumPrefix(xs: seq<nat>, n: nat)
    requires n <= |xs|
    ensures Sum(xs[..n]) <= Sum(xs)
  {
    if n > 0 {
      assert xs[..n][1..] == xs[1..][..n - 1];
      SumPrefix(xs[1..], n - 1);
    }
  }

  /** Once the bits of the groups checked so far exceed the budget, the whole list does too. */
  lemma OverBudget(checks: seq<GroupCheck>, bits: seq<nat>, threshold: nat)
    requires |bits| <= |checks| && Sum(bits) > threshold
    requires forall k :: 0 <= k < |bits| ==> checks[k].Accept? && bits[k] == checks[k].bits
    ensures !(AllAccepted(checks) && Sum(AcceptedBits(checks)) <= threshold)
  {
    if AllAccepted(checks) {
      assert AcceptedBits(checks)[..|bits|] == bits;
      SumPrefix(AcceptedBits(checks), |bits|);
    }
  }

  /** Once every group is checked and accepted, the bits and statistics gathered are those of the whole list. */
  lemma WithinBudget(checks: seq<GroupCheck>, bits: seq<nat>, stats: seq<Option<NumericStatistics>>)
    requires |bits| == |checks| == |stats|
    requires forall k :: 0 <= k < |bits| ==>
      checks[k].Accept? && bits[k] == checks[k].bits && stats[k] == Some(checks[k].stats)
    ensures AllAccepted(checks) && bits == AcceptedBits(checks) && stats == AcceptedStats(checks)
  {
  }

  /** Aggregates a perfect-hash aggregate can run: no DISTINCT, and a combine function. */
  predicate SupportsPerfectHash(aggregates: seq<BoundAggregate>)
  {
    forall i :: 0 <= i < |aggregates| ==> !aggregates[i].distinct && aggregates[i].hasCombine
  }

  /** Aggregates a simple aggregate can run: a simple update function, and no DISTINCT. */
  predicate SupportsSimpleAggregation(aggregates: seq<BoundAggregate>)
  {
    forall i :: 0 <= i < |aggregates| ==> aggregates[i].hasSimpleUpdate && !aggregates[i].distinct
  }

  predicate AllCombinable(aggregates: seq<BoundAggregate>)
  {
    forall i :: 0 <= i < |aggregates| ==> aggregates[i].hasCombine
  }

  function GroupTypes(groups: seq<Expression>): (types: seq<PhysicalType>)
    ensures |types| == |groups| && forall i :: 0 <= i < |groups| ==> types[i] == groups[i].returnType.internalType
  {
    seq(|groups|, i requires 0 <= i < |groups| => groups[i].returnType.internalType)
  }

  function Nones(n: nat): (s: seq<Option<NumericStatistics>>)
    ensures |s| == n && forall i :: 0 <= i < n ==> s[i].None?
  {
    seq(n, _ => None)
  }

  /** Statistics for `n` groups: an empty list stands for one empty entry per group. */
  function Resized(stats: seq<Option<NumericStatistics>>, n: nat): (s: seq<Option<NumericStatistics>>)
    requires stats == [] || |stats| == n
    ensures |s| == n && (stats != [] ==> s == stats) && (stats == [] ==> s == Nones(n))
  {
    if stats == [] then Nones(n) else stats
  }

  // ---------------------------------------------------------------------
  // Projection of the aggregate's inputs

  function TypesOf(exprs: seq<Expression>): (types: seq<LogicalType>)
    ensures |types| == |exprs| && forall i :: 0 <= i < |exprs| ==> types[i] == exprs[i].returnType
  {
    seq(|exprs|, i requires 0 <= i < |exprs| => exprs[i].returnType)
  }

  /** The arguments of all aggregates, in order. */
  function Arguments(aggregates: seq<BoundAggregate>): seq<Expression>
    decreases |aggregates|
  {
    if aggregates == [] then []
    else Arguments(aggregates[..|aggregates| - 1]) + aggregates[|aggregates| - 1].children
  }

  /** References to `exprs`, numbered from `start`. */
  function ReferencesTo(exprs: seq<Expression>, start: nat): (refs: seq<Expression>)
    ensures |refs| == |exprs|
  {
    seq(|exprs|, i requires 0 <= i < |exprs| => BoundReference(exprs[i].returnType, start + i))
  }

  /** The aggregates with each argument replaced by a reference to its projected column, numbered from `start`. */
  function RewriteAggregates(aggregates: seq<BoundAggregate>, start: nat): (r: seq<BoundAggregate>)
    ensures |r| == |aggregates|
    decreases |aggregates|
  {
    if aggregates == [] then []
    else
      var init, last := aggregates[..|aggregates| - 1], aggregates[|aggregates| - 1];
      RewriteAggregates(init, start) + [last.(children := ReferencesTo(last.children, start + |Arguments(init)|))]
  }

  /** Aggregate `a` after rewriting: its arguments refer to the columns after those of the aggregates before it. */
  lemma {:induction false} RewrittenAggregate(aggregates: seq<BoundAggregate>, start: nat, a: nat)
    requires a < |aggregates|
    ensures RewriteAggregates(aggregates, start)[a] ==
      aggregates[a].(children := ReferencesTo(aggregates[a].children, start + |Arguments(aggregates[..a])|))
    decreases |aggregates|
  {
    var init := aggregates[..|aggregates| - 1];
    if a == |aggregates| - 1 {
      assert aggregates[..a] == init;
    } else {
      assert init[..a] == aggregates[..a];
      RewrittenAggregate(init, start, a);
    }
  }

  /** Argument `c` of aggregate `a` sits in Arguments right after the arguments of the aggregates before it. */
  lemma {:induction false} ArgumentPosition(aggregates: seq<BoundAggregate>, a: nat, c: nat)
    requires a < |aggregates| && c < |aggregates[a].children|
    ensures |Arguments(aggregates[..a])| + c < |Arguments(aggregates)|
    ensures Arguments(aggregates)[|Arguments(aggregates[..a])| + c] == aggregates[a].children[c]
    decreases |aggregates|
  {
    var init := aggregates[..|aggregates| - 1];
    if a == |aggregates| - 1 {
      assert aggregates[..a] == init;
    } else {
      assert init[..a] == aggregates[..a];
      ArgumentPosition(init, a, c);
    }
  }

  /**
   * After ExtractAggregateExpressions every group is a reference, of the
   * same type, to the projected column that holds the group expression.
   */
  lemma GroupReferencesResolve(groups: seq<Expression>, arguments: seq<Expression>)
    ensures var projected := groups + arguments;
      var refs := ReferencesTo(groups, 0);
      forall i :: 0 <= i < |groups| ==>
        refs[i].BoundReference? && refs[i].returnType == groups[i].returnType &&
        refs[i].index < |projected| && projected[refs[i].index] == groups[i]
  {
  }

  /**
   * After ExtractAggregateExpressions every aggregate argument is a
   * reference, of the same type, to the projected column that holds the
   * argument it replaced (the projection holds the groups, then the
   * arguments), and the aggregates keep their flags.
   */
  lemma ArgumentReferencesResolve(groups: seq<Expression>, aggregates: seq<BoundAggregate>)
    ensures forall a, c :: 0 <= a < |aggregates| && 0 <= c < |aggregates[a].children| ==>
      ArgumentResolves(groups, aggregates, a, c)
    ensures var rewritten := RewriteAggregates(aggregates, |groups|);
      forall a :: 0 <= a < |aggregates| ==>
        rewritten[a].distinct == aggregates[a].distinct &&
        rewritten[a].hasCombine == aggregates[a].hasCombine &&
        rewritten[a].hasSimpleUpdate == aggregates[a].hasSimpleUpdate
  {
    forall a, c | 0 <= a < |aggregates| && 0 <= c < |aggregates[a].children|
      ensures ArgumentResolves(groups, aggregates, a, c)
    {
      ArgumentPosition(aggregates, a, c);
      RewrittenAggregate(aggregates, |groups|, a);
    }
    var rewritten := RewriteAggregates(aggregates, |groups|);
    forall a | 0 <= a < |aggregates|
      ensures rewritten[a].distinct == aggregates[a].distinct
      ensures rewritten[a].hasCombine == aggregates[a].hasCombine
      ensures rewritten[a].hasSimpleUpdate == aggregates[a].hasSimpleUpdate
    {
      RewrittenAggregate(aggregates, |groups|, a);
    }
  }

  /**
   * Argument `c` of aggregate `a`, once rewritten, is a reference of the
   * same type to the projected column holding the original argument.
   */
  predicate ArgumentResolves(groups: seq<Expression>, aggregates: seq<BoundAggregate>, a: nat, c: nat)
    requires a < |aggregates| && c < |aggregates[a].children|
  {
    var projected := groups + Arguments(aggregates);
    var rewritten := RewriteAggregates(aggregates, |groups|);
    |rewritten[a].children| == |aggregates[a].children| &&
    rewritten[a].children[c].BoundReference? &&
    rewritten[a].children[c].returnType == aggregates[a].children[c].returnType &&
    rewritten[a].children[c].index < |projected| &&
    projected[rewritten[a].children[c].index] == aggregates[a].children[c]
  }

  // ---------------------------------------------------------------------
  // The logical aggregate and its planning

  /** A physical plan: the aggregate operators, the projection below them, and an already planned input. */
  datatype PhysicalOperator =
    | PhysicalSimpleAggregate(aggregates: seq<BoundAggregate>, allCombinable: bool, child: PhysicalOperator)
    | PhysicalHashAggregate(aggregates: seq<BoundAggregate>, groups: seq<Expression>, child: PhysicalOperator)
    | PhysicalPerfectHashAggregate(aggregates: seq<BoundAggregate>, groups: seq<Expression>,
        groupStats: seq<Option<NumericStatistics>>, requiredBits: seq<nat>, child: PhysicalOperator)
    | PhysicalProjection(types: seq<LogicalType>, expressions: seq<Expression>, child: PhysicalOperator)
    | PlannedInput(id: nat)

  /** The input of the aggregate: a projection of the groups and arguments, unless there are none. */
  function AggregateInput(groups: seq<Expression>, aggregates: seq<BoundAggregate>, child: PhysicalOperator): PhysicalOperator
  {
    var projected := groups + Arguments(aggregates);
    if projected == [] then child else PhysicalProjection(TypesOf(projected), projected, child)
  }

  /**
   * The plan for a logical aggregate over an already planned `child`:
   * without groups a simple aggregate when every aggregate allows it, with
   * groups a perfect-hash aggregate when every group is accepted within
   * `threshold` bits and every aggregate allows it, and a hash aggregate
   * otherwise.
   */
  function AggregatePlan(threshold: nat, groups: seq<Expression>, stats: seq<Option<NumericStatistics>>,
                         aggregates: seq<BoundAggregate>, child: PhysicalOperator): PhysicalOperator
    requires stats == [] || |stats| == |groups|
  {
    var input := AggregateInput(groups, aggregates, child);
    var references, rewritten := ReferencesTo(groups, 0), RewriteAggregates(aggregates, |groups|);
    if groups == [] then
      if SupportsSimpleAggregation(aggregates) then PhysicalSimpleAggregate(rewritten, AllCombinable(aggregates), input)
      else PhysicalHashAggregate(rewritten, [], input)
    else
      var checks := GroupChecks(GroupTypes(groups), Resized(stats, |groups|));
      if AllAccepted(checks) && Sum(AcceptedBits(checks)) <= threshold && SupportsPerfectHash(aggregates) then
        PhysicalPerfectHashAggregate(rewritten, references, AcceptedStats(checks), AcceptedBits(checks), input)
      else PhysicalHashAggregate(rewritten, references, input)
  }

  /** Rewriting the arguments of the aggregates keeps the flags planning looks at. */
  lemma RewriteKeepsFlags(aggregates: seq<BoundAggregate>, start: nat)
    ensures var rewritten := RewriteAggregates(aggregates, start);
      SupportsSimpleAggregation(rewritten) == SupportsSimpleAggregation(aggregates) &&
      SupportsPerfectHash(rewritten) == SupportsPerfectHash(aggregates) &&
      AllCombinable(rewritten) == AllCombinable(aggregates)
  {
    var rewritten := RewriteAggregates(aggregates, start);
    forall a | 0 <= a < |aggregates|
      ensures rewritten[a].distinct == aggregates[a].distinct
      ensures rewritten[a].hasCombine == aggregates[a].hasCombine
      ensures rewritten[a].hasSimpleUpdate == aggregates[a].hasSimpleUpdate
    {
      RewrittenAggregate(aggregates, start, a);
    }
  }

  /**
   * Which operator is chosen: the aggregate reads the projection of its
   * groups and arguments; a simple aggregate exactly when there are no
   * groups and every aggregate has a simple update and no DISTINCT; a
   * perfect-hash aggregate only with groups and aggregates without DISTINCT
   * that have a combine function.
   */
  lemma PlanChoice(threshold: nat, groups: seq<Expression>, stats: seq<Option<NumericStatistics>>,
                   aggregates: seq<BoundAggregate>, child: PhysicalOperator)
    requires stats == [] || |stats| == |groups|
    ensures var plan := AggregatePlan(threshold, groups, stats, aggregates, child);
      (plan.PhysicalSimpleAggregate? || plan.PhysicalHashAggregate? || plan.PhysicalPerfectHashAggregate?) &&
      plan.child == AggregateInput(groups, aggregates, child) &&
      plan.aggregates == RewriteAggregates(aggregates, |groups|) &&
      (plan.PhysicalSimpleAggregate? <==> groups == [] && SupportsSimpleAggregation(plan.aggregates)) &&
      (plan.PhysicalSimpleAggregate? ==> plan.allCombinable == AllCombinable(plan.aggregates)) &&
      (plan.PhysicalPerfectHashAggregate? ==> groups != [] && SupportsPerfectHash(plan.aggregates))
    ensures var plan := AggregatePlan(threshold, groups, stats, aggregates, child);
      var checks := GroupChecks(GroupTypes(groups), Resized(stats, |groups|));
      groups != [] ==>
        (plan.PhysicalPerfectHashAggregate? <==>
          AllAccepted(checks) && Sum(AcceptedBits(checks)) <= threshold && SupportsPerfectHash(aggregates)) &&
        (!plan.PhysicalPerfectHashAggregate? ==> plan.PhysicalHashAggregate?)
  {
    RewriteKeepsFlags(aggregates, |groups|);
  }

  /**
   * A perfect-hash aggregate has one bit count and one set of statistics
   * per group, bit counts within the budget, and bits that cover every
   * group's range plus the NULL slot.
   */
  lemma PerfectHashPlanFits(threshold: nat, groups: seq<Expression>, stats: seq<Option<NumericStatistics>>,
                            aggregates: seq<BoundAggregate>, child: PhysicalOperator)
    requires stats == [] || |stats| == |groups|
    requires AggregatePlan(threshold, groups, stats, aggregates, child).PhysicalPerfectHashAggregate?
    ensures var plan := AggregatePlan(threshold, groups, stats, aggregates, child);
      |plan.requiredBits| == |groups| == |plan.groupStats| && Sum(plan.requiredBits) <= threshold &&
      forall k :: 0 <= k < |groups| ==>
        plan.requiredBits[k] <= 32 && plan.groupStats[k].Some? &&
        plan.groupStats[k].value.min.Some? && plan.groupStats[k].value.max.Some? &&
        (plan.groupStats[k].value.min.value <= plan.groupStats[k].value.max.value ==>
          plan.groupStats[k].value.max.value - plan.groupStats[k].value.min.value + 2 < Pow2(plan.requiredBits[k]))
  {
    var plan := AggregatePlan(threshold, groups, stats, aggregates, child);
    var checks := GroupChecks(GroupTypes(groups), Resized(stats, |groups|));
    assert plan.requiredBits == AcceptedBits(checks) && plan.groupStats == AcceptedStats(checks);
    forall k | 0 <= k < |groups|
      ensures plan.requiredBits[k] <= 32 && plan.groupStats[k].Some? &&
        plan.groupStats[k].value.min.Some? && plan.groupStats[k].value.max.Some? &&
        (plan.groupStats[k].value.min.value <= plan.groupStats[k].value.max.value ==>
          plan.groupStats[k].value.max.value - plan.groupStats[k].value.min.value + 2 < Pow2(plan.requiredBits[k]))
    {
      assert plan.requiredBits[k] == checks[k].bits && plan.groupStats[k] == Some(checks[k].stats);
      GroupChecksAt(GroupTypes(groups), Resized(stats, |groups|), k);
      AcceptedBitsCoverRange(GroupTypes(groups)[k], Resized(stats, |groups|)[k]);
    }
  }

  /** A group reference keeps the type of the group it replaces. */
  lemma ReferencesKeepTypes(groups: seq<Expression>, start: nat)
    ensures GroupTypes(ReferencesTo(groups, start)) == GroupTypes(groups)
  {
  }

  /** The parts of a LogicalAggregate that planning reads and rewrites. */
  class LogicalAggregate {
    var groups: seq<Expression>
    var groupStats: seq<Option<NumericStatistics>>
    var expressions: seq<BoundAggregate>

    /** Statistics are absent altogether, or there is one entry per group. */
    predicate StatsSized()
      reads this
    {
      groupStats == [] || |groupStats| == |groups|
    }

    /** The statistics the group loop starts from. */
    function InitialStats(): (s: seq<Option<NumericStatistics>>)
      reads this
      requires StatsSized()
      ensures |s| == |groups|
    {
      Resized(groupStats, |groups|)
    }

    /** The check of every group against its initial statistics. */
    function PerfectHashChecks(): (checks: seq<GroupCheck>)
      reads this
      requires StatsSized()
      ensures |checks| == |groups|
    {
      GroupChecks(GroupTypes(groups), InitialStats())
    }
  }

  /** The aggregate loop of CanUsePerfectHashAggregate: no DISTINCT aggregate, and every one with a combine function. */
  method SupportsPerfectHashAggregates(aggregates: seq<BoundAggregate>) returns (ok: bool)
    ensures ok == SupportsPerfectHash(aggregates)
  {
    var i := 0;
    while i < |aggregates|
      invariant 0 <= i <= |aggregates|
      invariant forall j :: 0 <= j < i ==> !aggregates[j].distinct && aggregates[j].hasCombine
    {
      var aggregate := aggregates[i];
      if aggregate.distinct || !aggregate.hasCombine {
        return false;
      }
      i := i + 1;
    }
    return true;
  }

  /**
   * The group loop of CanUsePerfectHashAggregate: check every group in order,
   * filling in the statistics it derives, and stop at the first group that
   * is rejected or that takes the total bit count over `threshold`.
   */
  method CheckGroupsForPerfectHash(groups: seq<Expression>, stats: seq<Option<NumericStatistics>>, threshold: nat)
    returns (ok: bool, bitsPerGroup: seq<nat>, groupStats: seq<Option<NumericStatistics>>)
    requires stats == [] || |stats| == |groups|
    ensures var checks := GroupChecks(GroupTypes(groups), Resized(stats, |groups|));
      ok <==> AllAccepted(checks) && Sum(AcceptedBits(checks)) <= threshold
    ensures var checks := GroupChecks(GroupTypes(groups), Resized(stats, |groups|));
      ok ==> bitsPerGroup == AcceptedBits(checks) && groupStats == AcceptedStats(checks)
    ensures var checks, initial := GroupChecks(GroupTypes(groups), Resized(stats, |groups|)), Resized(stats, |groups|);
      |groupStats| == |groups| &&
      forall k :: 0 <= k < |groups| ==>
        groupStats[k] == initial[k] || (checks[k].Accept? && groupStats[k] == Some(checks[k].stats))
  {
    ghost var types, initial := GroupTypes(groups), Resized(stats, |groups|);
    ghost var checks := GroupChecks(types, initial);
    var perfectHashBits: nat := 0;
    bitsPerGroup := [];
    groupStats := stats;
    if |groupStats| == 0 {
      groupStats := Nones(|groups|);
    }
    var groupIdx := 0;
    while groupIdx < |groups|
      invariant 0 <= groupIdx <= |groups| == |groupStats| == |checks| == |types|
      invariant |bitsPerGroup| == groupIdx
      invariant forall k :: 0 <= k < groupIdx ==>
        checks[k].Accept? && bitsPerGroup[k] == checks[k].bits && groupStats[k] == Some(checks[k].stats)
      invariant forall k :: groupIdx <= k < |groups| ==> groupStats[k] == initial[k]
      invariant perfectHashBits == Sum(bitsPerGroup) <= threshold
    {
      var check := InspectGroupAt(groups[groupIdx].returnType.internalType, groupStats[groupIdx], types, initial, groupIdx);
      if check.Reject? {
        return false, bitsPerGroup, groupStats;
      }
      var nstats, requiredBits := check.stats, check.bits;
      if groupStats[groupIdx].None? {
        groupStats := groupStats[groupIdx := Some(nstats)];
      }
      SumAppend(bitsPerGroup, requiredBits);
      bitsPerGroup := bitsPerGroup + [requiredBits];
      perfectHashBits := perfectHashBits + requiredBits;
      if perfectHashBits > threshold {
        OverBudget(checks, bitsPerGroup, threshold);
        return false, bitsPerGroup, groupStats;
      }
      groupIdx := groupIdx + 1;
    }
    WithinBudget(checks, bitsPerGroup, groupStats);
    ok := true;
  }

  /**
   * CanUsePerfectHashAggregate: decide whether the groups and aggregates of
   * `op` allow a perfect-hash aggregate within `threshold` bits.  The group
   * statistics it fills in stay in `op` whatever the verdict.
   */
  method CanUsePerfectHashAggregate(threshold: nat, op: LogicalAggregate) returns (ok: bool, bitsPerGroup: seq<nat>)
    requires op.StatsSized()
    modifies op
    ensures op.groups == old(op.groups) && op.expressions == old(op.expressions)
    ensures var checks := old(op.PerfectHashChecks());
      ok <==> AllAccepted(checks) && Sum(AcceptedBits(checks)) <= threshold && SupportsPerfectHash(op.expressions)
    ensures var checks := old(op.PerfectHashChecks());
      AllAccepted(checks) && Sum(AcceptedBits(checks)) <= threshold ==>
        bitsPerGroup == AcceptedBits(checks) && op.groupStats == AcceptedStats(checks)
    ensures var checks, initial := old(op.PerfectHashChecks()), old(op.InitialStats());
      |op.groupStats| == |checks| &&
      forall k :: 0 <= k < |checks| ==>
        op.groupStats[k] == initial[k] || (checks[k].Accept? && op.groupStats[k] == Some(checks[k].stats))
  {
    var groupsOk, groupStats;
    groupsOk, bitsPerGroup, groupStats := CheckGroupsForPerfectHash(op.groups, op.groupStats, threshold);
    op.groupStats := groupStats;
    if !groupsOk {
      return false, bitsPerGroup;
    }
    ok := SupportsPerfectHashAggregates(op.expressions);
  }

  /**
   * The argument loop of ExtractAggregateExpressions for one aggregate: its
   * arguments are appended to the projected expressions, and each is replaced
   * by a reference to the column it now occupies.
   */
  method ProjectArguments(aggr: BoundAggregate, expressions: seq<Expression>, types: seq<LogicalType>)
    returns (rewritten: BoundAggregate, projected: seq<Expression>, projectedTypes: seq<LogicalType>)
    requires types == TypesOf(expressions)
    ensures rewritten == aggr.(children := ReferencesTo(aggr.children, |expressions|))
    ensures projected == expressions + aggr.children && projectedTypes == TypesOf(projected)
  {
    var children := aggr.children;
    projected, projectedTypes := expressions, types;
    var childIdx := 0;
    while childIdx < |children|
      invariant 0 <= childIdx <= |children| == |aggr.children|
      invariant projected == expressions + aggr.children[..childIdx] && projectedTypes == TypesOf(projected)
      invariant forall k :: 0 <= k < childIdx ==>
        children[k] == BoundReference(aggr.children[k].returnType, |expressions| + k)
      invariant forall k :: childIdx <= k < |children| ==> children[k] == aggr.children[k]
    {
      var argument := children[childIdx];
      var ref := BoundReference(argument.returnType, |projected|);
      projectedTypes := projectedTypes + [argument.returnType];
      projected := projected + [argument];
      children := children[childIdx := ref];
      assert aggr.children[..childIdx + 1] == aggr.children[..childIdx] + [argument];
      childIdx := childIdx + 1;
    }
    assert aggr.children[..childIdx] == aggr.children;
    rewritten := aggr.(children := children);
  }

  /**
   * The group loop of ExtractAggregateExpressions: every group becomes a
   * projected expression, and is replaced by a reference to its column.
   */
  method ProjectGroups(groups: seq<Expression>)
    returns (references: seq<Expression>, projected: seq<Expression>, projectedTypes: seq<LogicalType>)
    ensures references == ReferencesTo(groups, 0)
    ensures projected == groups && projectedTypes == TypesOf(projected)
  {
    references := groups;
    projected, projectedTypes := [], [];
    var groupIdx := 0;
    while groupIdx < |references|
      invariant 0 <= groupIdx <= |references| == |groups|
      invariant projected == groups[..groupIdx] && projectedTypes == TypesOf(projected)
      invariant forall k :: 0 <= k < groupIdx ==> references[k] == BoundReference(groups[k].returnType, k)
      invariant forall k :: groupIdx <= k < |groups| ==> references[k] == groups[k]
    {
      var group := references[groupIdx];
      var ref := BoundReference(group.returnType, |projected|);
      projectedTypes := projectedTypes + [group.returnType];
      projected := projected + [group];
      references := references[groupIdx := ref];
      assert groups[..groupIdx + 1] == groups[..groupIdx] + [group];
      groupIdx := groupIdx + 1;
    }
    assert groups[..groupIdx] == groups;
  }

  /**
   * The aggregate loop of ExtractAggregateExpressions: the arguments of every
   * aggregate, in order, are appended to the projected expressions.
   */
  method ProjectAggregates(aggregates: seq<BoundAggregate>, expressions: seq<Expression>, types: seq<LogicalType>)
    returns (rewritten: seq<BoundAggregate>, projected: seq<Expression>, projectedTypes: seq<LogicalType>)
    requires types == TypesOf(expressions)
    ensures rewritten == RewriteAggregates(aggregates, |expressions|)
    ensures projected == expressions + Arguments(aggregates) && projectedTypes == TypesOf(projected)
  {
    rewritten := aggregates;
    projected, projectedTypes := expressions, types;
    var aggrIdx := 0;
    while aggrIdx < |rewritten|
      invariant 0 <= aggrIdx <= |rewritten| == |aggregates|
      invariant projected == expressions + Arguments(aggregates[..aggrIdx]) && projectedTypes == TypesOf(projected)
      invariant forall k :: 0 <= k < aggrIdx ==> rewritten[k] == RewriteAggregates(aggregates, |expressions|)[k]
      invariant forall k :: aggrIdx <= k < |aggregates| ==> rewritten[k] == aggregates[k]
    {
      var aggr, nextProjected, nextTypes := ProjectArguments(rewritten[aggrIdx], projected, projectedTypes);
      RewrittenAggregate(aggregates, |expressions|, aggrIdx);
      rewritten := rewritten[aggrIdx := aggr];
      projected, projectedTypes := nextProjected, nextTypes;
      assert aggregates[..aggrIdx + 1][..aggrIdx] == aggregates[..aggrIdx];
      aggrIdx := aggrIdx + 1;
    }
    assert aggregates[..aggrIdx] == aggregates;
    assert rewritten == RewriteAggregates(aggregates, |expressions|);
  }

  /**
   * ExtractAggregateExpressions: move every group and then every aggregate
   * argument, in order, into a projection on top of `child`, replacing each
   * by a reference to its projected column.  Without any such expression the
   * child is returned as it is.
   */
  method ExtractAggregateExpressions(child: PhysicalOperator, op: LogicalAggregate) returns (plan: PhysicalOperator)
    modifies op
    ensures op.groupStats == old(op.groupStats)
    ensures op.groups == ReferencesTo(old(op.groups), 0)
    ensures op.expressions == RewriteAggregates(old(op.expressions), |old(op.groups)|)
    ensures var projected := old(op.groups) + Arguments(old(op.expressions));
      plan == if projected == [] then child else PhysicalProjection(TypesOf(projected), projected, child)
  {
    var expressions, types;
    op.groups, expressions, types := ProjectGroups(op.groups);
    op.expressions, expressions, types := ProjectAggregates(op.expressions, expressions, types);
    if |expressions| == 0 {
      return child;
    }
    return PhysicalProjection(types, expressions, child);
  }

  /** The first loop of CreatePlan: whether every aggregate has a combine function. */
  method AllCombinableAggregates(aggregates: seq<BoundAggregate>) returns (allCombinable: bool)
    ensures allCombinable == AllCombinable(aggregates)
  {
    allCombinable := true;
    var i := 0;
    while i < |aggregates|
      invariant 0 <= i <= |aggregates|
      invariant forall j :: 0 <= j < i ==> aggregates[j].hasCombine
    {
      if !aggregates[i].hasCombine {
        allCombinable := false;
        break;
      }
      i := i + 1;
    }
  }

  /** The simple-aggregation loop of CreatePlan: every aggregate has a simple update and no DISTINCT. */
  method SimpleAggregationSupported(aggregates: seq<BoundAggregate>) returns (useSimpleAggregation: bool)
    ensures useSimpleAggregation == SupportsSimpleAggregation(aggregates)
  {
    useSimpleAggregation := true;
    var i := 0;
    while i < |aggregates|
      invariant 0 <= i <= |aggregates|
      invariant forall j :: 0 <= j < i ==> aggregates[j].hasSimpleUpdate && !aggregates[j].distinct
    {
      if !aggregates[i].hasSimpleUpdate || aggregates[i].distinct {
        useSimpleAggregation := false;
        break;
      }
      i := i + 1;
    }
  }

  /**
   * CreatePlan for a logical aggregate whose input has been planned as
   * `child`: extract the projection, then pick the aggregate operator.
   */
  method CreatePlan(threshold: nat, op: LogicalAggregate, child: PhysicalOperator) returns (groupby: PhysicalOperator)
    requires op.StatsSized()
    modifies op
    ensures groupby == AggregatePlan(threshold, old(op.groups), old(op.groupStats), old(op.expressions), child)
    ensures op.groups == [] && op.expressions == []
    ensures old(op.groups) == [] ==> op.groupStats == old(op.groupStats)
    ensures groupby.PhysicalPerfectHashAggregate? ==> op.groupStats == []
    ensures var checks, initial := old(op.PerfectHashChecks()), old(op.InitialStats());
      old(op.groups) != [] && groupby.PhysicalHashAggregate? ==>
        |op.groupStats| == |checks| &&
        forall k :: 0 <= k < |checks| ==>
          op.groupStats[k] == initial[k] || (checks[k].Accept? && op.groupStats[k] == Some(checks[k].stats))
  {
    ghost var groups, stats, aggregates := op.groups, op.groupStats, op.expressions;
    var allCombinable := AllCombinableAggregates(op.expressions);
    var plan := ExtractAggregateExpressions(child, op);
    RewriteKeepsFlags(aggregates, |groups|);
    if |op.groups| == 0 {
      var useSimpleAggregation := SimpleAggregationSupported(op.expressions);
      if useSimpleAggregation {
        groupby := PhysicalSimpleAggregate(op.expressions, allCombinable, plan);
      } else {
        groupby := PhysicalHashAggregate(op.expressions, [], plan);
      }
    } else {
      ReferencesKeepTypes(groups, 0);
      var ok, requiredBits := CanUsePerfectHashAggregate(threshold, op);
      if ok {
        groupby := PhysicalPerfectHashAggregate(op.expressions, op.groups, op.groupStats, requiredBits, plan);
        op.groupStats := [];
      } else {
        groupby := PhysicalHashAggregate(op.expressions, op.groups, plan);
      }
      op.groups := [];
    }
    // the aggregates (and, with groups, the groups) are moved into the new operator
    op.expressions := [];
  }
}
