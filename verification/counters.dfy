/** The counter record read from a cachegrind report (`CachegrindStats`), the
    calibration subtraction, the cache-tier summary (`CachegrindSummary`) and
    the weighted cycle estimate. */
module Counters {
  import opened Results
  import opened Limits

  /** Rust's `u64`. */
  type uint64 = x: int | 0 <= x < U64_LIMIT

  /** The nine cachegrind counters, in the order the struct declares them. */
  datatype Stats = Stats(
    instructionReads: uint64,        // Ir
    instructionL1Misses: uint64,     // I1mr
    instructionCacheMisses: uint64,  // ILmr
    dataReads: uint64,               // Dr
    dataL1ReadMisses: uint64,        // D1mr
    dataCacheReadMisses: uint64,     // DLmr
    dataWrites: uint64,              // Dw
    dataL1WriteMisses: uint64,       // D1mw
    dataCacheWriteMisses: uint64     // DLmw
  )

  /** The cachegrind event name of each field, in field order. */
  const EventNames: seq<string> := ["Ir", "I1mr", "ILmr", "Dr", "D1mr", "DLmr", "Dw", "D1mw", "DLmw"]

  /** The field a cachegrind event name denotes, or -1. */
  function FieldIndex(name: string): (k: int)
    ensures -1 <= k < |EventNames|
    ensures k >= 0 ==> EventNames[k] == name
  {
    if name == "Ir" then 0 else if name == "I1mr" then 1 else if name == "ILmr" then 2
    else if name == "Dr" then 3 else if name == "D1mr" then 4 else if name == "DLmr" then 5
    else if name == "Dw" then 6 else if name == "D1mw" then 7 else if name == "DLmw" then 8
    else -1
  }

  /** Every event name denotes its own field, so no two fields share a name. */
  lemma EventNamesDistinct()
    ensures forall k :: 0 <= k < |EventNames| ==> FieldIndex(EventNames[k]) == k
    ensures forall a, b :: 0 <= a < b < |EventNames| ==> EventNames[a] != EventNames[b]
  {
    assert forall k :: 0 <= k < |EventNames| ==> FieldIndex(EventNames[k]) == k;
  }

  const Zero: Stats := Stats(0, 0, 0, 0, 0, 0, 0, 0, 0)

  /** The fields as a sequence indexed like `EventNames`. */
  function Fields(s: Stats): (fs: seq<uint64>)
    ensures |fs| == |EventNames|
  {
    [s.instructionReads, s.instructionL1Misses, s.instructionCacheMisses,
     s.dataReads, s.dataL1ReadMisses, s.dataCacheReadMisses,
     s.dataWrites, s.dataL1WriteMisses, s.dataCacheWriteMisses]
  }

  /** The record whose fields are `fs`; the inverse of `Fields`. */
  function FromFields(fs: seq<uint64>): (s: Stats)
    requires |fs| == |EventNames|
    ensures Fields(s) == fs
  {
    Stats(fs[0], fs[1], fs[2], fs[3], fs[4], fs[5], fs[6], fs[7], fs[8])
  }

  /** A record is determined by its fields. */
  lemma FieldsInjective(a: Stats, b: Stats)
    requires forall k :: 0 <= k < |EventNames| ==> Fields(a)[k] == Fields(b)[k]
    ensures a == b
  {
    assert Fields(a) == Fields(b);
    assert FromFields(Fields(a)) == a;
    assert FromFields(Fields(b)) == b;
  }

  // ---------------------------------------------------------------------------
  // Calibration subtraction

  /** `u64::saturating_sub`: the least value that, added back to `y`, reaches `x`. */
  function SaturatingSub(x: uint64, y: uint64): (r: uint64)
    ensures r <= x
    ensures x <= r + y
    ensures r > 0 ==> r + y == x
  {
    if x >= y then x - y else 0
  }

  /** `CachegrindStats::subtract`: removes the calibration baseline from each
      field independently, clamping each at zero. */
  function Subtract(s: Stats, calibration: Stats): Stats {
    Stats(
      SaturatingSub(s.instructionReads, calibration.instructionReads),
      SaturatingSub(s.instructionL1Misses, calibration.instructionL1Misses),
      SaturatingSub(s.instructionCacheMisses, calibration.instructionCacheMisses),
      SaturatingSub(s.dataReads, calibration.dataReads),
      SaturatingSub(s.dataL1ReadMisses, calibration.dataL1ReadMisses),
      SaturatingSub(s.dataCacheReadMisses, calibration.dataCacheReadMisses),
      SaturatingSub(s.dataWrites, calibration.dataWrites),
      SaturatingSub(s.dataL1WriteMisses, calibration.dataL1WriteMisses),
      SaturatingSub(s.dataCacheWriteMisses, calibration.dataCacheWriteMisses))
  }

  /** Subtraction works on each counter alone, by its position in the
      event list: the difference where the measurement is at least the
      calibration, zero otherwise. */
  lemma SubtractFieldwise(s: Stats, calibration: Stats)
    ensures forall k :: 0 <= k < |EventNames| ==>
      Fields(Subtract(s, calibration))[k] == if Fields(s)[k] >= Fields(calibration)[k]
                                             then Fields(s)[k] - Fields(calibration)[k] else 0
  {
  }

  /** Subtracting an all-zero calibration changes nothing. */
  lemma SubtractZeroIsIdentity(s: Stats)
    ensures Subtract(s, Zero) == s
  {
    SubtractFieldwise(s, Zero);
    FieldsInjective(Subtract(s, Zero), s);
  }

  /** Subtracting a record from itself leaves nothing. */
  lemma SubtractSelfIsZero(s: Stats)
    ensures Subtract(s, s) == Zero
  {
    SubtractFieldwise(s, s);
    FieldsInjective(Subtract(s, s), Zero);
  }

  /** Subtraction never increases a counter, and a calibration that dominates
      the measurement field by field yields all zeros. */
  lemma SubtractBounds(s: Stats, calibration: Stats)
    ensures forall k :: 0 <= k < |EventNames| ==> Fields(Subtract(s, calibration))[k] <= Fields(s)[k]
    ensures (forall k :: 0 <= k < |EventNames| ==> Fields(s)[k] <= Fields(calibration)[k])
            ==> Subtract(s, calibration) == Zero
  {
    SubtractFieldwise(s, calibration);
    if forall k :: 0 <= k < |EventNames| ==> Fields(s)[k] <= Fields(calibration)[k] {
      FieldsInjective(Subtract(s, calibration), Zero);
    }
  }

  // ---------------------------------------------------------------------------
  // Cache-tier summary

  /** `CachegrindSummary`: hits served by L1, by the last-level cache, and by RAM. */
  datatype Summary = Summary(l1Hits: uint64, l3Hits: uint64, ramHits: uint64)

  /** Accesses that missed the last-level cache (`ram_accesses`, unbounded). */
  function RamAccessCount(s: Stats): nat {
    s.instructionCacheMisses + s.dataCacheReadMisses + s.dataCacheWriteMisses
  }

  /** Accesses that missed L1. */
  function L1MissCount(s: Stats): nat {
    s.instructionL1Misses + s.dataL1ReadMisses + s.dataL1WriteMisses
  }

  /** All memory references. */
  function ReferenceCount(s: Stats): nat {
    s.instructionReads + s.dataReads + s.dataWrites
  }

  /** The inputs on which `summarize` neither underflows nor overflows `u64`. */
  predicate SummaryDefined(s: Stats) {
    RamAccessCount(s) <= L1MissCount(s) <= ReferenceCount(s) < U64_LIMIT
  }

  /** `CachegrindStats::summarize`. The three tiers partition the memory
      references, and the last two partition the L1 misses. */
  function Summarize(s: Stats): (m: Summary)
    requires SummaryDefined(s)
    ensures m.ramHits == RamAccessCount(s)
    ensures m.l3Hits + m.ramHits == L1MissCount(s)
    ensures m.l1Hits + m.l3Hits + m.ramHits == ReferenceCount(s)
  {
    var ramHits := RamAccessCount(s);
    var l3Accesses := L1MissCount(s);
    var l3Hits := l3Accesses - ramHits;
    var totalMemoryRw := ReferenceCount(s);
    var l1Hits := totalMemoryRw - (ramHits + l3Hits);
    Summary(l1Hits, l3Hits, ramHits)
  }

  /** `u64::checked_add`, the meaning of `+` in a debug build. */
  function CheckedAdd(x: uint64, y: uint64): (r: Option<uint64>)
    ensures r.Some? <==> x + y < U64_LIMIT
    ensures r.Some? ==> r.value == x + y
  {
    if x + y < U64_LIMIT then Some(x + y) else None
  }

  /** `u64::checked_sub`, the meaning of `-` in a debug build. */
  function CheckedSub(x: uint64, y: uint64): (r: Option<uint64>)
    ensures r.Some? <==> y <= x
    ensures r.Some? ==> r.value + y == x
  {
    if y <= x then Some(x - y) else None
  }

  /** `summarize` evaluated step by step with overflow-checked `u64`
      arithmetic: `None` is the arithmetic panic. It succeeds exactly on
      `SummaryDefined` inputs and then agrees with `Summarize`. */
  function SummarizeChecked(s: Stats): (r: Option<Summary>)
    ensures r.Some? <==> SummaryDefined(s)
    ensures r.Some? ==> r.value == Summarize(s)
  {
    var ram1 :- CheckedAdd(s.instructionCacheMisses, s.dataCacheReadMisses);
    var ramHits :- CheckedAdd(ram1, s.dataCacheWriteMisses);
    var l3Part :- CheckedAdd(s.instructionL1Misses, s.dataL1ReadMisses);
    var l3Accesses :- CheckedAdd(l3Part, s.dataL1WriteMisses);
    var l3Hits :- CheckedSub(l3Accesses, ramHits);
    var totalPart :- CheckedAdd(s.instructionReads, s.dataReads);
    var totalMemoryRw :- CheckedAdd(totalPart, s.dataWrites);
    // `ram_hits + l3_hits` equals `l3_accesses`, so it cannot overflow.
    var missed := ramHits + l3Hits;
    var l1Hits :- CheckedSub(totalMemoryRw, missed);
    Some(Summary(l1Hits, l3Hits, ramHits))
  }

  /** Calibration subtraction clamps each field on its own, so it can turn a
      record `summarize` accepts into one it rejects. */
  lemma SubtractBreaksSummaryDefined(a: Stats, c: Stats)
    requires a == Stats(100, 10, 5, 0, 0, 0, 0, 0, 0)
    requires c == Stats(50, 8, 0, 0, 0, 0, 0, 0, 0)
    ensures SummaryDefined(a)
    ensures SummaryDefined(c)
    ensures !SummaryDefined(Subtract(a, c))
  {
    var r := Subtract(a, c);
    assert r.instructionL1Misses == 2 && r.instructionCacheMisses == 5;
  }

  // ---------------------------------------------------------------------------
  // Cycle estimate

  /** The summaries whose weighted cost fits in a `u64`. */
  predicate CyclesDefined(m: Summary) {
    m.l1Hits + 5 * m.l3Hits + 35 * m.ramHits < U64_LIMIT
  }

  /** `CachegrindSummary::cycles`: L1 hits weigh 1, last-level hits 5, RAM hits 35. */
  function Cycles(m: Summary): (c: uint64)
    requires CyclesDefined(m)
    ensures m.l1Hits + m.l3Hits + m.ramHits <= c <= 35 * (m.l1Hits + m.l3Hits + m.ramHits)
  {
    m.l1Hits + 5 * m.l3Hits + 35 * m.ramHits
  }

  /** More hits in any tier never lower the estimate, and one more hit costs
      exactly the tier's weight. */
  lemma CyclesMonotone(m: Summary, n: Summary)
    requires m.l1Hits <= n.l1Hits && m.l3Hits <= n.l3Hits && m.ramHits <= n.ramHits
    requires CyclesDefined(n)
    ensures CyclesDefined(m) && Cycles(m) <= Cycles(n)
    ensures n.l1Hits == m.l1Hits + 1 && n.l3Hits == m.l3Hits && n.ramHits == m.ramHits
            ==> Cycles(n) == Cycles(m) + 1
    ensures n.l1Hits == m.l1Hits && n.l3Hits == m.l3Hits + 1 && n.ramHits == m.ramHits
            ==> Cycles(n) == Cycles(m) + 5
    ensures n.l1Hits == m.l1Hits && n.l3Hits == m.l3Hits && n.ramHits == m.ramHits + 1
            ==> Cycles(n) == Cycles(m) + 35
  {
  }

  /** The estimate in terms of the raw counters. */
  lemma CyclesOfStats(s: Stats)
    requires SummaryDefined(s)
    requires ReferenceCount(s) + 4 * L1MissCount(s) + 30 * RamAccessCount(s) < U64_LIMIT
    ensures var m := Summarize(s);
            CyclesDefined(m) && Cycles(m) == ReferenceCount(s) + 4 * L1MissCount(s) + 30 * RamAccessCount(s)
  {
  }

  /** A worked example: the counters below summarise to (1755, 41, 4) and
      cost 2100 cycles, with or without an all-zero calibration. */
  lemma WorkedExample()
    ensures var s := Stats(1000, 10, 1, 500, 20, 2, 300, 15, 1);
            SummaryDefined(Subtract(s, Zero))
            && Summarize(Subtract(s, Zero)) == Summary(1755, 41, 4)
            && Cycles(Summary(1755, 41, 4)) == 2100
  {
    var s := Stats(1000, 10, 1, 500, 20, 2, 300, 15, 1);
    SubtractZeroIsIdentity(s);
  }
}
