/**
 hub/store/tiering.go: the two aggregate definitions.  `IsRollup` says what a table of
 summaries is of the rows it summarises; the daily tier is computed from hourly summaries
 alone, because raw rows are dropped first, and still is the rollup of the raw rows by day.
 */
module Tiering {
  import opened Protocol
  import opened Ranking

  type Row = ResultContent

  const HOUR := 3_600_000
  const DAY := 86_400_000

  /** time_bucket on integers: the last multiple of the width not after t. */
  function TimeBucket(width: int, t: int): int
    requires width > 0
  {
    t / width * width
  }

  datatype Key = Key(bucket: int, check: string, probe: string)

  function HourKey(r: Row): Key {
    Key(TimeBucket(HOUR, r.TimestampMS), r.CheckID, r.ProbeID)
  }

  function DayKey(r: Row): Key {
    Key(TimeBucket(DAY, r.TimestampMS), r.CheckID, r.ProbeID)
  }

  function DayOf(k: Key): Key {
    k.(bucket := TimeBucket(DAY, k.bucket))
  }

  /** Only latency that was measured counts: a down check reports how long it waited. */
  predicate Measured(r: Row) {
    r.Status != Down && r.RTTMillis > 0.0
  }

  /** One result per (probe, check, time), as the results table's key demands. */
  ghost predicate Unique(R: seq<Row>) {
    forall r, q ::
      r in R && q in R && r.ProbeID == q.ProbeID && r.CheckID == q.CheckID && r.TimestampMS == q.TimestampMS ==> r == q
  }

  // ---- summaries ----

  /** The sum of a weight over one group; a count is the sum of its indicator. */
  function Total(R: seq<Row>, group: Row -> Key, k: Key, w: Row -> real): real {
    if R == [] then 0.0
    else
      var r := R[|R| - 1];
      Total(R[..|R| - 1], group, k, w) + if group(r) == k then w(r) else 0.0
  }

  function One(r: Row): real { 1.0 }

  function If(b: bool): real { if b then 1.0 else 0.0 }

  function UpCount(r: Row): real { If(r.Status == Up) }

  function DownCount(r: Row): real { If(r.Status == Down) }

  function DegradedCount(r: Row): real { If(r.Status == Degraded) }

  function MeasuredCount(r: Row): real { If(Measured(r)) }

  function Latency(r: Row): real { if Measured(r) then r.RTTMillis else 0.0 }

  datatype Latest = Latest(status: Status, checkType: string, target: string)

  function LatestOf(r: Row): Latest {
    Latest(r.Status, r.CheckType, r.Target)
  }

  datatype Summary = Summary(
    key: Key,
    samples: int,
    up: int,
    down: int,
    degraded: int,
    rttSamples: int,
    rttAvg: Option<real>,
    rttMin: Option<real>,
    rttMax: Option<real>,
    last: Latest)

  /** avg: null when nothing was measured. */
  function Average(sum: real, n: real): Option<real> {
    if n == 0.0 then None else Some(sum / n)
  }

  ghost predicate InGroup(R: seq<Row>, group: Row -> Key, k: Key, r: Row) {
    r in R && group(r) == k
  }

  /** m is the least measured latency of the group, or none was measured. */
  ghost predicate IsLeast(m: Option<real>, R: seq<Row>, group: Row -> Key, k: Key) {
    && (m.Some? ==> exists r :: InGroup(R, group, k, r) && Measured(r) && r.RTTMillis == m.value)
    && (forall r :: InGroup(R, group, k, r) && Measured(r) ==> m.Some? && m.value <= r.RTTMillis)
  }

  ghost predicate IsGreatest(m: Option<real>, R: seq<Row>, group: Row -> Key, k: Key) {
    && (m.Some? ==> exists r :: InGroup(R, group, k, r) && Measured(r) && r.RTTMillis == m.value)
    && (forall r :: InGroup(R, group, k, r) && Measured(r) ==> m.Some? && r.RTTMillis <= m.value)
  }

  /** The columns of a row of the group that none of the group is later than. */
  ghost predicate IsLatest(l: Latest, R: seq<Row>, group: Row -> Key, k: Key) {
    exists r ::
      && InGroup(R, group, k, r)
      && LatestOf(r) == l
      && forall q :: InGroup(R, group, k, q) ==> q.TimestampMS <= r.TimestampMS
  }

  ghost predicate HasTotals(h: Summary, R: seq<Row>, group: Row -> Key) {
    && h.samples as real == Total(R, group, h.key, One)
    && h.up as real == Total(R, group, h.key, UpCount)
    && h.down as real == Total(R, group, h.key, DownCount)
    && h.degraded as real == Total(R, group, h.key, DegradedCount)
    && h.rttSamples as real == Total(R, group, h.key, MeasuredCount)
    && h.rttAvg == Average(Total(R, group, h.key, Latency), Total(R, group, h.key, MeasuredCount))
  }

  ghost predicate Summarises(h: Summary, R: seq<Row>, group: Row -> Key) {
    && HasTotals(h, R, group)
    && IsLeast(h.rttMin, R, group, h.key)
    && IsGreatest(h.rttMax, R, group, h.key)
    && IsLatest(h.last, R, group, h.key)
  }

  ghost predicate KeyedOnce(H: seq<Summary>) {
    forall i, j :: 0 <= i < j < |H| ==> H[i].key != H[j].key
  }

  ghost predicate HasKey(H: seq<Summary>, k: Key) {
    exists h :: h in H && h.key == k
  }

  /** H is the group-by of R: one summary for each group that has rows, in any order. */
  ghost predicate IsRollup(H: seq<Summary>, R: seq<Row>, group: Row -> Key) {
    && KeyedOnce(H)
    && (forall h :: h in H ==> Summarises(h, R, group))
    && (forall r :: r in R ==> HasKey(H, group(r)))
  }

  // ---- the daily SELECT, on hourly summaries ----

  function SumOver(H: seq<Summary>, d: Key, column: Summary -> real): real {
    if H == [] then 0.0
    else
      var h := H[|H| - 1];
      SumOver(H[..|H| - 1], d, column) + if DayOf(h.key) == d then column(h) else 0.0
  }

  function Samples(h: Summary): real { h.samples as real }

  function Ups(h: Summary): real { h.up as real }

  function Downs(h: Summary): real { h.down as real }

  function Degradeds(h: Summary): real { h.degraded as real }

  function RttSamples(h: Summary): real { h.rttSamples as real }

  function Product(h: Summary): Option<real> {
    if h.rttAvg.None? then None else Some(h.rttAvg.value * h.rttSamples as real)
  }

  /** SQL's sum: nulls are skipped, and the sum of nothing is null. */
  function AddNull(a: Option<real>, b: Option<real>): Option<real> {
    if a.None? then b else if b.None? then a else Some(a.value + b.value)
  }

  function SumOfProducts(H: seq<Summary>, d: Key): Option<real> {
    if H == [] then None
    else
      var h := H[|H| - 1];
      AddNull(SumOfProducts(H[..|H| - 1], d), if DayOf(h.key) == d then Product(h) else None)
  }

  /** The hourly averages weighted by their measured counts; null when nothing was measured all day. */
  function WeightedAverage(H: seq<Summary>, d: Key): Option<real> {
    var n, p := SumOver(H, d, RttSamples), SumOfProducts(H, d);
    if p.None? || n == 0.0 then None else Some(p.value / n)
  }

  ghost predicate InDay(H: seq<Summary>, d: Key, h: Summary) {
    h in H && DayOf(h.key) == d
  }

  ghost predicate IsMinOf(m: Option<real>, H: seq<Summary>, d: Key) {
    && (m.Some? ==> exists h :: InDay(H, d, h) && h.rttMin == m)
    && (forall h :: InDay(H, d, h) && h.rttMin.Some? ==> m.Some? && m.value <= h.rttMin.value)
  }

  ghost predicate IsMaxOf(m: Option<real>, H: seq<Summary>, d: Key) {
    && (m.Some? ==> exists h :: InDay(H, d, h) && h.rttMax == m)
    && (forall h :: InDay(H, d, h) && h.rttMax.Some? ==> m.Some? && h.rttMax.value <= m.value)
  }

  ghost predicate IsLastOf(l: Latest, H: seq<Summary>, d: Key) {
    exists h ::
      && InDay(H, d, h)
      && h.last == l
      && forall g :: InDay(H, d, g) ==> g.key.bucket <= h.key.bucket
  }

  ghost predicate FoldsDay(s: Summary, H: seq<Summary>) {
    && s.samples as real == SumOver(H, s.key, Samples)
    && s.up as real == SumOver(H, s.key, Ups)
    && s.down as real == SumOver(H, s.key, Downs)
    && s.degraded as real == SumOver(H, s.key, Degradeds)
    && s.rttSamples as real == SumOver(H, s.key, RttSamples)
    && s.rttAvg == WeightedAverage(H, s.key)
    && IsMinOf(s.rttMin, H, s.key)
    && IsMaxOf(s.rttMax, H, s.key)
    && IsLastOf(s.last, H, s.key)
  }

  /** D is what results_daily selects from the hourly summaries H. */
  ghost predicate IsDailySelect(D: seq<Summary>, H: seq<Summary>) {
    && KeyedOnce(D)
    && (forall s :: s in D ==> FoldsDay(s, H))
    && (forall h :: h in H ==> HasKey(D, DayOf(h.key)))
  }

  // ---- totals: every row is in exactly one hour of its day ----

  lemma HourWithinDay(r: Row)
    ensures DayOf(HourKey(r)) == DayKey(r)
  {
    var t := r.TimestampMS;
    assert DAY == 24 * HOUR;
    var h := t / HOUR;
    assert h / 24 == t / DAY;
    assert h * HOUR / DAY == h / 24;
  }

  /** The hours of day d. */
  function HoursOf(H: seq<Summary>, d: Key): seq<Key> {
    if H == [] then []
    else
      var h := H[|H| - 1];
      HoursOf(H[..|H| - 1], d) + if DayOf(h.key) == d then [h.key] else []
  }

  lemma {:induction false} HoursOfHas(H: seq<Summary>, d: Key)
    requires KeyedOnce(H)
    ensures Distinct(HoursOf(H, d))
    ensures forall k :: k in HoursOf(H, d) <==> HasKey(H, k) && DayOf(k) == d
  {
    if H != [] {
      var init, h := H[..|H| - 1], H[|H| - 1];
      HoursOfHas(init, d);
      assert H == init + [h];
      assert !HasKey(init, h.key);
      forall k
        ensures HasKey(H, k) <==> HasKey(init, k) || k == h.key
      {
        assert h in H;
      }
    }
  }

  function TotalAcross(R: seq<Row>, group: Row -> Key, ks: seq<Key>, w: Row -> real): real {
    if ks == [] then 0.0
    else TotalAcross(R, group, ks[..|ks| - 1], w) + Total(R, group, ks[|ks| - 1], w)
  }

  lemma {:induction false} NothingAcross(group: Row -> Key, ks: seq<Key>, w: Row -> real)
    ensures TotalAcross([], group, ks, w) == 0.0
  {
    if ks != [] {
      NothingAcross(group, ks[..|ks| - 1], w);
    }
  }

  /** One more row adds its weight once, if its group is among ks. */
  lemma {:induction false} OneRowAcross(R: seq<Row>, group: Row -> Key, ks: seq<Key>, w: Row -> real)
    requires R != [] && Distinct(ks)
    ensures TotalAcross(R, group, ks, w) ==
      TotalAcross(R[..|R| - 1], group, ks, w) + if group(R[|R| - 1]) in ks then w(R[|R| - 1]) else 0.0
  {
    if ks != [] {
      var init, last := ks[..|ks| - 1], ks[|ks| - 1];
      OneRowAcross(R, group, init, w);
      assert ks == init + [last];
      assert last !in init;
    }
  }

  /** Groups that split the rows of another group add up to it. */
  lemma {:induction false} PartsAddUp(R: seq<Row>, group: Row -> Key, ks: seq<Key>, into: Row -> Key, d: Key, w: Row -> real)
    requires Distinct(ks)
    requires forall r :: r in R ==> (group(r) in ks <==> into(r) == d)
    ensures TotalAcross(R, group, ks, w) == Total(R, into, d, w)
  {
    if R == [] {
      NothingAcross(group, ks, w);
    } else {
      PartsAddUp(R[..|R| - 1], group, ks, into, d, w);
      OneRowAcross(R, group, ks, w);
    }
  }

  lemma HoursStep(R: seq<Row>, H: seq<Summary>, d: Key, w: Row -> real)
    requires H != []
    ensures var init, h := H[..|H| - 1], H[|H| - 1];
      TotalAcross(R, HourKey, HoursOf(H, d), w) ==
        TotalAcross(R, HourKey, HoursOf(init, d), w) + if DayOf(h.key) == d then Total(R, HourKey, h.key, w) else 0.0
  {
    var ks, h := HoursOf(H[..|H| - 1], d), H[|H| - 1];
    if DayOf(h.key) == d {
      assert HoursOf(H, d) == ks + [h.key];
      assert (ks + [h.key])[..|ks|] == ks;
    } else {
      assert HoursOf(H, d) == ks + [];
      assert ks + [] == ks;
    }
  }

  lemma {:induction false} SumOverIsAcross(
    R: seq<Row>, H: seq<Summary>, d: Key, column: Summary -> real, w: Row -> real)
    requires forall h :: h in H ==> column(h) == Total(R, HourKey, h.key, w)
    ensures SumOver(H, d, column) == TotalAcross(R, HourKey, HoursOf(H, d), w)
  {
    if H != [] {
      SumOverIsAcross(R, H[..|H| - 1], d, column, w);
      HoursStep(R, H, d, w);
    }
  }

  /** Summing a column over the hours of a day is summing its weight over the rows of the day. */
  lemma ColumnAddsUp(R: seq<Row>, H: seq<Summary>, d: Key, column: Summary -> real, w: Row -> real)
    requires KeyedOnce(H)
    requires forall r :: r in R ==> HasKey(H, HourKey(r))
    requires forall h :: h in H ==> column(h) == Total(R, HourKey, h.key, w)
    ensures SumOver(H, d, column) == Total(R, DayKey, d, w)
  {
    HoursOfHas(H, d);
    forall r | r in R
      ensures HourKey(r) in HoursOf(H, d) <==> DayKey(r) == d
    {
      HourWithinDay(r);
    }
    PartsAddUp(R, HourKey, HoursOf(H, d), DayKey, d, w);
    SumOverIsAcross(R, H, d, column, w);
  }

  // ---- the average ----

  lemma {:induction false} UnmeasuredIsZero(R: seq<Row>, group: Row -> Key, k: Key)
    ensures Total(R, group, k, MeasuredCount) >= 0.0
    ensures Total(R, group, k, MeasuredCount) == 0.0 ==> Total(R, group, k, Latency) == 0.0
  {
    if R != [] {
      UnmeasuredIsZero(R[..|R| - 1], group, k);
    }
  }

  /** The latency sum an average stands for: the average times the measured count. */
  function LatencySum(h: Summary): real {
    if Product(h).None? then 0.0 else Product(h).value
  }

  lemma AverageTimesCount(h: Summary, R: seq<Row>)
    requires HasTotals(h, R, HourKey)
    ensures LatencySum(h) == Total(R, HourKey, h.key, Latency)
    ensures Product(h).None? <==> h.rttSamples == 0
    ensures h.rttSamples >= 0
  {
    UnmeasuredIsZero(R, HourKey, h.key);
  }

  lemma {:induction false} NullSkippingSum(H: seq<Summary>, d: Key)
    requires forall h :: h in H ==> h.rttSamples >= 0 && (Product(h).None? <==> h.rttSamples == 0)
    ensures SumOver(H, d, RttSamples) >= 0.0
    ensures SumOfProducts(H, d) == if SumOver(H, d, RttSamples) == 0.0 then None else Some(SumOver(H, d, LatencySum))
    ensures SumOver(H, d, RttSamples) == 0.0 ==> SumOver(H, d, LatencySum) == 0.0
  {
    if H != [] {
      NullSkippingSum(H[..|H| - 1], d);
    }
  }

  /** Every sum of the daily SELECT is that of the raw rows of the day. */
  ghost predicate SumsAgree(R: seq<Row>, H: seq<Summary>, d: Key) {
    && SumOver(H, d, Samples) == Total(R, DayKey, d, One)
    && SumOver(H, d, Ups) == Total(R, DayKey, d, UpCount)
    && SumOver(H, d, Downs) == Total(R, DayKey, d, DownCount)
    && SumOver(H, d, Degradeds) == Total(R, DayKey, d, DegradedCount)
    && SumOver(H, d, RttSamples) == Total(R, DayKey, d, MeasuredCount)
    && WeightedAverage(H, d) == Average(Total(R, DayKey, d, Latency), Total(R, DayKey, d, MeasuredCount))
  }

  lemma TotalsOfDay(R: seq<Row>, H: seq<Summary>, d: Key)
    requires IsRollup(H, R, HourKey)
    ensures SumsAgree(R, H, d)
  {
    forall h | h in H
      ensures HasTotals(h, R, HourKey) && LatencySum(h) == Total(R, HourKey, h.key, Latency)
      ensures h.rttSamples >= 0 && (Product(h).None? <==> h.rttSamples == 0)
    {
      assert Summarises(h, R, HourKey);
      AverageTimesCount(h, R);
    }
    ColumnAddsUp(R, H, d, Samples, One);
    ColumnAddsUp(R, H, d, Ups, UpCount);
    ColumnAddsUp(R, H, d, Downs, DownCount);
    ColumnAddsUp(R, H, d, Degradeds, DegradedCount);
    ColumnAddsUp(R, H, d, RttSamples, MeasuredCount);
    ColumnAddsUp(R, H, d, LatencySum, Latency);
    NullSkippingSum(H, d);
  }

  // ---- least, greatest and latest ----

  lemma RowHasHour(R: seq<Row>, H: seq<Summary>, r: Row, d: Key) returns (h: Summary)
    requires IsRollup(H, R, HourKey) && InGroup(R, DayKey, d, r)
    ensures InDay(H, d, h) && InGroup(R, HourKey, h.key, r) && Summarises(h, R, HourKey)
  {
    HourWithinDay(r);
    h :| h in H && h.key == HourKey(r);
  }

  lemma HourRowInDay(R: seq<Row>, h: Summary, r: Row)
    requires InGroup(R, HourKey, h.key, r)
    ensures InGroup(R, DayKey, DayOf(h.key), r)
  {
    HourWithinDay(r);
  }

  lemma HourOfDayHasRow(R: seq<Row>, H: seq<Summary>, d: Key, h: Summary) returns (r: Row)
    requires IsRollup(H, R, HourKey) && InDay(H, d, h)
    ensures InGroup(R, HourKey, h.key, r) && InGroup(R, DayKey, d, r) && LatestOf(r) == h.last
    ensures forall q :: InGroup(R, HourKey, h.key, q) ==> q.TimestampMS <= r.TimestampMS
  {
    assert Summarises(h, R, HourKey);
    r :| InGroup(R, HourKey, h.key, r) && LatestOf(r) == h.last
      && forall q :: InGroup(R, HourKey, h.key, q) ==> q.TimestampMS <= r.TimestampMS;
    HourRowInDay(R, h, r);
  }

  lemma MinHasRow(R: seq<Row>, H: seq<Summary>, d: Key, h: Summary) returns (r: Row)
    requires IsRollup(H, R, HourKey) && InDay(H, d, h) && h.rttMin.Some?
    ensures InGroup(R, DayKey, d, r) && Measured(r) && r.RTTMillis == h.rttMin.value
  {
    assert Summarises(h, R, HourKey);
    r :| InGroup(R, HourKey, h.key, r) && Measured(r) && r.RTTMillis == h.rttMin.value;
    HourRowInDay(R, h, r);
  }

  lemma MinIsLeast(m: Option<real>, R: seq<Row>, H: seq<Summary>, d: Key)
    requires IsRollup(H, R, HourKey) && IsMinOf(m, H, d)
    ensures IsLeast(m, R, DayKey, d)
  {
    if m.Some? {
      var h :| InDay(H, d, h) && h.rttMin == m;
      var r := MinHasRow(R, H, d, h);
    }
    forall r | InGroup(R, DayKey, d, r) && Measured(r)
      ensures m.Some? && m.value <= r.RTTMillis
    {
      var h := RowHasHour(R, H, r, d);
    }
  }

  lemma HourOfLeast(m: Option<real>, R: seq<Row>, H: seq<Summary>, d: Key, r: Row) returns (h: Summary)
    requires IsRollup(H, R, HourKey) && IsLeast(m, R, DayKey, d)
    requires InGroup(R, DayKey, d, r) && Measured(r) && m == Some(r.RTTMillis)
    ensures InDay(H, d, h) && h.rttMin == m
  {
    h := RowHasHour(R, H, r, d);
    assert IsLeast(h.rttMin, R, HourKey, h.key) && h.rttMin.Some?;
    var q := MinHasRow(R, H, d, h);
  }

  lemma LeastIsMin(m: Option<real>, R: seq<Row>, H: seq<Summary>, d: Key)
    requires IsRollup(H, R, HourKey) && IsLeast(m, R, DayKey, d)
    ensures IsMinOf(m, H, d)
  {
    forall h | InDay(H, d, h) && h.rttMin.Some?
      ensures m.Some? && m.value <= h.rttMin.value
    {
      var r := MinHasRow(R, H, d, h);
    }
    if m.Some? {
      var r :| InGroup(R, DayKey, d, r) && Measured(r) && r.RTTMillis == m.value;
      var h := HourOfLeast(m, R, H, d, r);
    }
  }

  lemma MaxHasRow(R: seq<Row>, H: seq<Summary>, d: Key, h: Summary) returns (r: Row)
    requires IsRollup(H, R, HourKey) && InDay(H, d, h) && h.rttMax.Some?
    ensures InGroup(R, DayKey, d, r) && Measured(r) && r.RTTMillis == h.rttMax.value
  {
    assert Summarises(h, R, HourKey);
    r :| InGroup(R, HourKey, h.key, r) && Measured(r) && r.RTTMillis == h.rttMax.value;
    HourRowInDay(R, h, r);
  }

  lemma MaxIsGreatest(m: Option<real>, R: seq<Row>, H: seq<Summary>, d: Key)
    requires IsRollup(H, R, HourKey) && IsMaxOf(m, H, d)
    ensures IsGreatest(m, R, DayKey, d)
  {
    if m.Some? {
      var h :| InDay(H, d, h) && h.rttMax == m;
      var r := MaxHasRow(R, H, d, h);
    }
    forall r | InGroup(R, DayKey, d, r) && Measured(r)
      ensures m.Some? && r.RTTMillis <= m.value
    {
      var h := RowHasHour(R, H, r, d);
    }
  }

  lemma HourOfGreatest(m: Option<real>, R: seq<Row>, H: seq<Summary>, d: Key, r: Row) returns (h: Summary)
    requires IsRollup(H, R, HourKey) && IsGreatest(m, R, DayKey, d)
    requires InGroup(R, DayKey, d, r) && Measured(r) && m == Some(r.RTTMillis)
    ensures InDay(H, d, h) && h.rttMax == m
  {
    h := RowHasHour(R, H, r, d);
    assert IsGreatest(h.rttMax, R, HourKey, h.key) && h.rttMax.Some?;
    var q := MaxHasRow(R, H, d, h);
  }

  lemma GreatestIsMax(m: Option<real>, R: seq<Row>, H: seq<Summary>, d: Key)
    requires IsRollup(H, R, HourKey) && IsGreatest(m, R, DayKey, d)
    ensures IsMaxOf(m, H, d)
  {
    forall h | InDay(H, d, h) && h.rttMax.Some?
      ensures m.Some? && h.rttMax.value <= m.value
    {
      var r := MaxHasRow(R, H, d, h);
    }
    if m.Some? {
      var r :| InGroup(R, DayKey, d, r) && Measured(r) && r.RTTMillis == m.value;
      var h := HourOfGreatest(m, R, H, d, r);
    }
  }

  /** A row of a later hour is later. */
  lemma LaterHour(r: Row, q: Row)
    requires TimeBucket(HOUR, q.TimestampMS) < TimeBucket(HOUR, r.TimestampMS)
    ensures q.TimestampMS < r.TimestampMS
  {
  }

  lemma LastIsLatest(l: Latest, R: seq<Row>, H: seq<Summary>, d: Key)
    requires IsRollup(H, R, HourKey) && IsLastOf(l, H, d)
    ensures IsLatest(l, R, DayKey, d)
  {
    var h :| InDay(H, d, h) && h.last == l && forall g :: InDay(H, d, g) ==> g.key.bucket <= h.key.bucket;
    var r := HourOfDayHasRow(R, H, d, h);
    forall q | InGroup(R, DayKey, d, q)
      ensures q.TimestampMS <= r.TimestampMS
    {
      var g := RowHasHour(R, H, q, d);
      if g.key.bucket < h.key.bucket {
        LaterHour(r, q);
      }
    }
  }

  lemma LatestIsLast(l: Latest, R: seq<Row>, H: seq<Summary>, d: Key)
    requires IsRollup(H, R, HourKey) && Unique(R) && IsLatest(l, R, DayKey, d)
    ensures IsLastOf(l, H, d)
  {
    var r :| InGroup(R, DayKey, d, r) && LatestOf(r) == l
      && forall q :: InGroup(R, DayKey, d, q) ==> q.TimestampMS <= r.TimestampMS;
    var h := RowHasHour(R, H, r, d);
    var p := HourOfDayHasRow(R, H, d, h);
    assert p == r;
    forall g | InDay(H, d, g)
      ensures g.key.bucket <= h.key.bucket
    {
      var q := HourOfDayHasRow(R, H, d, g);
      if h.key.bucket < g.key.bucket {
        LaterHour(q, r);
      }
    }
  }

  // ---- the theorem ----

  /** A daily row is what the SELECT folds from the hours exactly when it summarises the raw rows of its day. */
  lemma FoldIsSummary(R: seq<Row>, H: seq<Summary>, s: Summary)
    requires IsRollup(H, R, HourKey) && Unique(R)
    ensures FoldsDay(s, H) <==> Summarises(s, R, DayKey)
  {
    TotalsOfDay(R, H, s.key);
    if FoldsDay(s, H) {
      MinIsLeast(s.rttMin, R, H, s.key);
      MaxIsGreatest(s.rttMax, R, H, s.key);
      LastIsLatest(s.last, R, H, s.key);
    }
    if Summarises(s, R, DayKey) {
      LeastIsMin(s.rttMin, R, H, s.key);
      GreatestIsMax(s.rttMax, R, H, s.key);
      LatestIsLast(s.last, R, H, s.key);
    }
  }

  /** The days of the hours are the days of the rows. */
  lemma SameDays(R: seq<Row>, H: seq<Summary>, D: seq<Summary>)
    requires IsRollup(H, R, HourKey)
    ensures (forall h :: h in H ==> HasKey(D, DayOf(h.key))) <==> (forall r :: r in R ==> HasKey(D, DayKey(r)))
  {
    if forall r :: r in R ==> HasKey(D, DayKey(r)) {
      forall h | h in H
        ensures HasKey(D, DayOf(h.key))
      {
        var r := HourOfDayHasRow(R, H, DayOf(h.key), h);
      }
    }
    if forall h :: h in H ==> HasKey(D, DayOf(h.key)) {
      forall r | r in R
        ensures HasKey(D, DayKey(r))
      {
        var h := RowHasHour(R, H, r, DayKey(r));
      }
    }
  }

  lemma SelectIsRollup(R: seq<Row>, H: seq<Summary>, D: seq<Summary>)
    requires IsRollup(H, R, HourKey) && Unique(R) && IsDailySelect(D, H)
    ensures IsRollup(D, R, DayKey)
  {
    forall s | s in D
      ensures Summarises(s, R, DayKey)
    {
      FoldIsSummary(R, H, s);
    }
    SameDays(R, H, D);
  }

  lemma RollupIsSelect(R: seq<Row>, H: seq<Summary>, D: seq<Summary>)
    requires IsRollup(H, R, HourKey) && Unique(R) && IsRollup(D, R, DayKey)
    ensures IsDailySelect(D, H)
  {
    forall s | s in D
      ensures FoldsDay(s, H)
    {
      FoldIsSummary(R, H, s);
    }
    SameDays(R, H, D);
  }

  /** Folding hourly summaries into days loses nothing and adds nothing: the daily tier is the rollup of the raw rows by day. */
  lemma DailyFromHourlyIsDirect(R: seq<Row>, H: seq<Summary>, D: seq<Summary>)
    requires IsRollup(H, R, HourKey) && Unique(R)
    ensures IsDailySelect(D, H) <==> IsRollup(D, R, DayKey)
  {
    if IsDailySelect(D, H) {
      SelectIsRollup(R, H, D);
    }
    if IsRollup(D, R, DayKey) {
      RollupIsSelect(R, H, D);
    }
  }

  // ---- the columns, by counting rows ----

  ghost function RowsOf(R: seq<Row>, group: Row -> Key, k: Key): set<nat> {
    set i: nat | i < |R| && group(R[i]) == k
  }

  ghost function RowsWith(R: seq<Row>, group: Row -> Key, k: Key, status: Status): set<nat> {
    set i: nat | i < |R| && group(R[i]) == k && R[i].Status == status
  }

  /** A down check's latency is how long it waited, and none is no measurement. */
  ghost function RowsMeasured(R: seq<Row>, group: Row -> Key, k: Key): set<nat> {
    set i: nat | i < |R| && group(R[i]) == k && R[i].Status != Down && R[i].RTTMillis > 0.0
  }

  ghost function Selected(R: seq<Row>, group: Row -> Key, k: Key, p: Row -> bool): set<nat> {
    set i: nat | i < |R| && group(R[i]) == k && p(R[i])
  }

  lemma {:induction false} CountIsTotal(R: seq<Row>, group: Row -> Key, k: Key, p: Row -> bool, w: Row -> real)
    requires forall r :: w(r) == if p(r) then 1.0 else 0.0
    ensures |Selected(R, group, k, p)| as real == Total(R, group, k, w)
  {
    if R == [] {
      assert Selected(R, group, k, p) == {};
    } else {
      var n := |R| - 1;
      CountIsTotal(R[..n], group, k, p, w);
      OneMoreSelected(R, group, k, p, n);
    }
  }

  lemma OneMoreSelected(R: seq<Row>, group: Row -> Key, k: Key, p: Row -> bool, n: nat)
    requires |R| == n + 1
    ensures |Selected(R, group, k, p)| == |Selected(R[..n], group, k, p)| + if group(R[n]) == k && p(R[n]) then 1 else 0
  {
    var before := Selected(R[..n], group, k, p);
    assert Selected(R, group, k, p) == if group(R[n]) == k && p(R[n]) then before + {n} else before;
  }

  lemma StatusIsTotal(R: seq<Row>, group: Row -> Key, k: Key, status: Status, w: Row -> real)
    requires forall r :: w(r) == if r.Status == status then 1.0 else 0.0
    ensures |RowsWith(R, group, k, status)| as real == Total(R, group, k, w)
  {
    var p := (r: Row) => r.Status == status;
    CountIsTotal(R, group, k, p, w);
    assert Selected(R, group, k, p) == RowsWith(R, group, k, status);
  }

  lemma MeasuredIsTotal(R: seq<Row>, group: Row -> Key, k: Key)
    ensures |RowsMeasured(R, group, k)| as real == Total(R, group, k, MeasuredCount)
    ensures |RowsOf(R, group, k)| as real == Total(R, group, k, One)
  {
    var p, q := (r: Row) => r.Status != Down && r.RTTMillis > 0.0, (r: Row) => true;
    CountIsTotal(R, group, k, p, MeasuredCount);
    CountIsTotal(R, group, k, q, One);
    assert Selected(R, group, k, p) == RowsMeasured(R, group, k);
    assert Selected(R, group, k, q) == RowsOf(R, group, k);
  }

  /** Each count of a summary is the number of rows of its group with that status, or with a latency that was measured. */
  lemma FieldsAreCounts(h: Summary, R: seq<Row>, group: Row -> Key)
    requires HasTotals(h, R, group)
    ensures h.samples == |RowsOf(R, group, h.key)|
    ensures h.up == |RowsWith(R, group, h.key, Up)|
    ensures h.down == |RowsWith(R, group, h.key, Down)|
    ensures h.degraded == |RowsWith(R, group, h.key, Degraded)|
    ensures h.rttSamples == |RowsMeasured(R, group, h.key)|
  {
    MeasuredIsTotal(R, group, h.key);
    StatusIsTotal(R, group, h.key, Up, UpCount);
    StatusIsTotal(R, group, h.key, Down, DownCount);
    StatusIsTotal(R, group, h.key, Degraded, DegradedCount);
  }

  ghost predicate KeepsIdentity(group: Row -> Key) {
    forall r :: group(r).check == r.CheckID && group(r).probe == r.ProbeID
  }

  /** A group has one summary only, so `IsRollup` leaves nothing open. */
  lemma SummaryIsDetermined(R: seq<Row>, group: Row -> Key, a: Summary, b: Summary)
    requires Unique(R) && KeepsIdentity(group)
    requires Summarises(a, R, group) && Summarises(b, R, group) && a.key == b.key
    ensures a == b
  {
    var k := a.key;
    var r :| InGroup(R, group, k, r) && LatestOf(r) == a.last
      && forall q :: InGroup(R, group, k, q) ==> q.TimestampMS <= r.TimestampMS;
    var q :| InGroup(R, group, k, q) && LatestOf(q) == b.last
      && forall p :: InGroup(R, group, k, p) ==> p.TimestampMS <= q.TimestampMS;
    assert r == q;
  }

  lemma RollupIsUnique(R: seq<Row>, group: Row -> Key, A: seq<Summary>, B: seq<Summary>)
    requires Unique(R) && KeepsIdentity(group) && IsRollup(A, R, group) && IsRollup(B, R, group)
    ensures Elements(A) == Elements(B)
  {
    RollupIncluded(R, group, A, B);
    RollupIncluded(R, group, B, A);
  }

  lemma RollupIncluded(R: seq<Row>, group: Row -> Key, A: seq<Summary>, B: seq<Summary>)
    requires Unique(R) && KeepsIdentity(group) && IsRollup(A, R, group) && IsRollup(B, R, group)
    ensures Elements(A) <= Elements(B)
  {
    forall a | a in A
      ensures a in B
    {
      assert Summarises(a, R, group);
      var r :| InGroup(R, group, a.key, r);
      var b :| b in B && b.key == a.key;
      SummaryIsDetermined(R, group, a, b);
    }
  }
}
