/**
 hub/store/store.go: `MemStore.HistoryRange`, the rollup a hub without a database serves.
 It is the same rollup as the SQL tiers when the range starts and ends on bucket bounds.
 */
module History {
  import opened Decimal
  import opened Ids
  import opened Protocol
  import opened Ranking
  import opened Sorting
  import opened Tiering
  import ResultStore

  const HOURLY_MAX_SPAN := 14 * DAY

  function Resolution(span: int): (string, int) {
    if span <= HOURLY_MAX_SPAN then ("hourly", HOUR) else ("daily", DAY)
  }

  /** Go's t / width * width: division truncates toward zero. */
  function Truncated(width: int, t: int): int
    requires width > 0
  {
    if t >= 0 then t / width * width else -((-t) / width * width)
  }

  lemma TruncatedFits(width: int, t: int)
    requires width > 0 && IsInt64(t)
    ensures IsInt64(Truncated(width, t))
  {
    if t >= 0 { Floor(width, t); } else { Floor(width, -t); }
  }

  lemma Floor(width: int, t: int)
    requires width > 0
    ensures TimeBucket(width, t) <= t < TimeBucket(width, t) + width
    ensures t >= 0 ==> 0 <= TimeBucket(width, t)
  {
    assert t == t / width * width + t % width;
  }

  function GroupBy(width: int): Row -> Key
    requires width > 0
  {
    (r: Row) => Key(Truncated(width, r.TimestampMS), r.CheckID, r.ProbeID)
  }

  function Window(all: seq<Row>, check: string, from: int, to: int): seq<Row> {
    if all == [] then []
    else
      var r := all[|all| - 1];
      Window(all[..|all| - 1], check, from, to) +
      if r.CheckID == check && from <= r.TimestampMS < to then [r] else []
  }

  lemma {:induction false} WindowHas(all: seq<Row>, check: string, from: int, to: int)
    ensures forall r :: r in Window(all, check, from, to) <==> r in all && r.CheckID == check && from <= r.TimestampMS < to
  {
    if all != [] {
      WindowHas(all[..|all| - 1], check, from, to);
      assert all == all[..|all| - 1] + [all[|all| - 1]];
    }
  }

  lemma WindowStep(all: seq<Row>, i: nat, check: string, from: int, to: int)
    requires i < |all|
    ensures var R, c := Window(all[..i], check, from, to), all[i];
      Window(all[..i + 1], check, from, to) == if c.CheckID == check && from <= c.TimestampMS < to then R + [c] else R
  {
    assert all[..i + 1][..i] == all[..i];
  }

  // ---- one accumulator ----

  /** A bucket while it fills; `last` is none while its last-status fields are blank. */
  datatype Acc = Acc(
    samples: int, up: int, down: int, degraded: int,
    rttSum: real, rttN: int, rttMin: real, rttMax: real,
    lastTS: int, last: Option<Latest>)

  const FRESH := Acc(0, 0, 0, 0, 0.0, 0, 0.0, 0.0, 0, None)

  /** One more row for the accumulator of its group. */
  method Add(a: Acc, c: Row, ghost R: seq<Row>, ghost group: Row -> Key) returns (r: Acc)
    requires Tells(a, R, group, group(c))
    ensures Tells(r, R + [c], group, group(c))
  {
    r := a.(samples := a.samples + 1);
    match c.Status {
      case Up => r := r.(up := r.up + 1);
      case Down => r := r.(down := r.down + 1);
      case Degraded => r := r.(degraded := r.degraded + 1);
    }
    if c.Status != Down && c.RTTMillis > 0.0 {
      if r.rttN == 0 {
        r := r.(rttMin := c.RTTMillis, rttMax := c.RTTMillis);
      } else {
        if c.RTTMillis < r.rttMin {
          r := r.(rttMin := c.RTTMillis);
        }
        if c.RTTMillis > r.rttMax {
          r := r.(rttMax := c.RTTMillis);
        }
      }
      r := r.(rttSum := r.rttSum + c.RTTMillis, rttN := r.rttN + 1);
    }
    if c.TimestampMS >= r.lastTS {
      r := r.(lastTS := c.TimestampMS, last := Some(LatestOf(c)));
    }
    CountsStep(a, r, R, group, c);
    RangeStep(a, r, R, group, c);
    LastStep(a, r, R, group, c);
  }

  ghost predicate Tells(a: Acc, R: seq<Row>, group: Row -> Key, k: Key) {
    TellsCounts(a, R, group, k) && TellsRange(a, R, group, k) && TellsLast(a, R, group, k)
  }

  ghost predicate TellsCounts(a: Acc, R: seq<Row>, group: Row -> Key, k: Key) {
    && a.samples as real == Total(R, group, k, One)
    && a.up as real == Total(R, group, k, UpCount)
    && a.down as real == Total(R, group, k, DownCount)
    && a.degraded as real == Total(R, group, k, DegradedCount)
    && a.rttN as real == Total(R, group, k, MeasuredCount)
    && a.rttSum == Total(R, group, k, Latency)
  }

  function Least(a: Acc): Option<real> { if a.rttN == 0 then None else Some(a.rttMin) }

  function Greatest(a: Acc): Option<real> { if a.rttN == 0 then None else Some(a.rttMax) }

  ghost predicate TellsRange(a: Acc, R: seq<Row>, group: Row -> Key, k: Key) {
    && a.rttN >= 0
    && (a.rttN == 0 ==> a.rttMin == 0.0 && a.rttMax == 0.0)
    && IsLeast(Least(a), R, group, k)
    && IsGreatest(Greatest(a), R, group, k)
  }

  /** Blank exactly while every row of the bucket is from before the epoch. */
  ghost predicate TellsLast(a: Acc, R: seq<Row>, group: Row -> Key, k: Key) {
    && a.lastTS >= 0
    && (forall q :: InGroup(R, group, k, q) ==> q.TimestampMS <= a.lastTS)
    && (a.last.None? ==> a.lastTS == 0 && forall q :: InGroup(R, group, k, q) ==> q.TimestampMS < 0)
    && (a.last.Some? ==> exists r :: InGroup(R, group, k, r) && LatestOf(r) == a.last.value && r.TimestampMS == a.lastTS)
  }

  lemma TotalAppend(R: seq<Row>, group: Row -> Key, k: Key, w: Row -> real, c: Row)
    ensures Total(R + [c], group, k, w) == Total(R, group, k, w) + if group(c) == k then w(c) else 0.0
  {
    assert (R + [c])[..|R|] == R;
  }

  lemma CountsStep(a: Acc, r: Acc, R: seq<Row>, group: Row -> Key, c: Row)
    requires TellsCounts(a, R, group, group(c))
    requires r.samples == a.samples + 1
    requires r.up == a.up + if c.Status == Up then 1 else 0
    requires r.down == a.down + if c.Status == Down then 1 else 0
    requires r.degraded == a.degraded + if c.Status == Degraded then 1 else 0
    requires r.rttN == a.rttN + if Measured(c) then 1 else 0
    requires r.rttSum == a.rttSum + if Measured(c) then c.RTTMillis else 0.0
    ensures TellsCounts(r, R + [c], group, group(c))
  {
    TotalAppend(R, group, group(c), One, c);
    TotalAppend(R, group, group(c), UpCount, c);
    TotalAppend(R, group, group(c), DownCount, c);
    TotalAppend(R, group, group(c), DegradedCount, c);
    TotalAppend(R, group, group(c), MeasuredCount, c);
    TotalAppend(R, group, group(c), Latency, c);
  }

  function Lower(m: Option<real>, x: real): real {
    if m.None? || x < m.value then x else m.value
  }

  function Higher(m: Option<real>, x: real): real {
    if m.None? || x > m.value then x else m.value
  }

  lemma RangeStep(a: Acc, r: Acc, R: seq<Row>, group: Row -> Key, c: Row)
    requires TellsRange(a, R, group, group(c))
    requires r.rttN == a.rttN + if Measured(c) then 1 else 0
    requires Least(r) == if Measured(c) then Some(Lower(Least(a), c.RTTMillis)) else Least(a)
    requires Greatest(r) == if Measured(c) then Some(Higher(Greatest(a), c.RTTMillis)) else Greatest(a)
    requires !Measured(c) ==> r.rttMin == a.rttMin && r.rttMax == a.rttMax
    ensures TellsRange(r, R + [c], group, group(c))
  {
    var k := group(c);
    assert InGroup(R + [c], group, k, c);
    forall q
      ensures InGroup(R + [c], group, k, q) <==> InGroup(R, group, k, q) || q == c
    {
    }
  }

  lemma LastStep(a: Acc, r: Acc, R: seq<Row>, group: Row -> Key, c: Row)
    requires TellsLast(a, R, group, group(c))
    requires r.lastTS == if c.TimestampMS >= a.lastTS then c.TimestampMS else a.lastTS
    requires r.last == if c.TimestampMS >= a.lastTS then Some(LatestOf(c)) else a.last
    ensures TellsLast(r, R + [c], group, group(c))
  {
    var k := group(c);
    assert InGroup(R + [c], group, k, c);
    forall q
      ensures InGroup(R + [c], group, k, q) <==> InGroup(R, group, k, q) || q == c
    {
    }
  }

  lemma OtherGroupsKeep(a: Acc, R: seq<Row>, group: Row -> Key, k: Key, c: Row)
    requires Tells(a, R, group, k) && group(c) != k
    ensures Tells(a, R + [c], group, k)
  {
    TotalAppend(R, group, k, One, c);
    TotalAppend(R, group, k, UpCount, c);
    TotalAppend(R, group, k, DownCount, c);
    TotalAppend(R, group, k, DegradedCount, c);
    TotalAppend(R, group, k, MeasuredCount, c);
    TotalAppend(R, group, k, Latency, c);
    forall q
      ensures InGroup(R + [c], group, k, q) <==> InGroup(R, group, k, q)
    {
    }
  }

  lemma {:induction false} EmptyTotal(R: seq<Row>, group: Row -> Key, k: Key, w: Row -> real)
    requires forall r :: r in R ==> group(r) != k
    ensures Total(R, group, k, w) == 0.0
  {
    if R != [] {
      EmptyTotal(R[..|R| - 1], group, k, w);
    }
  }

  lemma FreshTells(R: seq<Row>, group: Row -> Key, k: Key)
    requires forall r :: r in R ==> group(r) != k
    ensures Tells(FRESH, R, group, k)
  {
    EmptyTotal(R, group, k, One);
    EmptyTotal(R, group, k, UpCount);
    EmptyTotal(R, group, k, DownCount);
    EmptyTotal(R, group, k, DegradedCount);
    EmptyTotal(R, group, k, MeasuredCount);
    EmptyTotal(R, group, k, Latency);
  }

  // ---- the map of accumulators ----

  datatype Bucket = Bucket(key: Key, acc: Acc)

  function BucketName(k: Key): string {
    k.probe + "|" + Text(k.bucket)
  }

  /** The bucket's text has no bar, so a name gives back its probe and its bucket. */
  lemma NameInjective(a: Key, b: Key)
    requires a.check == b.check && IsInt64(a.bucket) && IsInt64(b.bucket)
    requires BucketName(a) == BucketName(b)
    ensures a == b
  {
    TextShape(a.bucket);
    TextShape(b.bucket);
    ResultStore.LastBar(a.probe, Text(a.bucket), b.probe, Text(b.bucket));
    TextInjective(a.bucket, b.bucket);
  }

  ghost predicate Filled(b: Bucket, name: string, R: seq<Row>, group: Row -> Key, check: string) {
    && name == BucketName(b.key)
    && b.key.check == check
    && IsInt64(b.key.bucket)
    && (exists r :: InGroup(R, group, b.key, r))
    && Tells(b.acc, R, group, b.key)
  }

  /** One accumulator for each group of R, under the group's name. */
  ghost predicate Grouped(buckets: map<string, Bucket>, R: seq<Row>, group: Row -> Key, check: string) {
    && (forall s :: s in buckets ==> Filled(buckets[s], s, R, group, check))
    && (forall r :: r in R ==> BucketName(group(r)) in buckets && buckets[BucketName(group(r))].key == group(r))
  }

  lemma GroupedStep(
    buckets: map<string, Bucket>, R: seq<Row>, group: Row -> Key, check: string, c: Row, acc: Acc)
    requires Grouped(buckets, R, group, check)
    requires group(c).check == check && IsInt64(group(c).bucket)
    requires Tells(acc, R + [c], group, group(c))
    ensures Grouped(buckets[BucketName(group(c)) := Bucket(group(c), acc)], R + [c], group, check)
  {
    var k := group(c);
    var after := buckets[BucketName(k) := Bucket(k, acc)];
    assert InGroup(R + [c], group, k, c);
    forall s | s in after
      ensures Filled(after[s], s, R + [c], group, check)
    {
      if s != BucketName(k) {
        assert Filled(buckets[s], s, R, group, check);
        var r :| InGroup(R, group, buckets[s].key, r);
        assert InGroup(R + [c], group, buckets[s].key, r);
        OtherGroupsKeep(buckets[s].acc, R, group, buckets[s].key, c);
      }
    }
    forall r | r in R + [c]
      ensures BucketName(group(r)) in after && after[BucketName(group(r))].key == group(r)
    {
      if r != c && BucketName(group(r)) == BucketName(k) {
        assert Filled(buckets[BucketName(k)], BucketName(k), R, group, check);
        NameInjective(group(r), k);
      }
    }
  }

  /** The accumulator under a group's name is that group's; a missing one has no rows yet. */
  lemma NamedTells(buckets: map<string, Bucket>, R: seq<Row>, group: Row -> Key, check: string, k: Key)
    requires Grouped(buckets, R, group, check)
    requires k.check == check && IsInt64(k.bucket)
    ensures BucketName(k) in buckets ==> Tells(buckets[BucketName(k)].acc, R, group, k)
    ensures BucketName(k) !in buckets ==> Tells(FRESH, R, group, k)
  {
    if BucketName(k) in buckets {
      assert Filled(buckets[BucketName(k)], BucketName(k), R, group, check);
      NameInjective(buckets[BucketName(k)].key, k);
    } else {
      FreshTells(R, group, k);
    }
  }

  method Accumulate(all: seq<Row>, check: string, from: int, to: int, width: int) returns (buckets: map<string, Bucket>)
    requires width > 0
    ensures Grouped(buckets, Window(all, check, from, to), GroupBy(width), check)
  {
    buckets := map[];
    ghost var group := GroupBy(width);
    for i := 0 to |all|
      invariant Grouped(buckets, Window(all[..i], check, from, to), group, check)
    {
      var c := all[i];
      ghost var R := Window(all[..i], check, from, to);
      WindowStep(all, i, check, from, to);
      if !(c.CheckID != check || c.TimestampMS < from || c.TimestampMS >= to) {
        buckets := AddToBucket(buckets, R, check, width, c);
      }
    }
    assert all[..|all|] == all;
  }

  method AddToBucket(before: map<string, Bucket>, ghost R: seq<Row>, check: string, width: int, c: Row)
    returns (after: map<string, Bucket>)
    requires width > 0 && c.CheckID == check
    requires Grouped(before, R, GroupBy(width), check)
    ensures Grouped(after, R + [c], GroupBy(width), check)
  {
    ghost var group := GroupBy(width);
    TruncatedFits(width, c.TimestampMS);
    var b := Truncated(width, c.TimestampMS);
    var stamp := Itoa(b);
    var name := c.ProbeID + "|" + stamp;
    var k := Key(b, check, c.ProbeID);
    assert k == group(c);
    NamedTells(before, R, group, check, k);
    var acc := FRESH;
    if name in before {
      acc := before[name].acc;
    }
    acc := Add(acc, c, R, group);
    after := before[name := Bucket(k, acc)];
    GroupedStep(before, R, group, check, c, acc);
  }

  // ---- what is served ----

  datatype HistorySummary = HistorySummary(
    BucketMS: int, Resolution: string, CheckID: string, ProbeID: string,
    Samples: int, UpCount: int, DownCount: int, DegradedCount: int,
    RTTAvg: real, RTTMin: real, RTTMax: real,
    Last: Option<Latest>)

  function KeyOf(x: HistorySummary): Key {
    Key(x.BucketMS, x.CheckID, x.ProbeID)
  }

  function OrZero(m: Option<real>): real {
    if m.None? then 0.0 else m.value
  }

  /** A summary as served: nulls read as zero, which is also how a database row is scanned. */
  function Expose(tier: string, h: Summary): HistorySummary {
    HistorySummary(h.key.bucket, tier, h.key.check, h.key.probe, h.samples, h.up, h.down, h.degraded,
                   OrZero(h.rttAvg), OrZero(h.rttMin), OrZero(h.rttMax), Some(h.last))
  }

  function Render(tier: string, b: Bucket): HistorySummary {
    var a := b.acc;
    HistorySummary(b.key.bucket, tier, b.key.check, b.key.probe, a.samples, a.up, a.down, a.degraded,
                   if a.rttN > 0 then a.rttSum / a.rttN as real else 0.0, a.rttMin, a.rttMax, a.last)
  }

  /** By bucket, then by probe. */
  function Earlier(): (HistorySummary, HistorySummary) -> bool {
    (x: HistorySummary, y: HistorySummary) =>
      if x.BucketMS != y.BucketMS then x.BucketMS < y.BucketMS else Less(x.ProbeID, y.ProbeID)
  }

  lemma EarlierIsWeak()
    ensures StrictWeak(Earlier())
  {
    LessIsStrictTotal();
    var less := Earlier();
    forall x, y, z | !less(y, x) && !less(z, y)
      ensures !less(z, x)
    {
      if x.ProbeID != y.ProbeID && y.ProbeID != z.ProbeID && x.ProbeID != z.ProbeID { }
    }
  }

  ghost predicate KeysDiffer(buckets: map<string, Bucket>) {
    forall s, t :: s in buckets && t in buckets && s != t ==> buckets[s].key != buckets[t].key
  }

  ghost predicate Rendered(x: HistorySummary, tier: string, buckets: map<string, Bucket>, names: set<string>) {
    exists s :: s in names && s in buckets && x == Render(tier, buckets[s])
  }

  ghost predicate Emitted(out: seq<HistorySummary>, tier: string, buckets: map<string, Bucket>, names: set<string>) {
    Distinct(out) && forall x :: x in out <==> Rendered(x, tier, buckets, names)
  }

  lemma EmitStep(out: seq<HistorySummary>, tier: string, buckets: map<string, Bucket>, done: set<string>, s: string)
    requires KeysDiffer(buckets) && s in buckets && s !in done
    requires Emitted(out, tier, buckets, done)
    ensures Emitted(out + [Render(tier, buckets[s])], tier, buckets, done + {s})
  {
    var x := Render(tier, buckets[s]);
    assert !Rendered(x, tier, buckets, done);
    DistinctConcat(out, [x]);
    forall y
      ensures y in out + [x] <==> Rendered(y, tier, buckets, done + {s})
    {
      assert y in out + [x] <==> y in out || y == x;
      assert Rendered(y, tier, buckets, done + {s}) <==> Rendered(y, tier, buckets, done) || y == x;
    }
  }

  method Emit(tier: string, buckets: map<string, Bucket>) returns (out: seq<HistorySummary>)
    requires KeysDiffer(buckets)
    ensures Emitted(out, tier, buckets, buckets.Keys)
  {
    out := [];
    var names := buckets.Keys;
    while names != {}
      invariant names <= buckets.Keys
      invariant Emitted(out, tier, buckets, buckets.Keys - names)
      decreases |names|
    {
      var s :| s in names;
      EmitStep(out, tier, buckets, buckets.Keys - names, s);
      assert buckets.Keys - (names - {s}) == buckets.Keys - names + {s};
      names := names - {s};
      out := out + [Render(tier, buckets[s])];
    }
    assert buckets.Keys - {} == buckets.Keys;
  }

  /** x is the summary h of its group of R, its last status blank exactly when the whole group predates the epoch. */
  ghost predicate Stands(x: HistorySummary, h: Summary, tier: string, R: seq<Row>, group: Row -> Key) {
    && KeyOf(x) == h.key
    && x == Expose(tier, h).(Last := x.Last)
    && HasTotals(h, R, group)
    && IsLeast(h.rttMin, R, group, h.key)
    && IsGreatest(h.rttMax, R, group, h.key)
    && (x.Last.Some? ==> x.Last.value == h.last && IsLatest(h.last, R, group, h.key))
    && (x.Last.None? ==> forall q :: InGroup(R, group, h.key, q) ==> q.TimestampMS < 0)
  }

  ghost predicate IsServed(x: HistorySummary, tier: string, R: seq<Row>, group: Row -> Key) {
    exists h :: Stands(x, h, tier, R, group)
  }

  ghost predicate HasGroup(out: seq<HistorySummary>, k: Key) {
    exists x :: x in out && KeyOf(x) == k
  }

  /** One summary for each group of R that has rows, by bucket and then by probe. */
  ghost predicate IsHistory(out: seq<HistorySummary>, tier: string, R: seq<Row>, group: Row -> Key) {
    && Ordered(Earlier(), out)
    && (forall x :: x in out ==> IsServed(x, tier, R, group) && exists r :: InGroup(R, group, KeyOf(x), r))
    && (forall r :: r in R ==> HasGroup(out, group(r)))
  }

  /** Earlier buckets first, of one bucket the smaller probe ID, and no probe twice. */
  ghost predicate InBucketOrder(out: seq<HistorySummary>) {
    forall i, j :: 0 <= i < j < |out| ==>
      out[i].BucketMS < out[j].BucketMS || (out[i].BucketMS == out[j].BucketMS && Less(out[i].ProbeID, out[j].ProbeID))
  }

  /** What the fields of x say of the rows of its bucket. */
  ghost predicate FieldsTell(x: HistorySummary, R: seq<Row>, group: Row -> Key) {
    var k := Key(x.BucketMS, x.CheckID, x.ProbeID);
    && x.Samples == |RowsOf(R, group, k)|
    && x.UpCount == |RowsWith(R, group, k, Up)|
    && x.DownCount == |RowsWith(R, group, k, Down)|
    && x.DegradedCount == |RowsWith(R, group, k, Degraded)|
    && LatencyTells(x, R, RowsMeasured(R, group, k), Total(R, group, k, Latency))
    && LastTells(x, R, RowsOf(R, group, k))
  }

  /** Status, type and target are those of a row that none of the bucket is later than; blank only before the epoch. */
  ghost predicate LastTells(x: HistorySummary, R: seq<Row>, rows: set<nat>)
    requires forall i :: i in rows ==> i < |R|
  {
    if x.Last.None? then forall i :: i in rows ==> R[i].TimestampMS < 0
    else exists i :: i in rows && IsLastRow(x.Last.value, R, rows, i)
  }

  ghost predicate IsLastRow(last: Latest, R: seq<Row>, rows: set<nat>, i: nat)
    requires i < |R| && forall j :: j in rows ==> j < |R|
  {
    && last.status == R[i].Status && last.checkType == R[i].CheckType && last.target == R[i].Target
    && forall j :: j in rows ==> R[j].TimestampMS <= R[i].TimestampMS
  }

  lemma ServedLastTells(x: HistorySummary, h: Summary, tier: string, R: seq<Row>, group: Row -> Key)
    requires Stands(x, h, tier, R, group)
    ensures LastTells(x, R, RowsOf(R, group, h.key))
  {
    forall i | i in RowsOf(R, group, h.key)
      ensures InGroup(R, group, h.key, R[i])
    {
    }
    if x.Last.Some? {
      var r :| InGroup(R, group, h.key, r) && LatestOf(r) == h.last
        && forall q :: InGroup(R, group, h.key, q) ==> q.TimestampMS <= r.TimestampMS;
      var i :| 0 <= i < |R| && R[i] == r;
      assert i in RowsOf(R, group, h.key);
      assert IsLastRow(x.Last.value, R, RowsOf(R, group, h.key), i);
    }
  }

  /** Least, greatest and average of the rows measured, or all three 0 where there are none. */
  ghost predicate LatencyTells(x: HistorySummary, R: seq<Row>, measured: set<nat>, sum: real)
    requires forall i :: i in measured ==> i < |R|
  {
    if measured == {} then x.RTTMin == x.RTTMax == x.RTTAvg == 0.0
    else IsRange(R, measured, x.RTTMin, x.RTTMax) && x.RTTAvg * |measured| as real == sum
  }

  ghost predicate IsRange(R: seq<Row>, measured: set<nat>, lo: real, hi: real)
    requires forall i :: i in measured ==> i < |R|
  {
    && (forall i :: i in measured ==> lo <= R[i].RTTMillis <= hi)
    && (exists i :: i in measured && R[i].RTTMillis == lo)
    && (exists i :: i in measured && R[i].RTTMillis == hi)
  }

  lemma ServedFieldsTell(x: HistorySummary, tier: string, R: seq<Row>, group: Row -> Key)
    requires IsServed(x, tier, R, group)
    ensures FieldsTell(x, R, group)
  {
    var h :| Stands(x, h, tier, R, group);
    FieldsAreCounts(h, R, group);
    ServedLatencyTells(x, h, R, group);
    ServedLastTells(x, h, tier, R, group);
  }

  lemma ServedLatencyTells(x: HistorySummary, h: Summary, R: seq<Row>, group: Row -> Key)
    requires HasTotals(h, R, group) && IsLeast(h.rttMin, R, group, h.key) && IsGreatest(h.rttMax, R, group, h.key)
    requires x.RTTAvg == OrZero(h.rttAvg) && x.RTTMin == OrZero(h.rttMin) && x.RTTMax == OrZero(h.rttMax)
    ensures LatencyTells(x, R, RowsMeasured(R, group, h.key), Total(R, group, h.key, Latency))
  {
    ServedAverage(h, R, group);
    ServedRange(h, R, group);
    PartsTell(x, R, RowsMeasured(R, group, h.key), Total(R, group, h.key, Latency), h.rttAvg, h.rttMin, h.rttMax);
  }

  lemma PartsTell(x: HistorySummary, R: seq<Row>, measured: set<nat>, sum: real,
                  avg: Option<real>, lo: Option<real>, hi: Option<real>)
    requires forall i :: i in measured ==> i < |R|
    requires x.RTTAvg == OrZero(avg) && x.RTTMin == OrZero(lo) && x.RTTMax == OrZero(hi)
    requires AveragesTo(avg, |measured|, sum)
    requires if measured == {} then lo.None? && hi.None? else lo.Some? && hi.Some? && IsRange(R, measured, lo.value, hi.value)
    ensures LatencyTells(x, R, measured, sum)
  {
  }

  ghost predicate AveragesTo(avg: Option<real>, n: nat, sum: real) {
    if n == 0 then avg.None? else avg.Some? && avg.value * n as real == sum
  }

  lemma ServedAverage(h: Summary, R: seq<Row>, group: Row -> Key)
    requires HasTotals(h, R, group)
    ensures AveragesTo(h.rttAvg, |RowsMeasured(R, group, h.key)|, Total(R, group, h.key, Latency))
  {
    MeasuredIsTotal(R, group, h.key);
  }

  lemma ServedRange(h: Summary, R: seq<Row>, group: Row -> Key)
    requires IsLeast(h.rttMin, R, group, h.key) && IsGreatest(h.rttMax, R, group, h.key)
    ensures var measured := RowsMeasured(R, group, h.key);
      if measured == {} then h.rttMin.None? && h.rttMax.None?
      else h.rttMin.Some? && h.rttMax.Some? && IsRange(R, measured, h.rttMin.value, h.rttMax.value)
  {
    forall i | i in RowsMeasured(R, group, h.key)
      ensures h.rttMin.Some? && h.rttMax.Some? && h.rttMin.value <= R[i].RTTMillis <= h.rttMax.value
    {
      assert InGroup(R, group, h.key, R[i]) && Measured(R[i]);
    }
    if h.rttMin.Some? {
      var lo := MeasuredAt(R, group, h.key, h.rttMin.value);
      var hi := MeasuredAt(R, group, h.key, h.rttMax.value);
    }
  }

  lemma MeasuredAt(R: seq<Row>, group: Row -> Key, k: Key, v: real) returns (i: nat)
    requires exists r :: InGroup(R, group, k, r) && Measured(r) && r.RTTMillis == v
    ensures i in RowsMeasured(R, group, k) && R[i].RTTMillis == v
  {
    var r :| InGroup(R, group, k, r) && Measured(r) && r.RTTMillis == v;
    i :| i < |R| && R[i] == r;
  }

  lemma RenderIsServed(tier: string, b: Bucket, name: string, R: seq<Row>, group: Row -> Key, check: string)
    requires Filled(b, name, R, group, check)
    ensures IsServed(Render(tier, b), tier, R, group)
    ensures KeyOf(Render(tier, b)) == b.key
  {
    var x, a := Render(tier, b), b.acc;
    var r :| InGroup(R, group, b.key, r);
    var l := if a.last.Some? then a.last.value else LatestOf(r);
    UnmeasuredIsZero(R, group, b.key);
    var h := Summary(b.key, a.samples, a.up, a.down, a.degraded, a.rttN,
                     Average(Total(R, group, b.key, Latency), Total(R, group, b.key, MeasuredCount)),
                     Least(a), Greatest(a), l);
    assert Stands(x, h, tier, R, group);
  }

  method HistoryRange(store: ResultStore.MemStore, checkID: string, fromMS: int, toMS: int)
    returns (out: seq<HistorySummary>)
    ensures toMS <= fromMS ==> out == []
    ensures toMS > fromMS ==>
      var (tier, width) := Resolution(toMS - fromMS);
      IsHistory(out, tier, Window(store.all, checkID, fromMS, toMS), GroupBy(width))
    // what each field says; ranges of up to 14 days are hourly
    ensures toMS > fromMS ==>
      var (_, width) := Resolution(toMS - fromMS);
      forall x :: x in out ==> FieldsTell(x, Window(store.all, checkID, fromMS, toMS), GroupBy(width))
    ensures toMS > fromMS ==>
      (forall x :: x in out ==> x.CheckID == checkID && x.Resolution == if toMS - fromMS <= 1_209_600_000 then "hourly" else "daily")
    ensures InBucketOrder(out)
    ensures toMS > fromMS ==>
      Resolution(toMS - fromMS) == if toMS - fromMS <= 1_209_600_000 then ("hourly", 3_600_000) else ("daily", 86_400_000)
  {
    if toMS <= fromMS {
      return [];
    }
    var resolution := Resolution(toMS - fromMS);
    var tier, width := resolution.0, resolution.1;
    var buckets := Accumulate(store.all, checkID, fromMS, toMS, width);
    GroupedKeysDiffer(buckets, Window(store.all, checkID, fromMS, toMS), GroupBy(width), checkID);
    out := Emit(tier, buckets);
    ghost var unsorted := out;
    EarlierIsWeak();
    out := Sort(out, Earlier());
    HistoryIsSorted(buckets, Window(store.all, checkID, fromMS, toMS), GroupBy(width), checkID, tier, unsorted, out);
    forall x | x in out
      ensures FieldsTell(x, Window(store.all, checkID, fromMS, toMS), GroupBy(width))
    {
      ServedFieldsTell(x, tier, Window(store.all, checkID, fromMS, toMS), GroupBy(width));
    }
    ServedOfCheck(out, tier, store.all, checkID, fromMS, toMS, width);
  }

  lemma ServedOfCheck(out: seq<HistorySummary>, tier: string, all: seq<Row>, checkID: string, from: int, to: int, width: int)
    requires width > 0 && IsHistory(out, tier, Window(all, checkID, from, to), GroupBy(width))
    ensures forall x :: x in out ==> x.CheckID == checkID && x.Resolution == tier
    ensures InBucketOrder(out)
  {
    var R := Window(all, checkID, from, to);
    WindowHas(all, checkID, from, to);
    forall x | x in out
      ensures x.CheckID == checkID && x.Resolution == tier
    {
      var r :| InGroup(R, GroupBy(width), KeyOf(x), r);
      var h :| Stands(x, h, tier, R, GroupBy(width));
    }
    forall i, j | 0 <= i < j < |out|
      ensures Earlier()(out[i], out[j])
    {
    }
  }

  lemma GroupedKeysDiffer(buckets: map<string, Bucket>, R: seq<Row>, group: Row -> Key, check: string)
    requires Grouped(buckets, R, group, check)
    ensures KeysDiffer(buckets)
  {
    forall s, t | s in buckets && t in buckets && s != t
      ensures buckets[s].key != buckets[t].key
    {
      assert Filled(buckets[s], s, R, group, check) && Filled(buckets[t], t, R, group, check);
    }
  }

  lemma HistoryIsSorted(
    buckets: map<string, Bucket>, R: seq<Row>, group: Row -> Key, check: string, tier: string,
    unsorted: seq<HistorySummary>, out: seq<HistorySummary>)
    requires Grouped(buckets, R, group, check)
    requires Emitted(unsorted, tier, buckets, buckets.Keys)
    requires multiset(out) == multiset(unsorted) && Sorted(Earlier(), out)
    ensures IsHistory(out, tier, R, group)
  {
    SameElements(out, unsorted);
    forall x
      ensures x in out <==> x in unsorted
    {
      assert x in Elements(out) <==> x in Elements(unsorted);
    }
    forall s | s in buckets
      ensures Render(tier, buckets[s]) in out && KeyOf(Render(tier, buckets[s])) == buckets[s].key
      ensures IsServed(Render(tier, buckets[s]), tier, R, group)
      ensures buckets[s].key.check == check && BucketName(buckets[s].key) == s
      ensures exists r :: InGroup(R, group, buckets[s].key, r)
    {
      assert Filled(buckets[s], s, R, group, check);
      RenderIsServed(tier, buckets[s], s, R, group, check);
    }
    LessIsStrictTotal();
    forall i, j | 0 <= i < j < |out|
      ensures Earlier()(out[i], out[j])
    {
      assert out[i] in out && out[j] in out;
    }
    forall r | r in R
      ensures HasGroup(out, group(r))
    {
      assert Render(tier, buckets[BucketName(group(r))]) in out;
    }
  }

  // ---- the two stores ----

  lemma OneMoreWidth(p: int, q: int, width: int)
    requires width > 0
    ensures p <= q ==> p * width <= q * width
    ensures p > q ==> p * width >= q * width + width
  {
    if p <= q {
      assert (q - p) * width >= 0;
    } else {
      assert (p - q - 1) * width >= 0;
    }
  }

  /** A multiple of the width is not after t exactly when it is not after t's bucket. */
  lemma BoundBelow(width: int, m: int, t: int)
    requires width > 0 && m % width == 0
    ensures m <= t <==> m <= TimeBucket(width, t)
  {
    Floor(width, t);
    OneMoreWidth(m / width, t / width, width);
    assert m == m / width * width;
  }

  ghost predicate SameWindow(width: int, from: int, to: int)
    requires width > 0
  {
    forall t :: t >= 0 ==> (from <= t < to <==> from <= TimeBucket(width, t) < to)
  }

  /** Filtering rows by time, as here, and buckets by bound, as the SQL does, is the same exactly on aligned ranges. */
  lemma WindowsAgreeExactly(width: int, from: int, to: int)
    requires width > 0 && 0 <= from < to
    ensures SameWindow(width, from, to) <==> from % width == 0 && to % width == 0
  {
    if from % width == 0 && to % width == 0 {
      forall t | t >= 0
        ensures from <= t < to <==> from <= TimeBucket(width, t) < to
      {
        BoundBelow(width, from, t);
        BoundBelow(width, to, t);
      }
    }
    if SameWindow(width, from, to) {
      Floor(width, from);
      Floor(width, to);
      assert from <= TimeBucket(width, from);
      assert from == from / width * width + from % width;
      assert to == to / width * width + to % width;
      BoundBelow(width, from, to);
      assert from <= TimeBucket(width, to);
    }
  }

  function TierKey(width: int): Row -> Key {
    if width == HOUR then HourKey else DayKey
  }

  /** Buckets as the time_bucket of the SQL and as the truncating division agree from the epoch on. */
  lemma GroupAgrees(width: int, r: Row)
    requires width == HOUR || width == DAY
    requires r.TimestampMS >= 0
    ensures GroupBy(width)(r) == TierKey(width)(r)
    ensures TierKey(width)(r).bucket == TimeBucket(width, r.TimestampMS)
  {
  }

  ghost predicate InSelect(k: Key, check: string, from: int, to: int) {
    k.check == check && from <= k.bucket < to
  }

  /** The rows of a selected bucket are exactly its rows in the window. */
  ghost predicate SameRows(R: seq<Row>, check: string, from: int, to: int, a: Row -> Key, b: Row -> Key, k: Key) {
    forall r :: r in R ==>
      (b(r) == k <==> r.CheckID == check && from <= r.TimestampMS < to && a(r) == k)
  }

  lemma SelectedRows(R: seq<Row>, check: string, from: int, to: int, width: int, k: Key)
    requires width == HOUR || width == DAY
    requires forall r :: r in R ==> r.TimestampMS >= 0
    requires 0 <= from < to && from % width == 0 && to % width == 0
    requires InSelect(k, check, from, to)
    ensures SameRows(R, check, from, to, GroupBy(width), TierKey(width), k)
  {
    WindowsAgreeExactly(width, from, to);
    forall r | r in R
      ensures TierKey(width)(r) == k <==> r.CheckID == check && from <= r.TimestampMS < to && GroupBy(width)(r) == k
    {
      GroupAgrees(width, r);
    }
  }

  lemma {:induction false} TotalOfWindow(
    R: seq<Row>, check: string, from: int, to: int, a: Row -> Key, b: Row -> Key, k: Key, w: Row -> real)
    requires SameRows(R, check, from, to, a, b, k)
    ensures Total(Window(R, check, from, to), a, k, w) == Total(R, b, k, w)
  {
    if R != [] {
      var init, r := R[..|R| - 1], R[|R| - 1];
      TotalOfWindow(init, check, from, to, a, b, k, w);
      var W := Window(init, check, from, to);
      TotalAppend(W, a, k, w, r);
      assert Window(R, check, from, to) == if r.CheckID == check && from <= r.TimestampMS < to then W + [r] else W;
    }
  }

  ghost predicate SameGroup(W: seq<Row>, a: Row -> Key, R: seq<Row>, b: Row -> Key, k: Key) {
    forall r :: InGroup(W, a, k, r) <==> InGroup(R, b, k, r)
  }

  lemma SameTotals(R: seq<Row>, check: string, from: int, to: int, a: Row -> Key, b: Row -> Key, h: Summary)
    requires SameRows(R, check, from, to, a, b, h.key)
    requires HasTotals(h, Window(R, check, from, to), a)
    ensures HasTotals(h, R, b)
  {
    TotalOfWindow(R, check, from, to, a, b, h.key, One);
    TotalOfWindow(R, check, from, to, a, b, h.key, UpCount);
    TotalOfWindow(R, check, from, to, a, b, h.key, DownCount);
    TotalOfWindow(R, check, from, to, a, b, h.key, DegradedCount);
    TotalOfWindow(R, check, from, to, a, b, h.key, MeasuredCount);
    TotalOfWindow(R, check, from, to, a, b, h.key, Latency);
  }

  lemma SameRange(W: seq<Row>, a: Row -> Key, R: seq<Row>, b: Row -> Key, h: Summary)
    requires SameGroup(W, a, R, b, h.key)
    ensures IsLeast(h.rttMin, W, a, h.key) ==> IsLeast(h.rttMin, R, b, h.key)
    ensures IsGreatest(h.rttMax, W, a, h.key) ==> IsGreatest(h.rttMax, R, b, h.key)
  {
  }

  lemma SameLatest(W: seq<Row>, a: Row -> Key, R: seq<Row>, b: Row -> Key, h: Summary)
    requires SameGroup(W, a, R, b, h.key)
    requires IsLatest(h.last, W, a, h.key)
    ensures IsLatest(h.last, R, b, h.key)
  {
    var r :| InGroup(W, a, h.key, r) && LatestOf(r) == h.last
      && forall q :: InGroup(W, a, h.key, q) ==> q.TimestampMS <= r.TimestampMS;
    assert InGroup(R, b, h.key, r);
  }

  lemma ServedIsSummary(
    x: HistorySummary, tier: string, R: seq<Row>, check: string, from: int, to: int, a: Row -> Key, b: Row -> Key, h: Summary)
    requires SameRows(R, check, from, to, a, b, KeyOf(x)) && KeepsIdentity(b) && Unique(R) && from >= 0
    requires IsServed(x, tier, Window(R, check, from, to), a)
    requires Summarises(h, R, b) && h.key == KeyOf(x)
    ensures x == Expose(tier, h)
  {
    var W, k := Window(R, check, from, to), h.key;
    WindowHas(R, check, from, to);
    assert SameGroup(W, a, R, b, k);
    var g :| Stands(x, g, tier, W, a);
    var r :| InGroup(R, b, k, r);
    assert InGroup(W, a, k, r);
    SameTotals(R, check, from, to, a, b, g);
    SameRange(W, a, R, b, g);
    SameLatest(W, a, R, b, g);
    SummaryIsDetermined(R, b, g, h);
  }

  /** A row of the window has its bucket in the selected part of the rollup. */
  lemma BucketOfRow(R: seq<Row>, H: seq<Summary>, check: string, from: int, to: int, width: int, r: Row) returns (h: Summary)
    requires width == HOUR || width == DAY
    requires 0 <= from < to && from % width == 0 && to % width == 0
    requires IsRollup(H, R, TierKey(width)) && r in Window(R, check, from, to)
    ensures h in H && InSelect(h.key, check, from, to) && h.key == GroupBy(width)(r) && Summarises(h, R, TierKey(width))
  {
    WindowHas(R, check, from, to);
    GroupAgrees(width, r);
    WindowsAgreeExactly(width, from, to);
    h :| h in H && h.key == TierKey(width)(r);
  }

  lemma ServedIsSelected(
    x: HistorySummary, R: seq<Row>, H: seq<Summary>, tier: string, check: string, from: int, to: int, width: int)
    requires width == HOUR || width == DAY
    requires Unique(R) && forall r :: r in R ==> r.TimestampMS >= 0
    requires 0 <= from < to && from % width == 0 && to % width == 0
    requires IsRollup(H, R, TierKey(width))
    requires IsServed(x, tier, Window(R, check, from, to), GroupBy(width))
    requires exists r :: InGroup(Window(R, check, from, to), GroupBy(width), KeyOf(x), r)
    ensures exists h :: h in H && InSelect(h.key, check, from, to) && x == Expose(tier, h)
  {
    var r :| InGroup(Window(R, check, from, to), GroupBy(width), KeyOf(x), r);
    var h := BucketOfRow(R, H, check, from, to, width, r);
    SelectedRows(R, check, from, to, width, h.key);
    assert KeepsIdentity(TierKey(width));
    ServedIsSummary(x, tier, R, check, from, to, GroupBy(width), TierKey(width), h);
  }

  lemma SelectedIsServed(
    h: Summary, R: seq<Row>, out: seq<HistorySummary>, tier: string, check: string, from: int, to: int, width: int)
    requires width == HOUR || width == DAY
    requires Unique(R) && forall r :: r in R ==> r.TimestampMS >= 0
    requires 0 <= from < to && from % width == 0 && to % width == 0
    requires Summarises(h, R, TierKey(width)) && InSelect(h.key, check, from, to)
    requires IsHistory(out, tier, Window(R, check, from, to), GroupBy(width))
    ensures Expose(tier, h) in out
  {
    WindowHas(R, check, from, to);
    var r :| InGroup(R, TierKey(width), h.key, r);
    SelectedRows(R, check, from, to, width, h.key);
    assert r in Window(R, check, from, to);
    var x :| x in out && KeyOf(x) == GroupBy(width)(r);
    assert KeepsIdentity(TierKey(width));
    ServedIsSummary(x, tier, R, check, from, to, GroupBy(width), TierKey(width), h);
  }

  /** On a bucket-aligned range the hub without a database serves exactly the SQL tier's rows. */
  lemma StoresAgree(
    R: seq<Row>, H: seq<Summary>, out: seq<HistorySummary>, tier: string, check: string, from: int, to: int, width: int)
    requires width == HOUR || width == DAY
    requires Unique(R) && forall r :: r in R ==> r.TimestampMS >= 0
    requires 0 <= from < to && from % width == 0 && to % width == 0
    requires IsRollup(H, R, TierKey(width))
    requires IsHistory(out, tier, Window(R, check, from, to), GroupBy(width))
    ensures forall x :: x in out <==> exists h :: h in H && InSelect(h.key, check, from, to) && x == Expose(tier, h)
  {
    forall x | x in out
      ensures exists h :: h in H && InSelect(h.key, check, from, to) && x == Expose(tier, h)
    {
      ServedIsSelected(x, R, H, tier, check, from, to, width);
    }
    forall h | h in H && InSelect(h.key, check, from, to)
      ensures Expose(tier, h) in out
    {
      SelectedIsServed(h, R, out, tier, check, from, to, width);
    }
  }
}
