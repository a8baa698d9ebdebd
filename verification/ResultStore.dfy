/** hub/store/store.go: the in-memory result store, idempotent on (probe, check, time). */
module ResultStore {
  import opened Decimal
  import opened Protocol
  import opened Ranking
  import opened Sorting

  type Row = ResultContent

  function DedupeKey(c: Row): string {
    c.ProbeID + "|" + c.CheckID + "|" + Text(c.TimestampMS)
  }

  ghost predicate SameTriple(a: Row, b: Row) {
    a.ProbeID == b.ProbeID && a.CheckID == b.CheckID && a.TimestampMS == b.TimestampMS
  }

  // ---- what the key distinguishes ----

  /** The part after the last bar is recovered from the whole. */
  lemma {:induction false} LastBar(x: string, t: string, y: string, u: string)
    requires '|' !in t && '|' !in u && x + "|" + t == y + "|" + u
    ensures x == y && t == u
  {
    var s := x + "|" + t;
    var n := |s| - 1;
    assert s[n] == if t == "" then '|' else t[|t| - 1];
    assert s[n] == if u == "" then '|' else u[|u| - 1];
    if t != "" && u != "" {
      assert s[..n] == x + "|" + t[..|t| - 1] == y + "|" + u[..|u| - 1];
      LastBar(x, t[..|t| - 1], y, u[..|u| - 1]);
    } else {
      assert t == u == "";
      assert s[..n] == x == y;
    }
  }

  /** The part before the first bar is recovered from the whole. */
  lemma {:induction false} FirstBar(x: string, t: string, y: string, u: string)
    requires '|' !in x && '|' !in y && x + "|" + t == y + "|" + u
    ensures x == y && t == u
  {
    var s := x + "|" + t;
    assert s[0] == if x == "" then '|' else x[0];
    assert s[0] == if y == "" then '|' else y[0];
    if x != "" && y != "" {
      assert s[1..] == x[1..] + "|" + t == y[1..] + "|" + u;
      FirstBar(x[1..], t, y[1..], u);
    } else {
      assert x == y == "";
      assert s[1..] == t == u;
    }
  }

  /** Exactly which rows collide: equal times, and probe and check that read alike when joined. */
  lemma KeyCollidesExactly(a: Row, b: Row)
    ensures DedupeKey(a) == DedupeKey(b) <==>
      a.TimestampMS == b.TimestampMS && a.ProbeID + "|" + a.CheckID == b.ProbeID + "|" + b.CheckID
  {
    TextShape(a.TimestampMS);
    TextShape(b.TimestampMS);
    if DedupeKey(a) == DedupeKey(b) {
      LastBar(a.ProbeID + "|" + a.CheckID, Text(a.TimestampMS), b.ProbeID + "|" + b.CheckID, Text(b.TimestampMS));
      TextInjective(a.TimestampMS, b.TimestampMS);
    }
  }

  /** Probe IDs are hexadecimal; without a bar in them the key is the triple. */
  lemma KeyIsTriple(a: Row, b: Row)
    requires '|' !in a.ProbeID && '|' !in b.ProbeID
    ensures DedupeKey(a) == DedupeKey(b) <==> SameTriple(a, b)
  {
    KeyCollidesExactly(a, b);
    if a.ProbeID + "|" + a.CheckID == b.ProbeID + "|" + b.CheckID {
      FirstBar(a.ProbeID, a.CheckID, b.ProbeID, b.CheckID);
    }
  }

  ghost predicate Collide(a: Row, b: Row, p: string, q: string) {
    a.ProbeID == p && b.ProbeID == q && DedupeKey(a) == DedupeKey(b)
  }

  lemma LongerProbe(p: string, x: string, q: string, y: string)
    requires p + "|" + x == q + "|" + y && |p| < |q|
    ensures p + "|" <= q
  {
    var s := p + "|" + x;
    assert s[..|p| + 1] == p + "|";
    assert (q + "|" + y)[..|p| + 1] == q[..|p| + 1];
  }

  lemma EqualLengths(p: string, x: string, q: string, y: string)
    requires p + "|" + x == q + "|" + y
    ensures |p| == |q| ==> p == q
  {
    if |p| == |q| {
      assert (p + "|" + x)[..|p|] == p;
      assert (q + "|" + y)[..|p|] == q;
    }
  }

  lemma Collision(p: string, q: string, t: int)
    requires IsInt64(t) && p + "|" <= q
    ensures exists a: Row, b: Row :: Collide(a, b, p, q) && a.TimestampMS == b.TimestampMS == t
  {
    var rest := q[|p| + 1..];
    var a := ResultContent(rest + "|c", p, t, Up, 0.0, "", "");
    var b := ResultContent("c", q, t, Up, 0.0, "", "");
    assert q == p + "|" + rest;
    assert a.ProbeID + "|" + a.CheckID == b.ProbeID + "|" + b.CheckID;
    KeyCollidesExactly(a, b);
    assert Collide(a, b, p, q);
  }

  /** Two probes can have measurements that share a key, so that one is lost, exactly when one's ID starts with the other's and a bar. */
  lemma BarsCollideExactly(p: string, q: string)
    requires p != q
    ensures (exists a: Row, b: Row :: Collide(a, b, p, q)) <==> p + "|" <= q || q + "|" <= p
  {
    if a: Row, b: Row :| Collide(a, b, p, q) {
      KeyCollidesExactly(a, b);
      if |p| < |q| {
        LongerProbe(p, a.CheckID, q, b.CheckID);
      } else if |q| < |p| {
        LongerProbe(q, b.CheckID, p, a.CheckID);
      }
      EqualLengths(p, a.CheckID, q, b.CheckID);
    }
    if p + "|" <= q {
      Collision(p, q, 0);
    }
    if q + "|" <= p {
      Collision(q, p, 0);
      var a: Row, b: Row :| Collide(a, b, q, p);
      assert Collide(b, a, p, q);
    }
  }

  // ---- inserting ----

  function Keys(rows: seq<Row>): set<string> {
    set r | r in rows :: DedupeKey(r)
  }

  function InsertOne(all: seq<Row>, c: Row): seq<Row> {
    if DedupeKey(c) in Keys(all) then all else all + [c]
  }

  function InsertAll(all: seq<Row>, rs: seq<Row>): seq<Row> {
    if rs == [] then all else InsertOne(InsertAll(all, rs[..|rs| - 1]), rs[|rs| - 1])
  }

  ghost predicate KeyedOnce(all: seq<Row>) {
    forall i, j :: 0 <= i < j < |all| ==> DedupeKey(all[i]) != DedupeKey(all[j])
  }

  ghost predicate PlainProbes(rs: seq<Row>) {
    forall r :: r in rs ==> '|' !in r.ProbeID
  }

  ghost predicate FirstAt(c: Row, rs: seq<Row>, i: nat) {
    i < |rs| && rs[i] == c && forall j :: 0 <= j < i ==> !SameTriple(rs[j], c)
  }

  /** c is the first delivery of its measurement. */
  ghost predicate FirstOfTriple(c: Row, rs: seq<Row>) {
    exists i: nat :: FirstAt(c, rs, i)
  }

  lemma FirstOfTripleAppend(c: Row, rs: seq<Row>, r: Row)
    ensures FirstOfTriple(c, rs + [r]) <==>
      FirstOfTriple(c, rs) || (c == r && forall q :: q in rs ==> !SameTriple(q, c))
  {
    var all := rs + [r];
    if i: nat :| FirstAt(c, rs, i) {
      assert FirstAt(c, all, i);
    }
    if i: nat :| FirstAt(c, all, i) {
      assert forall j :: 0 <= j < i && j < |rs| ==> rs[j] == all[j];
      assert i < |rs| ==> FirstAt(c, rs, i);
    }
    if c == r && forall q :: q in rs ==> !SameTriple(q, c) {
      assert FirstAt(c, all, |rs|);
    }
  }

  /** However often and in whatever order results are delivered, each measurement is stored once: its first delivery. */
  lemma {:induction false} StoredOnce(rs: seq<Row>)
    requires PlainProbes(rs)
    ensures KeyedOnce(InsertAll([], rs))
    ensures forall c :: c in InsertAll([], rs) <==> FirstOfTriple(c, rs)
  {
    if rs != [] {
      var init, r := rs[..|rs| - 1], rs[|rs| - 1];
      assert rs == init + [r];
      StoredOnce(init);
      var all := InsertAll([], init);
      assert DedupeKey(r) in Keys(all) <==> exists q :: q in init && SameTriple(q, r) by {
        KeyStored(init, all, r);
      }
      forall c
        ensures c in InsertAll([], rs) <==> FirstOfTriple(c, rs)
      {
        FirstOfTripleAppend(c, init, r);
      }
    }
  }

  lemma KeyStored(init: seq<Row>, all: seq<Row>, r: Row)
    requires PlainProbes(init + [r])
    requires forall c :: c in all <==> FirstOfTriple(c, init)
    ensures DedupeKey(r) in Keys(all) <==> exists q :: q in init && SameTriple(q, r)
  {
    assert r in init + [r];
    assert forall q :: q in init ==> q in init + [r];
    if DedupeKey(r) in Keys(all) {
      var q :| q in all && DedupeKey(q) == DedupeKey(r);
      assert FirstOfTriple(q, init);
      KeyIsTriple(q, r);
    }
    if q :| q in init && SameTriple(q, r) {
      var i :| 0 <= i < |init| && init[i] == q;
      var f := FirstDelivery(init, i);
      assert init[f] in all;
      KeyIsTriple(init[f], r);
    }
  }

  lemma {:induction false} FirstDelivery(rs: seq<Row>, i: nat) returns (f: nat)
    requires i < |rs|
    ensures f <= i && SameTriple(rs[f], rs[i]) && FirstOfTriple(rs[f], rs)
  {
    if j :| 0 <= j < i && SameTriple(rs[j], rs[i]) {
      f := FirstDelivery(rs, j);
    } else {
      f := i;
      assert FirstAt(rs[f], rs, f);
    }
  }

  /** Two stores that were delivered the same measurements hold the same measurements. */
  lemma DeliveryOrderFree(rs: seq<Row>, qs: seq<Row>, c: Row)
    requires PlainProbes(rs) && PlainProbes(qs) && Elements(rs) == Elements(qs)
    requires c in InsertAll([], rs)
    ensures exists d :: d in InsertAll([], qs) && SameTriple(c, d)
  {
    StoredOnce(rs);
    StoredOnce(qs);
    assert FirstOfTriple(c, rs) && c in Elements(qs);
    var i :| 0 <= i < |qs| && qs[i] == c;
    var f := FirstDelivery(qs, i);
    assert qs[f] in InsertAll([], qs);
  }

  // ---- windowed queries ----

  predicate InWindow(r: Row, since: int, before: int) {
    r.TimestampMS >= since && !(before > 0 && r.TimestampMS >= before)
  }

  function Matching(all: seq<Row>, match_: Row -> bool, since: int, before: int): seq<Row> {
    if all == [] then []
    else
      var r := all[|all| - 1];
      Matching(all[..|all| - 1], match_, since, before) + if InWindow(r, since, before) && match_(r) then [r] else []
  }

  function Newest(): (Row, Row) -> bool {
    (a: Row, b: Row) => a.TimestampMS > b.TimestampMS
  }

  /** `out` is the newest `limit` of the matching rows, newest first; all of them when limit is not positive. */
  ghost predicate IsPage(out: seq<Row>, all: seq<Row>, match_: Row -> bool, since: int, before: int, limit: int) {
    exists ranked ::
      && multiset(ranked) == multiset(Matching(all, match_, since, before))
      && Sorted(Newest(), ranked)
      && out == if limit > 0 && |ranked| > limit then ranked[..limit] else ranked
  }

  class MemStore {
    var seen: set<string>
    var all: seq<Row>

    ghost predicate Valid()
      reads this
    {
      seen == Keys(all) && KeyedOnce(all)
    }

    constructor ()
      ensures Valid() && all == []
    {
      seen, all := {}, [];
    }

    method Insert(c: Row)
      requires Valid()
      modifies this
      ensures Valid() && all == InsertOne(old(all), c)
    {
      var stamp := Itoa(c.TimestampMS);
      var key := c.ProbeID + "|" + c.CheckID + "|" + stamp;
      if key in seen {
        return;
      }
      seen := seen + {key};
      all := all + [c];
      assert Keys(all) == Keys(old(all)) + {DedupeKey(c)};
    }

    method FilterSince(match_: Row -> bool, since: int, before: int, limit: int) returns (out: seq<Row>)
      ensures IsPage(out, all, match_, since, before, limit)
      ensures limit > 0 ==> |out| <= limit
      ensures forall i, j :: 0 <= i < j < |out| ==> out[i].TimestampMS >= out[j].TimestampMS
    {
      out := [];
      for i := 0 to |all|
        invariant out == Matching(all[..i], match_, since, before)
      {
        assert all[..i + 1][..i] == all[..i];
        var sr := all[i];
        if sr.TimestampMS < since {
          continue;
        }
        if before > 0 && sr.TimestampMS >= before {
          continue;
        }
        if match_(sr) {
          out := out + [sr];
        }
      }
      assert all[..|all|] == all;
      out := Sort(out, Newest());
      if limit > 0 && |out| > limit {
        out := out[..limit];
      }
    }
  }
}
