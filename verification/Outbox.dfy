/** hub/outbox/outbox.go: what a home hub re-sends of the results it does not itself store. */
module Outbox {
  import opened Protocol

  const DEFAULT_MAX := 2048

  datatype Item = Item(result: ResultContent, at: int)

  function Fresh(items: seq<Item>, cutoff: int): seq<Item> {
    if items == [] then []
    else
      var it := items[|items| - 1];
      Fresh(items[..|items| - 1], cutoff) + if it.at < cutoff then [] else [it]
  }

  function Results(items: seq<Item>): seq<ResultContent> {
    seq(|items|, i requires 0 <= i < |items| => items[i].result)
  }

  /** The last n of a sequence, or all of it. */
  function LastN(items: seq<Item>, n: nat): seq<Item> {
    if |items| <= n then items else items[|items| - n..]
  }

  ghost predicate InOrder(items: seq<Item>) {
    forall i, j :: 0 <= i < j < |items| ==> items[i].at <= items[j].at
  }

  lemma FreshStep(items: seq<Item>, cutoff: int, i: nat)
    requires i < |items|
    ensures Fresh(items[..i + 1], cutoff) == Fresh(items[..i], cutoff) + if items[i].at < cutoff then [] else [items[i]]
    ensures Results(Fresh(items[..i + 1], cutoff)) ==
      Results(Fresh(items[..i], cutoff)) + if items[i].at < cutoff then [] else [items[i].result]
  {
    assert items[..i + 1][..i] == items[..i];
  }

  lemma {:induction false} AllStale(items: seq<Item>, cutoff: int)
    requires forall i :: 0 <= i < |items| ==> items[i].at < cutoff
    ensures Fresh(items, cutoff) == []
  {
    if items != [] {
      AllStale(items[..|items| - 1], cutoff);
    }
  }

  lemma {:induction false} FreshHas(items: seq<Item>, cutoff: int)
    ensures forall it :: it in Fresh(items, cutoff) <==> it in items && it.at >= cutoff
  {
    if items != [] {
      var n := |items| - 1;
      FreshHas(items[..n], cutoff);
      assert items == items[..n] + [items[n]];
    }
  }

  /** Where the stale prefix ends. */
  ghost predicate Splits(items: seq<Item>, cutoff: int, k: nat) {
    && k <= |items|
    && (forall i :: 0 <= i < k ==> items[i].at < cutoff)
    && (forall i :: k <= i < |items| ==> items[i].at >= cutoff)
  }

  lemma {:induction false} FreshAfterSplit(items: seq<Item>, cutoff: int, k: nat)
    requires Splits(items, cutoff, k)
    ensures Fresh(items, cutoff) == items[k..]
  {
    if k == |items| {
      AllStale(items, cutoff);
    } else {
      var n := |items| - 1;
      FreshAfterSplit(items[..n], cutoff, k);
      assert items[..n][k..] + [items[n]] == items[k..];
    }
  }

  /** Items in time order have a stale prefix and a fresh suffix. */
  lemma {:induction false} SplitExists(items: seq<Item>, cutoff: int) returns (k: nat)
    requires InOrder(items)
    ensures Splits(items, cutoff, k)
  {
    k := |items|;
    while k > 0 && items[k - 1].at >= cutoff
      invariant k <= |items|
      invariant forall i :: k <= i < |items| ==> items[i].at >= cutoff
    {
      k := k - 1;
    }
  }

  function Later(a: nat, b: nat): nat {
    if a >= b then a else b
  }

  lemma FreshOfSuffix(added: seq<Item>, cutoff: int, k: nat, e: nat)
    requires Splits(added, cutoff, k) && e <= |added|
    ensures Fresh(added[e..], cutoff) == added[Later(e, k)..]
  {
    var m := Later(e, k);
    FreshAfterSplit(added[e..], cutoff, m - e);
    assert added[e..][m - e..] == added[m..];
  }

  /** Of all that was ever added, what is from d on is kept; what is not is stale, or beyond the bound. */
  ghost predicate KeptFrom(d: nat, added: seq<Item>, maxN: nat, pruned: int) {
    && d <= |added| <= d + maxN
    && (d > 0 && |added| < d + maxN ==> added[d - 1].at < pruned)
  }

  ghost predicate Keeps(items: seq<Item>, added: seq<Item>, maxN: nat, pruned: int) {
    && |items| <= |added|
    && items == added[|added| - |items|..]
    && KeptFrom(|added| - |items|, added, maxN, pruned)
  }

  /** Earlier prunes, at whatever times, removed nothing that a later one would have kept. */
  lemma RecentIsExact(items: seq<Item>, added: seq<Item>, maxN: nat, pruned: int, cutoff: int) returns (m: nat)
    requires Keeps(items, added, maxN, pruned) && InOrder(added) && pruned <= cutoff
    ensures IsFreshPart(Fresh(items, cutoff), added, maxN, cutoff, m)
  {
    m := MeetAtSplit(added, maxN, pruned, cutoff, |added| - |items|);
  }

  lemma FreshIsKept(items: seq<Item>, added: seq<Item>, maxN: nat, pruned: int, cutoff: int)
    requires Keeps(items, added, maxN, pruned) && InOrder(added) && pruned <= cutoff
    ensures Keeps(Fresh(items, cutoff), added, maxN, cutoff)
  {
    var m := MeetAtSplit(added, maxN, pruned, cutoff, |added| - |items|);
    assert |added[m..]| == |added| - m;
  }

  /** `part` is what was added from m on: of the last maxN, all that is not older than the cutoff. */
  ghost predicate IsFreshPart(part: seq<Item>, added: seq<Item>, maxN: nat, cutoff: int, m: nat) {
    && m <= |added| <= m + maxN
    && part == added[m..]
    && (forall i :: m <= i < |added| ==> added[i].at >= cutoff)
    && (forall i :: 0 <= i < m && |added| - maxN <= i ==> added[i].at < cutoff)
  }

  /** How many are beyond the bound. */
  function Beyond(added: seq<Item>, maxN: nat): (e: nat)
    ensures e <= |added|
  {
    if |added| <= maxN then 0 else |added| - maxN
  }

  lemma MeetAtSplit(added: seq<Item>, maxN: nat, pruned: int, cutoff: int, d: nat) returns (m: nat)
    requires InOrder(added) && KeptFrom(d, added, maxN, pruned) && pruned <= cutoff
    ensures m <= |added| && Fresh(added[d..], cutoff) == added[m..] == Fresh(added[Beyond(added, maxN)..], cutoff)
    ensures KeptFrom(m, added, maxN, cutoff)
    ensures IsFreshPart(Fresh(added[d..], cutoff), added, maxN, cutoff, m)
  {
    var e := Beyond(added, maxN);
    var k := SplitExists(added, cutoff);
    m := Later(d, k);
    FreshOfSuffix(added, cutoff, k, d);
    FreshOfSuffix(added, cutoff, k, e);
    KeptFromLater(added, maxN, pruned, cutoff, d, k);
  }

  lemma KeptFromLater(added: seq<Item>, maxN: nat, pruned: int, cutoff: int, d: nat, k: nat)
    requires KeptFrom(d, added, maxN, pruned) && Splits(added, cutoff, k) && pruned <= cutoff
    ensures KeptFrom(Later(d, k), added, maxN, cutoff)
    ensures Later(d, k) == Later(Beyond(added, maxN), k)
  {
  }

  lemma KeepsAdded(items: seq<Item>, added: seq<Item>, maxN: nat, pruned: int, it: Item)
    requires Keeps(items, added, maxN, pruned) && maxN > 0
    ensures Keeps(LastN(items + [it], maxN), added + [it], maxN, pruned)
  {
    var d, all := |added| - |items|, added + [it];
    assert items + [it] == all[d..];
    if |items| == maxN {
      assert all[d..][1..] == all[d + 1..];
    }
  }

  // ---- the object ----

  class Outbox {
    /** The slice is buf[off..off + len]; `items` is what it holds. */
    var buf: array<Item>
    var off: nat
    var len: nat
    const maxN: nat
    const maxAge: int
    ghost var items: seq<Item>

    ghost predicate Valid()
      reads this, buf
    {
      && off + len <= buf.Length
      && |items| == len
      && forall i :: 0 <= i < len ==> buf[off + i] == items[i]
    }

    constructor (maxN: int, maxAge: int)
      ensures Valid() && fresh(buf) && items == []
      ensures this.maxN == (if maxN <= 0 then 2048 else maxN) && this.maxAge == maxAge
    {
      this.maxN := if maxN <= 0 then DEFAULT_MAX else maxN;
      this.maxAge := maxAge;
      buf := new Item[0];
      off, len, items := 0, 0, [];
    }

    /** append: in place while the backing array has room, into a larger copy otherwise. */
    method Append(it: Item)
      requires Valid()
      modifies this, buf
      ensures Valid() && items == old(items) + [it]
      ensures buf == old(buf) || fresh(buf)
    {
      if off + len == buf.Length {
        var bigger := new Item[2 * len + 1](_ => it);
        for i := 0 to len
          invariant forall j :: 0 <= j < i ==> bigger[j] == items[j]
          invariant bigger[len] == it
          modifies bigger
        {
          bigger[i] := buf[off + i];
        }
        buf, off := bigger, 0;
      } else {
        buf[off + len] := it;
      }
      len, items := len + 1, items + [it];
    }

    method Add(sr: ResultContent, now: int)
      requires Valid()
      modifies this, buf
      ensures Valid() && items == LastN(old(items) + [Item(sr, now)], maxN)
      ensures buf == old(buf) || fresh(buf)
    {
      Append(Item(sr, now));
      if len > maxN {
        var cut := len - maxN;
        items := items[cut..];
        off, len := off + cut, maxN;
      }
    }

    /** Drops the stale items; what is returned is what is left. */
    method Recent(now: int) returns (out: seq<ResultContent>)
      requires Valid()
      modifies this, buf
      ensures Valid() && items == Fresh(old(items), now - maxAge) && buf == old(buf)
      ensures out == Results(items)
      ensures forall it :: it in items <==> it in old(items) && it.at >= now - maxAge
      ensures |out| == |items| && forall i :: 0 <= i < |out| ==> out[i] == items[i].result
    {
      FreshHas(items, now - maxAge);
      var n;
      out, n := Sweep(now - maxAge);
      len, items := n, Fresh(items, now - maxAge);
    }

    /** Writes each kept item over the slots already read. */
    method Sweep(cutoff: int) returns (out: seq<ResultContent>, n: nat)
      requires Valid()
      modifies buf
      ensures n == |Fresh(items, cutoff)| <= len && out == Results(Fresh(items, cutoff))
      ensures forall j :: 0 <= j < n ==> buf[off + j] == Fresh(items, cutoff)[j]
    {
      ghost var kept: seq<Item> := [];
      out, n := [], 0;
      for i := 0 to len
        invariant n == |kept| <= i
        invariant kept == Fresh(items[..i], cutoff) && out == Results(kept)
        invariant forall j :: i <= j < len ==> buf[off + j] == items[j]
        invariant forall j :: 0 <= j < n ==> buf[off + j] == kept[j]
      {
        FreshStep(items, cutoff, i);
        var it := buf[off + i];
        if !(it.at < cutoff) {
          buf[off + n] := it;
          n, kept := n + 1, kept + [it];
          out := out + [it.result];
        }
      }
      assert items[..len] == items;
    }
  }

  // ---- every run ----

  datatype Op = Adding(result: ResultContent, at: int) | Listing(at: int)

  /** What a call leaves, as `Outbox.Add` and `Outbox.Recent` say. */
  function After(items: seq<Item>, op: Op, maxN: nat, maxAge: int): seq<Item> {
    match op
    case Adding(r, at) => LastN(items + [Item(r, at)], maxN)
    case Listing(at) => Fresh(items, at - maxAge)
  }

  function Left(ops: seq<Op>, maxN: nat, maxAge: int): seq<Item> {
    if ops == [] then [] else After(Left(ops[..|ops| - 1], maxN, maxAge), ops[|ops| - 1], maxN, maxAge)
  }

  function Recorded(added: seq<Item>, op: Op): seq<Item> {
    if op.Adding? then added + [Item(op.result, op.at)] else added
  }

  function AllAdded(ops: seq<Op>): seq<Item> {
    if ops == [] then [] else Recorded(AllAdded(ops[..|ops| - 1]), ops[|ops| - 1])
  }

  /** The clock does not run back, and has not passed `now`. */
  ghost predicate Clocked(ops: seq<Op>, now: int) {
    && (forall i, j :: 0 <= i < j < |ops| ==> ops[i].at <= ops[j].at)
    && (forall i :: 0 <= i < |ops| ==> ops[i].at <= now)
  }

  lemma {:induction false} AddedInOrder(ops: seq<Op>, now: int)
    requires Clocked(ops, now)
    ensures InOrder(AllAdded(ops))
    ensures forall i :: 0 <= i < |AllAdded(ops)| ==> AllAdded(ops)[i].at <= now
  {
    if ops != [] {
      AddedInOrder(ops[..|ops| - 1], ops[|ops| - 1].at);
    }
  }

  lemma {:induction false} LeftKeeps(ops: seq<Op>, maxN: nat, maxAge: int, now: int)
    requires Clocked(ops, now) && maxN > 0
    ensures Keeps(Left(ops, maxN, maxAge), AllAdded(ops), maxN, now - maxAge)
  {
    if ops != [] {
      var init, op := ops[..|ops| - 1], ops[|ops| - 1];
      ClockedBefore(ops, now);
      LeftKeeps(init, maxN, maxAge, op.at);
      AddedInOrder(init, op.at);
      if op.Adding? {
        OneMoreAdd(Left(init, maxN, maxAge), AllAdded(init), op, maxN, maxAge, op.at - maxAge);
      } else {
        OneMoreList(Left(init, maxN, maxAge), AllAdded(init), op, maxN, maxAge);
      }
      KeepsLater(Left(ops, maxN, maxAge), AllAdded(ops), maxN, op.at - maxAge, now - maxAge);
    }
  }

  lemma ClockedBefore(ops: seq<Op>, now: int)
    requires Clocked(ops, now) && ops != []
    ensures Clocked(ops[..|ops| - 1], ops[|ops| - 1].at) && ops[|ops| - 1].at <= now
  {
  }

  lemma OneMoreAdd(items: seq<Item>, added: seq<Item>, op: Op, maxN: nat, maxAge: int, pruned: int)
    requires op.Adding? && maxN > 0 && Keeps(items, added, maxN, pruned)
    ensures Keeps(After(items, op, maxN, maxAge), Recorded(added, op), maxN, pruned)
  {
    KeepsAdded(items, added, maxN, pruned, Item(op.result, op.at));
  }

  lemma OneMoreList(items: seq<Item>, added: seq<Item>, op: Op, maxN: nat, maxAge: int)
    requires op.Listing? && InOrder(added) && Keeps(items, added, maxN, op.at - maxAge)
    ensures Keeps(After(items, op, maxN, maxAge), Recorded(added, op), maxN, op.at - maxAge)
  {
    FreshIsKept(items, added, maxN, op.at - maxAge, op.at - maxAge);
  }

  lemma KeepsLater(items: seq<Item>, added: seq<Item>, maxN: nat, pruned: int, later: int)
    requires Keeps(items, added, maxN, pruned) && pruned <= later
    ensures Keeps(items, added, maxN, later)
  {
  }

  /**
   After any mix of calls, `Recent` returns exactly, in order, the results that are among the last
   maxN ever added and not older than maxAge, although stale ones were pruned at arbitrary times.
   */
  lemma RecentReturnsExactly(ops: seq<Op>, maxN: nat, maxAge: int, now: int) returns (m: nat)
    requires Clocked(ops, now) && maxN > 0
    ensures IsFreshPart(Fresh(Left(ops, maxN, maxAge), now - maxAge), AllAdded(ops), maxN, now - maxAge, m)
    ensures |Left(ops, maxN, maxAge)| <= maxN
  {
    LeftKeeps(ops, maxN, maxAge, now);
    AddedInOrder(ops, now);
    m := RecentIsExact(Left(ops, maxN, maxAge), AllAdded(ops), maxN, now - maxAge, now - maxAge);
  }
}
