/**
 The alert delivery protocol of one rule version across the mesh, as a state machine:
 every hub evaluates by itself, notifies, records and gossips; claims may be delayed,
 repeated, reordered or lost, sends may fail, and hubs come and go.
 */
module AlertMesh {
  import opened Ids
  import opened Protocol
  import opened Ranking
  import opened Responsibility
  import opened AlertStore
  import opened AlertEngine

  datatype Config = Config(score: Hash, key: string, recipients: set<Id>)

  /**
   `live` is the set of live hubs; `known` each hub's delivery state; `wire` the claims ever
   gossiped; `inflight` the notifications under way; `log` the notifications sent.
   */
  datatype Mesh = Mesh(
    live: set<Id>,
    known: map<Id, ByHub>,
    wire: set<Delivery>,
    inflight: map<Id, Status>,
    log: seq<Delivery>)

  datatype Step =
    | Begin(h: Id, seen: set<Id>, observed: Status)  // evaluate and start a notification
    | Sent(h: Id, ts: int)                           // it succeeded: record and gossip
    | Failed(h: Id)                                  // it did not: record nothing
    | Rebroadcast(h: Id)                             // gossip the hub's own claim again
    | Hear(h: Id, d: Delivery, now: int)             // a gossiped claim arrives
    | LiveChange(live: set<Id>)

  ghost function Known(m: Mesh, h: Id): ByHub {
    if h in m.known then m.known[h] else map[]
  }

  ghost predicate Init(m: Mesh) {
    m.known == map[] && m.wire == {} && m.inflight == map[] && m.log == []
  }

  ghost function Started(m: Mesh, h: Id, observed: Status): Mesh {
    m.(inflight := m.inflight[h := observed])
  }

  /** The hub records its send and gossips it. */
  ghost function Recorded(m: Mesh, h: Id, ts: int): Mesh
    requires h in m.inflight
  {
    var d := Delivery(m.inflight[h], h, ts);
    m.(known := m.known[h := Merge(Known(m, h), d)], wire := m.wire + {d},
       inflight := m.inflight - {h}, log := m.log + [d])
  }

  ghost predicate Next(c: Config, m: Mesh, s: Step, m': Mesh) {
    match s
    case Begin(h, seen, observed) =>
      && h !in m.inflight && observed != Degraded
      && MaySend(c.score, h, c.key, c.recipients, seen, Known(m, h), observed)
      && m' == Started(m, h, observed)
    case Sent(h, ts) =>
      h in m.inflight && m' == Recorded(m, h, ts)
    case Failed(h) =>
      h in m.inflight && m' == m.(inflight := m.inflight - {h})
    case Rebroadcast(h) =>
      m' == if h in Known(m, h) then m.(wire := m.wire + {Known(m, h)[h]}) else m
    case Hear(h, d, now) =>
      && d in m.wire
      && m' == if d.HubID in c.recipients && d.TimestampMS <= now + DELIVERY_CLOCK_SKEW_MS
               then m.(known := m.known[h := Merge(Known(m, h), d)]) else m
    case LiveChange(live) =>
      m' == m.(live := live)
  }

  ghost predicate IsRun(c: Config, ms: seq<Mesh>, ss: seq<Step>) {
    && |ms| == |ss| + 1 && Init(ms[0])
    && forall i :: 0 <= i < |ss| ==> Next(c, ms[i], ss[i], ms[i + 1])
  }

  // ---- provenance: with honest hubs no claim is invented, in any run ----

  ghost predicate Honest(c: Config, m: Mesh) {
    && (forall h :: h in m.inflight ==> h in c.recipients)
    && (forall d :: d in m.wire ==> d in m.log && d.HubID in c.recipients)
    && (forall d :: d in m.log ==> d.HubID in c.recipients)
    && (forall h, r :: r in Known(m, h) ==> IssuedBy(c, m.log, Known(m, h), r))
  }

  /** The claim filed under r is r's own, r is a recipient, and the send took place. */
  ghost predicate IssuedBy(c: Config, log: seq<Delivery>, state: ByHub, r: Id) {
    r in state && state[r].HubID == r && r in c.recipients && state[r] in log
  }

  lemma StepStaysHonest(c: Config, m: Mesh, s: Step, m': Mesh)
    requires Honest(c, m) && Next(c, m, s, m')
    ensures Honest(c, m') && m.log <= m'.log
  {
    if s.Rebroadcast? && s.h in Known(m, s.h) {
      assert IssuedBy(c, m.log, Known(m, s.h), s.h);
    }
    forall h, r | r in Known(m', h)
      ensures IssuedBy(c, m'.log, Known(m', h), r)
    {
      if r in Known(m, h) {
        assert IssuedBy(c, m.log, Known(m, h), r);
      }
    }
  }

  /** Every delivery state anywhere in the mesh is an earlier successful send of the recipient it names. */
  lemma {:induction false} EveryClaimWasSent(c: Config, ms: seq<Mesh>, ss: seq<Step>, i: nat)
    requires IsRun(c, ms, ss) && i < |ms|
    ensures Honest(c, ms[i])
  {
    if i > 0 {
      EveryClaimWasSent(c, ms, ss, i - 1);
      StepStaysHonest(c, ms[i - 1], ss[i - 1], ms[i]);
    }
  }

  /** A change is suppressed only if a recipient already notified that status (or it is the initial "up"). */
  lemma SuppressedOnlyIfSent(c: Config, ms: seq<Mesh>, ss: seq<Step>, i: nat, h: Id, observed: Status)
    requires IsRun(c, ms, ss) && i < |ms|
    requires IsDelivered(Known(ms[i], h), c.recipients, observed)
    ensures observed == Up || exists d :: d in ms[i].log && d.HubID in c.recipients && d.Status == observed
  {
    EveryClaimWasSent(c, ms, ss, i);
    if r :| IsNewestClaim(Known(ms[i], h), c.recipients, r) && Known(ms[i], h)[r].Status == observed {
      assert IssuedBy(c, ms[i].log, Known(ms[i], h), r);
    }
  }

  /** h hears of nothing and finishes nothing in steps i to j - 1. */
  ghost predicate Waits(ss: seq<Step>, i: nat, j: nat, h: Id)
    requires j <= |ss|
  {
    forall k :: i <= k < j ==>
      match ss[k]
      case Begin(g, _, _) => g != h
      case Sent(g, _) => g != h
      case Failed(g) => g != h
      case Hear(g, _, _) => g != h
      case _ => true
  }

  lemma {:induction false} WaitingChangesNothing(c: Config, ms: seq<Mesh>, ss: seq<Step>, i: nat, j: nat, h: Id)
    requires IsRun(c, ms, ss) && i <= j <= |ss| && Waits(ss, i, j, h)
    ensures Known(ms[j], h) == Known(ms[i], h)
    ensures h in ms[j].inflight <==> h in ms[i].inflight
  {
    if i < j {
      WaitingChangesNothing(c, ms, ss, i, j - 1, h);
      assert Next(c, ms[j - 1], ss[j - 1], ms[j - 1 + 1]);
    }
  }

  /**
   A failed send loses nothing: when it has failed, whatever the rest of the mesh did meanwhile, the
   same evaluation may start again.
   */
  lemma FailureIsRetried(c: Config, ms: seq<Mesh>, ss: seq<Step>, i: nat, j: nat, h: Id, seen: set<Id>, observed: Status)
    requires IsRun(c, ms, ss) && i < j < |ss|
    requires ss[i] == Begin(h, seen, observed) && Waits(ss, i + 1, j, h) && ss[j] == Failed(h)
    ensures Next(c, ms[j + 1], Begin(h, seen, observed), Started(ms[j + 1], h, observed))
  {
    assert Next(c, ms[i], ss[i], ms[i + 1]) && Next(c, ms[j], ss[j], ms[j + 1]);
    WaitingChangesNothing(c, ms, ss, i + 1, j, h);
  }

  /** One engine pass over the rule is a skip, or a Begin followed by its outcome. */
  lemma PassIsRun(c: Config, m: Mesh, rule: AlertRule, h: Id, live: set<Id>, observed: Status,
                  after: ByHub, reachable: bool, ts: int)
    requires rule.ID == c.key && rule.Recipients.Keys == c.recipients
    requires h !in m.inflight && observed != Degraded
    requires Evaluated(c.score, h, rule, live, Some(observed), Known(m, h), after, reachable, ts)
    ensures (after == Known(m, h) && MaySkip(c.score, h, c.key, c.recipients, live, Known(m, h), observed)) ||
      exists m1, m2, s :: Next(c, m, Begin(h, live, observed), m1) && Next(c, m1, s, m2) &&
        s == (if reachable then Sent(h, ts) else Failed(h)) && Known(m2, h) == after
  {
    if !(after == Known(m, h) && MaySkip(c.score, h, c.key, c.recipients, live, Known(m, h), observed)) {
      var m1 := Started(m, h, observed);
      var m2 := if reachable then Recorded(m1, h, ts) else m1.(inflight := m1.inflight - {h});
      assert Next(c, m, Begin(h, live, observed), m1);
      assert Next(c, m1, if reachable then Sent(h, ts) else Failed(h), m2);
    }
  }

  // ---- no duplicate notifications ----

  ghost function LastStatus(log: seq<Delivery>): Status {
    if log == [] then Up else log[|log| - 1].Status
  }

  /** Down, up, down, ... */
  ghost predicate Alternates(log: seq<Delivery>) {
    forall i :: 0 <= i < |log| ==> log[i].Status == if i % 2 == 0 then Down else Up
  }

  ghost predicate IncreasingTimes(log: seq<Delivery>) {
    forall i, j :: 0 <= i < j < |log| ==> log[i].TimestampMS < log[j].TimestampMS
  }

  /** Hub w holds the claim of the last notification sent. */
  ghost predicate UpToDate(m: Mesh, w: Id) {
    m.log != [] ==>
      var last := m.log[|m.log| - 1];
      last.HubID in Known(m, w) && Known(m, w)[last.HubID] == last
  }

  ghost predicate Winner(c: Config, live: set<Id>, w: Id) {
    Wins(c.score, c.key, c.recipients * live, w)
  }

  /** A new responsible hub takes over only when nothing is under way and it has heard of the last send. */
  ghost predicate Handoff(c: Config, m: Mesh, live: set<Id>) {
    forall w :: Winner(c, live, w) ==>
      Winner(c, m.live, w) || (m.inflight == map[] && UpToDate(m, w))
  }

  /** Live views agree, send times increase, and responsibility is handed over cleanly. */
  ghost predicate Careful(c: Config, m: Mesh, s: Step) {
    match s
    case Begin(h, seen, _) => h in m.live && seen == m.live
    case Sent(_, ts) => forall d :: d in m.log ==> d.TimestampMS < ts
    case LiveChange(live) => Handoff(c, m, live)
    case _ => true
  }

  ghost predicate CarefulRun(c: Config, ms: seq<Mesh>, ss: seq<Step>) {
    IsRun(c, ms, ss) && forall i :: 0 <= i < |ss| ==> Careful(c, ms[i], ss[i])
  }

  ghost predicate Settled(c: Config, m: Mesh) {
    && IncreasingTimes(m.log)
    && Alternates(m.log)
    && (forall w :: Winner(c, m.live, w) ==> UpToDate(m, w) && m.inflight.Keys <= {w})
    && (forall g, h :: g in m.inflight && h in m.inflight ==> g == h)
    && (forall h :: h in m.inflight ==> m.inflight[h] != Degraded && m.inflight[h] != LastStatus(m.log))
  }

  /** An up-to-date hub takes for delivered exactly what was sent last. */
  lemma UpToDateKnowsLast(c: Config, m: Mesh, w: Id, st: Status)
    requires Honest(c, m) && Settled(c, m) && UpToDate(m, w)
    requires IsDelivered(Known(m, w), c.recipients, st)
    ensures st == LastStatus(m.log)
  {
    if m.log == [] {
      assert forall r :: r in Known(m, w) ==> IssuedBy(c, m.log, Known(m, w), r);
    } else {
      var last := m.log[|m.log| - 1];
      assert last in m.log;
      var r :| IsNewestClaim(Known(m, w), c.recipients, r) && Known(m, w)[r].Status == st;
      assert IssuedBy(c, m.log, Known(m, w), r);
      var i :| 0 <= i < |m.log| && m.log[i] == Known(m, w)[r];
      assert last.TimestampMS <= m.log[i].TimestampMS;
    }
  }

  lemma DeliveredIsUnique(c: Config, m: Mesh, h: Id, st: Status, su: Status)
    requires Honest(c, m) && IncreasingTimes(m.log)
    requires IsDelivered(Known(m, h), c.recipients, st) && IsDelivered(Known(m, h), c.recipients, su)
    ensures st == su
  {
    var s := Known(m, h);
    if r, q :| IsNewestClaim(s, c.recipients, r) && s[r].Status == st && IsNewestClaim(s, c.recipients, q) && s[q].Status == su {
      assert IssuedBy(c, m.log, s, r) && IssuedBy(c, m.log, s, q);
      var i :| 0 <= i < |m.log| && m.log[i] == s[r];
      var j :| 0 <= j < |m.log| && m.log[j] == s[q];
      assert i == j;
    }
  }

  lemma AlternatesAppend(log: seq<Delivery>, d: Delivery)
    requires Alternates(log)
    ensures LastStatus(log) == if |log| % 2 == 0 then Up else Down
    ensures Alternates(log + [d]) <==> d.Status != Degraded && d.Status != LastStatus(log)
  {
    assert (log + [d])[|log|] == d;
  }

  // ---- when the log alternates, in any run ----

  lemma {:induction false} NeverDegraded(c: Config, ms: seq<Mesh>, ss: seq<Step>, i: nat)
    requires IsRun(c, ms, ss) && i < |ms|
    ensures forall d :: d in ms[i].log ==> d.Status != Degraded
    ensures forall h :: h in ms[i].inflight ==> ms[i].inflight[h] != Degraded
  {
    if i > 0 {
      NeverDegraded(c, ms, ss, i - 1);
      assert Next(c, ms[i - 1], ss[i - 1], ms[i - 1 + 1]);
    }
  }

  lemma {:induction false} LogGrows(c: Config, ms: seq<Mesh>, ss: seq<Step>, i: nat, j: nat)
    requires IsRun(c, ms, ss) && i <= j < |ms|
    ensures ms[i].log <= ms[j].log
  {
    if i < j {
      LogGrows(c, ms, ss, i, j - 1);
      StepLogGrows(c, ms[j - 1], ss[j - 1], ms[j - 1 + 1]);
    }
  }

  lemma StepLogGrows(c: Config, m: Mesh, s: Step, m': Mesh)
    requires Next(c, m, s, m')
    ensures m.log <= m'.log
  {
  }

  /** The step at which h began what is under way after step n - 1. */
  ghost function BeganAt(ss: seq<Step>, n: nat, h: Id): Option<nat>
    requires n <= |ss|
  {
    if n == 0 then None
    else if ss[n - 1].Begin? && ss[n - 1].h == h then Some(n - 1)
    else BeganAt(ss, n - 1, h)
  }

  lemma {:induction false} InflightBegan(c: Config, ms: seq<Mesh>, ss: seq<Step>, n: nat, h: Id)
    requires IsRun(c, ms, ss) && n < |ms| && h in ms[n].inflight
    ensures var b := BeganAt(ss, n, h);
      b.Some? && b.value < n && ss[b.value].Begin? && ss[b.value].h == h && ss[b.value].observed == ms[n].inflight[h]
  {
    assert Next(c, ms[n - 1], ss[n - 1], ms[n - 1 + 1]);
    if !(ss[n - 1].Begin? && ss[n - 1].h == h) {
      InflightBegan(c, ms, ss, n - 1, h);
    }
  }

  /** The sender of step k began on what turned out to be the last status sent before its own. */
  ghost predicate BeganOnLast(c: Config, ms: seq<Mesh>, ss: seq<Step>, k: nat)
    requires |ms| == |ss| + 1 && k < |ss| && ss[k].Sent?
  {
    var b := BeganAt(ss, k, ss[k].h);
    b.Some? && b.value < |ms| && IsDelivered(Known(ms[b.value], ss[k].h), c.recipients, LastStatus(ms[k].log))
  }

  /** A send differs from the last status sent exactly when its sender took that for delivered as it began. */
  lemma SendDiffersExactly(c: Config, ms: seq<Mesh>, ss: seq<Step>, k: nat)
    requires IsRun(c, ms, ss) && k < |ss| && ss[k].Sent? && IncreasingTimes(ms[k].log)
    ensures ss[k].h in ms[k].inflight
    ensures ms[k].inflight[ss[k].h] != LastStatus(ms[k].log) <==> BeganOnLast(c, ms, ss, k)
  {
    var h := ss[k].h;
    assert Next(c, ms[k], ss[k], ms[k + 1]);
    InflightBegan(c, ms, ss, k, h);
    NeverDegraded(c, ms, ss, k);
    var b := BeganAt(ss, k, h).value;
    assert Next(c, ms[b], ss[b], ms[b + 1]);
    LogGrows(c, ms, ss, b, k);
    EveryClaimWasSent(c, ms, ss, b);
    var st :| IsDelivered(Known(ms[b], h), c.recipients, st) && st != ss[b].observed;
    NeverDegraded(c, ms, ss, b);
    DeliveredIsNotDegraded(c, ms[b], h, st);
    if IsDelivered(Known(ms[b], h), c.recipients, LastStatus(ms[k].log)) {
      DeliveredIsUnique(c, ms[b], h, st, LastStatus(ms[k].log));
    }
  }

  lemma DeliveredIsNotDegraded(c: Config, m: Mesh, h: Id, st: Status)
    requires Honest(c, m) && (forall d :: d in m.log ==> d.Status != Degraded)
    requires IsDelivered(Known(m, h), c.recipients, st)
    ensures st != Degraded
  {
    if r :| IsNewestClaim(Known(m, h), c.recipients, r) && Known(m, h)[r].Status == st {
      assert IssuedBy(c, m.log, Known(m, h), r);
    }
  }

  /**
   In any run with increasing send times, careful or not, the notifications alternate if and only if
   every sender began on what was to be the last status sent before its own; one that has not heard of
   it, or is overtaken, repeats it.
   */
  lemma {:induction false} AlternatesExactly(c: Config, ms: seq<Mesh>, ss: seq<Step>, n: nat)
    requires IsRun(c, ms, ss) && n < |ms| && IncreasingTimes(ms[n].log)
    ensures Alternates(ms[n].log) <==> forall k: nat :: k < n && ss[k].Sent? ==> BeganOnLast(c, ms, ss, k)
  {
    if n > 0 {
      var k := n - 1;
      assert Next(c, ms[k], ss[k], ms[k + 1]);
      LogGrows(c, ms, ss, k, n);
      AlternatesExactly(c, ms, ss, k);
      if ss[k].Sent? {
        SendDiffersExactly(c, ms, ss, k);
        NeverDegraded(c, ms, ss, k);
        LastOfLog(ms[k].log, Delivery(ms[k].inflight[ss[k].h], ss[k].h, ss[k].ts));
      }
    }
  }

  lemma LastOfLog(log: seq<Delivery>, d: Delivery)
    ensures Alternates(log + [d]) <==> Alternates(log) && d.Status != Degraded && d.Status != LastStatus(log)
  {
    if Alternates(log + [d]) {
      forall i | 0 <= i < |log|
        ensures log[i].Status == if i % 2 == 0 then Down else Up
      {
        assert (log + [d])[i] == log[i];
      }
    }
    if Alternates(log) {
      AlternatesAppend(log, d);
    }
  }

  lemma WinnerIsUnique(c: Config, live: set<Id>, v: Id, w: Id)
    requires Winner(c, live, v) && Winner(c, live, w)
    ensures v == w
  {
    ExactlyOneWinner(c.score, c.key, c.recipients * live);
  }

  /** The responsible hub starts only when nothing is under way, and never what was sent last. */
  lemma BeginIsFresh(c: Config, m: Mesh, s: Step, m': Mesh)
    requires Honest(c, m) && Settled(c, m) && Next(c, m, s, m') && Careful(c, m, s) && s.Begin?
    ensures Winner(c, m.live, s.h) && m.inflight == map[]
    ensures s.observed != LastStatus(m.log)
  {
    assert s.seen + {s.h} == m.live;
    assert Winner(c, m.live, s.h);
    var st :| IsDelivered(Known(m, s.h), c.recipients, st) && st != s.observed;
    UpToDateKnowsLast(c, m, s.h, st);
    assert m.inflight.Keys <= {s.h} && s.h !in m.inflight.Keys;
  }

  lemma BeginStaysSettled(c: Config, m: Mesh, s: Step, m': Mesh)
    requires Honest(c, m) && Settled(c, m) && Next(c, m, s, m') && Careful(c, m, s) && s.Begin?
    ensures Settled(c, m')
  {
    BeginIsFresh(c, m, s, m');
    assert m'.inflight == map[s.h := s.observed] && m'.log == m.log;
    forall w | Winner(c, m'.live, w)
      ensures UpToDate(m', w) && m'.inflight.Keys <= {w}
    {
      WinnerIsUnique(c, m.live, w, s.h);
      assert UpToDate(m, w);
    }
  }

  lemma SentStaysSettled(c: Config, m: Mesh, s: Step, m': Mesh)
    requires Honest(c, m) && Settled(c, m) && Next(c, m, s, m') && Careful(c, m, s) && s.Sent?
    ensures Settled(c, m')
  {
    var d := Delivery(m.inflight[s.h], s.h, s.ts);
    forall w | Winner(c, m'.live, w)
      ensures UpToDate(m', w) && m'.inflight.Keys <= {w}
    {
      assert s.h in m.inflight.Keys && w == s.h;
      if s.h in Known(m, s.h) {
        assert IssuedBy(c, m.log, Known(m, s.h), s.h);
      }
    }
    assert forall i :: 0 <= i < |m.log| ==> m.log[i] in m.log;
  }

  lemma HearStaysSettled(c: Config, m: Mesh, s: Step, m': Mesh)
    requires Honest(c, m) && Settled(c, m) && Next(c, m, s, m') && s.Hear?
    ensures Settled(c, m')
  {
    assert s.d in m.log;
    var k :| 0 <= k < |m.log| && m.log[k] == s.d;
    forall w | Winner(c, m'.live, w)
      ensures UpToDate(m', w)
    {
      assert Winner(c, m.live, w) && UpToDate(m, w);
    }
  }

  lemma StepStaysSettled(c: Config, m: Mesh, s: Step, m': Mesh)
    requires Honest(c, m) && Settled(c, m) && Next(c, m, s, m') && Careful(c, m, s)
    ensures Settled(c, m')
  {
    match s
    case Begin(_, _, _) => BeginStaysSettled(c, m, s, m');
    case Sent(_, _) => SentStaysSettled(c, m, s, m');
    case Hear(_, _, _) => HearStaysSettled(c, m, s, m');
    case Failed(_) =>
      forall w | Winner(c, m'.live, w)
        ensures UpToDate(m', w) && m'.inflight.Keys <= {w}
      {
        assert Winner(c, m.live, w) && UpToDate(m, w);
      }
    case Rebroadcast(_) =>
      forall w | Winner(c, m'.live, w)
        ensures UpToDate(m', w) && m'.inflight.Keys <= {w}
      {
        assert Winner(c, m.live, w) && UpToDate(m, w);
      }
    case LiveChange(live) =>
      forall w | Winner(c, live, w)
        ensures UpToDate(m', w) && m'.inflight.Keys <= {w}
      {
        assert Winner(c, m.live, w) ==> UpToDate(m, w);
      }
  }

  /**
   The notifications sent across the whole mesh strictly alternate, starting with "down", and
   at most one is ever under way: no duplicates, through failures, failovers and gossip.
   */
  lemma {:induction false} NotificationsAlternate(c: Config, ms: seq<Mesh>, ss: seq<Step>, i: nat)
    requires CarefulRun(c, ms, ss) && i < |ms|
    ensures Settled(c, ms[i])
  {
    if i > 0 {
      NotificationsAlternate(c, ms, ss, i - 1);
      EveryClaimWasSent(c, ms, ss, i - 1);
      StepStaysSettled(c, ms[i - 1], ss[i - 1], ms[i]);
    }
  }

  ghost predicate RepeatsDown(log: seq<Delivery>) {
    |log| == 2 && log[0].Status == Down && log[1].Status == Down
  }

  /** A recipient that sees only itself and has heard of nothing may notify a "down". */
  lemma LoneRecipientSends(c: Config, h: Id, state: ByHub)
    requires h in c.recipients && state == map[]
    ensures MaySend(c.score, h, c.key, c.recipients, {h}, state, Down)
  {
    assert c.recipients * ({h} + {h}) == {h};
    assert IsDelivered(state, c.recipients, Up);
  }

  /** Without the handoff the same status can be notified twice: a failover before the gossip arrives. */
  lemma HastyFailoverDuplicates()
    ensures exists c, ms: seq<Mesh>, ss :: IsRun(c, ms, ss) && ms != [] && RepeatsDown(ms[|ms| - 1].log)
  {
    var c := Config((id, key) => 0, "rule", {"a", "b"});
    var m0 := Mesh({"a"}, map[], {}, map[], []);
    var ms, ss := LoneSend(c, [m0], [], "a", 1);
    var m := ms[|ms| - 1].(live := {"b"});
    Extend(c, ms, ss, LiveChange({"b"}), m);
    ms, ss := LoneSend(c, ms + [m], ss + [LiveChange({"b"})], "b", 2);
  }

  /** A live recipient that has heard of nothing notifies a "down". */
  lemma LoneSend(c: Config, ms: seq<Mesh>, ss: seq<Step>, h: Id, ts: int) returns (ms': seq<Mesh>, ss': seq<Step>)
    requires IsRun(c, ms, ss) && h in c.recipients
    requires var m := ms[|ms| - 1]; Known(m, h) == map[] && h !in m.inflight
    ensures IsRun(c, ms', ss')
    ensures ms'[|ms'| - 1] == Recorded(Started(ms[|ms| - 1], h, Down), h, ts)
  {
    var m := ms[|ms| - 1];
    var m1 := Started(m, h, Down);
    var m2 := Recorded(m1, h, ts);
    LoneRecipientSends(c, h, Known(m, h));
    Extend(c, ms, ss, Begin(h, {h}, Down), m1);
    Extend(c, ms + [m1], ss + [Begin(h, {h}, Down)], Sent(h, ts), m2);
    ms', ss' := ms + [m1] + [m2], ss + [Begin(h, {h}, Down)] + [Sent(h, ts)];
  }

  lemma Extend(c: Config, ms: seq<Mesh>, ss: seq<Step>, s: Step, m: Mesh)
    requires IsRun(c, ms, ss) && Next(c, ms[|ms| - 1], s, m)
    ensures IsRun(c, ms + [m], ss + [s])
  {
  }
}
