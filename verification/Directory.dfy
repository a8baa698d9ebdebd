/**
 hub/directory/directory.go: which peers a hub lists, and the verifier goroutines that decide
 it.  The functions are the critical sections; `Apply` interleaves them in every possible way.
 */
module Directory {
  import opened Ids
  import opened Protocol
  import opened Ranking
  import opened Sorting

  datatype Entry = Entry(
    verifiedAnn: HubAnnouncement,
    verified: bool,
    pendingAnn: HubAnnouncement,
    lastSeen: int)

  const NO_ANNOUNCEMENT := HubAnnouncement("", "", 0, false, 0)
  const FRESH := Entry(NO_ANNOUNCEMENT, false, NO_ANNOUNCEMENT, 0)

  /** The two maps under the directory's lock. */
  datatype Dir = Dir(entries: map<Id, Entry>, verifying: set<Id>)

  /** Nothing to check: the pending URL is the verified one. */
  predicate Settled(e: Entry) {
    e.verified && e.verifiedAnn.PublicURL == e.pendingAnn.PublicURL
  }

  function Refreshed(d: Dir, ann: HubAnnouncement, now: int): Dir {
    var e := if ann.HubID in d.entries then d.entries[ann.HubID] else FRESH;
    d.(entries := d.entries[ann.HubID := e.(pendingAnn := ann, lastSeen := now)])
  }

  /** The section of `Add`, and whether it starts a verifier. */
  function Added(selfID: Id, d: Dir, ann: HubAnnouncement, now: int): (Dir, bool) {
    if ann.HubID == selfID || ann.PublicURL == "" then (d, false)
    else
      var d' := Refreshed(d, ann, now);
      if Settled(d'.entries[ann.HubID]) || ann.HubID in d.verifying then (d', false)
      else (d'.(verifying := d.verifying + {ann.HubID}), true)
  }

  /** The first section of the verifier's loop: the URL to check, or none to stop. */
  function Picked(d: Dir, hub: Id): (Dir, Option<string>) {
    if hub !in d.entries || Settled(d.entries[hub]) then (d.(verifying := d.verifying - {hub}), None)
    else (d, Some(d.entries[hub].pendingAnn.PublicURL))
  }

  /** The second section, after the check of url, and whether the loop goes round again. */
  function Finished(d: Dir, hub: Id, url: string, ok: bool): (Dir, bool) {
    if hub !in d.entries then (d.(verifying := d.verifying - {hub}), false)
    else
      var e := d.entries[hub];
      if e.pendingAnn.PublicURL != url then (d, true)
      else
        var e' := if ok then e.(verifiedAnn := e.pendingAnn, verified := true)
                  else if e.verifiedAnn.PublicURL == url then e.(verified := false)
                  else e;
        (Dir(d.entries[hub := e'], d.verifying - {hub}), false)
  }

  function Evicted(d: Dir, cutoff: int): Dir {
    d.(entries := map h | h in d.entries && d.entries[h].lastSeen >= cutoff :: d.entries[h])
  }

  /** The announcements a hub is told about. */
  ghost predicate Serves(d: Dir, ann: HubAnnouncement) {
    exists h :: h in d.entries && d.entries[h].verified && d.entries[h].verifiedAnn == ann
  }

  ghost predicate SeenAfter(d: Dir, ann: HubAnnouncement, cutoff: int) {
    exists h :: h in d.entries && d.entries[h].verified && d.entries[h].verifiedAnn == ann && d.entries[h].lastSeen > cutoff
  }

  /** The announcement of a verified hub last heard from at the cutoff or later. */
  ghost predicate HeardSince(entries: map<Id, Entry>, ann: HubAnnouncement, cutoff: int) {
    exists h :: h in entries && entries[h].verified && entries[h].lastSeen >= cutoff && entries[h].verifiedAnn == ann
  }

  lemma ServedAfterEviction(d: Dir, ann: HubAnnouncement, cutoff: int)
    ensures Serves(Evicted(d, cutoff), ann) <==> HeardSince(d.entries, ann, cutoff)
  {
    if h :| h in d.entries && d.entries[h].verified && d.entries[h].lastSeen >= cutoff && d.entries[h].verifiedAnn == ann {
      assert h in Evicted(d, cutoff).entries;
    }
  }

  ghost predicate Named(d: Dir) {
    forall h :: h in d.entries ==>
      d.entries[h].pendingAnn.HubID == h && (d.entries[h].verified ==> d.entries[h].verifiedAnn.HubID == h)
  }

  function NewestFirst(): (HubAnnouncement, HubAnnouncement) -> bool {
    (a: HubAnnouncement, b: HubAnnouncement) => a.TimestampMS > b.TimestampMS
  }

  // ---- the object ----

  class Directory {
    var entries: map<Id, Entry>
    var verifying: set<Id>
    const ttl: int
    const selfID: Id

    ghost function State(): Dir
      reads this
    {
      Dir(entries, verifying)
    }

    constructor (selfID: Id, ttl: int)
      ensures State() == Dir(map[], {}) && this.selfID == selfID && this.ttl == ttl
    {
      entries, verifying := map[], {};
      this.selfID, this.ttl := selfID, ttl;
    }

    method Add(ann: HubAnnouncement, now: int) returns (spawn: bool)
      modifies this
      ensures (State(), spawn) == Added(selfID, old(State()), ann, now)
      ensures ann.HubID == selfID || ann.PublicURL == "" ==> State() == old(State()) && !spawn
      // the announcement is pending, what was verified stays, and a verifier starts for a URL that is not
      ensures ann.HubID != selfID && ann.PublicURL != "" ==>
        && ann.HubID in entries && entries[ann.HubID].pendingAnn == ann && entries[ann.HubID].lastSeen == now
        && (entries[ann.HubID].verified <==> ann.HubID in old(entries) && old(entries)[ann.HubID].verified)
        && (entries[ann.HubID].verified ==> entries[ann.HubID].verifiedAnn == old(entries)[ann.HubID].verifiedAnn)
        && (spawn <==> !(ann.HubID in old(verifying) ||
                         (entries[ann.HubID].verified && entries[ann.HubID].verifiedAnn.PublicURL == ann.PublicURL)))
      ensures forall h :: h != ann.HubID ==> (h in entries <==> h in old(entries)) && (h in entries ==> entries[h] == old(entries)[h])
      ensures verifying == if spawn then old(verifying) + {ann.HubID} else old(verifying)
      ensures old(Named(State())) ==> Named(State())
    {
      if ann.HubID == selfID || ann.PublicURL == "" {
        return false;
      }
      if ann.HubID !in entries {
        entries := entries[ann.HubID := FRESH];
      }
      var e := entries[ann.HubID];
      e := e.(pendingAnn := ann, lastSeen := now);
      entries := entries[ann.HubID := e];
      assert entries == Refreshed(old(State()), ann, now).entries;
      if e.verified && e.verifiedAnn.PublicURL == ann.PublicURL {
        return false;
      }
      if ann.HubID in verifying {
        return false;
      }
      verifying := verifying + {ann.HubID};
      return true;
    }

    method Pick(hub: Id) returns (url: Option<string>)
      modifies this
      ensures (State(), url) == Picked(old(State()), hub)
      ensures entries == old(entries) && verifying == if url.Some? then old(verifying) else old(verifying) - {hub}
      ensures url.None? <==> hub !in entries ||
                             (entries[hub].verified && entries[hub].verifiedAnn.PublicURL == entries[hub].pendingAnn.PublicURL)
      ensures url.Some? ==> url.value == entries[hub].pendingAnn.PublicURL
    {
      if hub !in entries {
        verifying := verifying - {hub};
        return None;
      }
      var e := entries[hub];
      if e.verified && e.verifiedAnn.PublicURL == e.pendingAnn.PublicURL {
        verifying := verifying - {hub};
        return None;
      }
      return Some(e.pendingAnn.PublicURL);
    }

    method Finish(hub: Id, url: string, ok: bool) returns (again: bool)
      modifies this
      ensures (State(), again) == Finished(old(State()), hub, url, ok)
      ensures again <==> hub in old(entries) && old(entries)[hub].pendingAnn.PublicURL != url
      ensures verifying == if again then old(verifying) else old(verifying) - {hub}
      ensures entries.Keys == old(entries).Keys && forall h :: h in entries && (h != hub || again) ==> entries[h] == old(entries)[h]
      // a pass promotes what is pending now; a failure promotes nothing
      ensures hub in entries && !again && ok ==>
        entries[hub] == old(entries)[hub].(verifiedAnn := old(entries)[hub].pendingAnn, verified := true)
      ensures hub in entries && !again && !ok ==>
        entries[hub] == old(entries)[hub].(verified := old(entries)[hub].verified && old(entries)[hub].verifiedAnn.PublicURL != url)
      ensures old(Named(State())) ==> Named(State())
    {
      if hub !in entries {
        verifying := verifying - {hub};
        return false;
      }
      var e := entries[hub];
      if e.pendingAnn.PublicURL != url {
        return true;
      }
      if ok {
        e := e.(verifiedAnn := e.pendingAnn, verified := true);
      } else if e.verifiedAnn.PublicURL == url {
        e := e.(verified := false);
      }
      entries := entries[hub := e];
      verifying := verifying - {hub};
      return false;
    }

    /** Every verified hub heard from within the TTL, once, newest announcement first; the others are forgotten. */
    method List(now: int) returns (out: seq<HubAnnouncement>)
      requires Named(State())
      modifies this
      ensures State() == Evicted(old(State()), now - ttl)
      // what is listed, and what is left
      ensures forall ann :: ann in out <==> HeardSince(old(entries), ann, now - ttl)
      ensures forall h :: h in entries <==> h in old(entries) && old(entries)[h].lastSeen >= now - ttl
      ensures forall h :: h in entries ==> entries[h] == old(entries)[h]
      ensures forall ann :: ann in out <==> Serves(State(), ann)
      ensures Distinct(out) && Sorted(NewestFirst(), out)
      ensures forall i, j :: 0 <= i < j < |out| ==> out[i].TimestampMS >= out[j].TimestampMS
    {
      var cutoff := now - ttl;
      entries := KeepFresh(entries, cutoff);
      out := Collect(entries, None);
      ghost var found := out;
      out := Sort(out, NewestFirst());
      SameElements(out, found);
      forall ann
        ensures ann in out <==> ann in found
        ensures Serves(State(), ann) <==> HeardSince(old(entries), ann, cutoff)
      {
        assert ann in out <==> ann in Elements(out);
        ServedAfterEviction(old(State()), ann, cutoff);
      }
    }

    /** Every verified hub heard from after now - window, once; nothing is forgotten. */
    method ActiveWithin(now: int, window: int) returns (out: seq<HubAnnouncement>)
      requires Named(State())
      ensures forall ann :: ann in out <==> SeenAfter(State(), ann, now - window)
      ensures forall ann :: ann in out <==>
        exists h :: h in entries && entries[h].verified && entries[h].lastSeen > now - window && entries[h].verifiedAnn == ann
      ensures Distinct(out)
    {
      out := Collect(entries, Some(now - window));
    }
  }

  method KeepFresh(entries: map<Id, Entry>, cutoff: int) returns (kept: map<Id, Entry>)
    ensures kept == Evicted(Dir(entries, {}), cutoff).entries
  {
    kept := entries;
    var ids := entries.Keys;
    while ids != {}
      invariant ids <= entries.Keys
      invariant kept == map h | h in entries && (h in ids || entries[h].lastSeen >= cutoff) :: entries[h]
      decreases |ids|
    {
      var id :| id in ids;
      ids := ids - {id};
      if entries[id].lastSeen < cutoff {
        kept := kept - {id};
      }
    }
  }

  predicate Wanted(e: Entry, after: Option<int>) {
    e.verified && (after.Some? ==> e.lastSeen > after.value)
  }

  ghost predicate Collected(out: seq<HubAnnouncement>, entries: map<Id, Entry>, ids: set<Id>, after: Option<int>) {
    && Distinct(out)
    && forall ann :: ann in out <==>
      exists h :: h in ids && h in entries && Wanted(entries[h], after) && entries[h].verifiedAnn == ann
  }

  method Collect(entries: map<Id, Entry>, after: Option<int>) returns (out: seq<HubAnnouncement>)
    requires Named(Dir(entries, {}))
    ensures Collected(out, entries, entries.Keys, after)
  {
    out := [];
    var ids := entries.Keys;
    while ids != {}
      invariant ids <= entries.Keys
      invariant Collected(out, entries, entries.Keys - ids, after)
      decreases |ids|
    {
      var id :| id in ids;
      CollectStep(out, entries, entries.Keys - ids, after, id);
      assert entries.Keys - (ids - {id}) == entries.Keys - ids + {id};
      ids := ids - {id};
      if Wanted(entries[id], after) {
        out := out + [entries[id].verifiedAnn];
      }
    }
    assert entries.Keys - {} == entries.Keys;
  }

  lemma CollectStep(out: seq<HubAnnouncement>, entries: map<Id, Entry>, done: set<Id>, after: Option<int>, id: Id)
    requires Named(Dir(entries, {})) && id in entries && id !in done
    requires Collected(out, entries, done, after)
    ensures Collected(if Wanted(entries[id], after) then out + [entries[id].verifiedAnn] else out, entries, done + {id}, after)
  {
    if Wanted(entries[id], after) {
      var ann := entries[id].verifiedAnn;
      assert ann.HubID == id;
      assert ann !in out;
      DistinctConcat(out, [ann]);
      assert forall a :: a in out + [ann] <==> a in out || a == ann;
    }
  }

  // ---- every interleaving ----

  /** A verifier goroutine: about to pick a URL, checking one, or back with the answer. */
  datatype Pc = Picking | Checking(url: string) | Checked(url: string, ok: bool)

  datatype Verifier = Verifier(hub: Id, pc: Pc)

  /** The directory, its verifiers, and every reachability check that has passed so far. */
  datatype World = World(
    dir: Dir,
    verifiers: map<nat, Verifier>,
    passed: set<(Id, string)>)

  datatype Step =
    | Announce(ann: HubAnnouncement, at: int, thread: nat)
    | Pick(thread: nat)
    | Answer(thread: nat, reachable: bool)
    | Settle(thread: nat)
    | ListAt(cutoff: int)

  const INITIAL := World(Dir(map[], {}), map[], {})

  ghost predicate Enabled(w: World, s: Step) {
    match s
    case Announce(_, _, t) => t !in w.verifiers
    case Pick(t) => t in w.verifiers && w.verifiers[t].pc.Picking?
    case Answer(t, _) => t in w.verifiers && w.verifiers[t].pc.Checking?
    case Settle(t) => t in w.verifiers && w.verifiers[t].pc.Checked?
    case ListAt(_) => true
  }

  ghost function Apply(selfID: Id, w: World, s: Step): World
    requires Enabled(w, s)
  {
    match s
    case Announce(ann, at, t) =>
      var (d, spawn) := Added(selfID, w.dir, ann, at);
      w.(dir := d, verifiers := if spawn then w.verifiers[t := Verifier(ann.HubID, Picking)] else w.verifiers)
    case Pick(t) =>
      var hub := w.verifiers[t].hub;
      var (d, url) := Picked(w.dir, hub);
      w.(dir := d, verifiers := if url.None? then w.verifiers - {t} else w.verifiers[t := Verifier(hub, Checking(url.value))])
    case Answer(t, ok) =>
      var v := w.verifiers[t];
      w.(verifiers := w.verifiers[t := Verifier(v.hub, Checked(v.pc.url, ok))],
         passed := if ok then w.passed + {(v.hub, v.pc.url)} else w.passed)
    case Settle(t) =>
      var v := w.verifiers[t];
      var (d, again) := Finished(w.dir, v.hub, v.pc.url, v.pc.ok);
      w.(dir := d, verifiers := if again then w.verifiers[t := Verifier(v.hub, Picking)] else w.verifiers - {t})
    case ListAt(cutoff) => w.(dir := Evicted(w.dir, cutoff))
  }

  ghost predicate IsRun(selfID: Id, run: seq<World>, steps: seq<Step>) {
    && |run| == |steps| + 1
    && run[0] == INITIAL
    && forall i :: 0 <= i < |steps| ==> Enabled(run[i], steps[i]) && run[i + 1] == Apply(selfID, run[i], steps[i])
  }

  // ---- what every step keeps ----

  /** One verifier at most for a hub, and the flag says whether there is one. */
  ghost predicate OneVerifier(w: World) {
    && (forall s, t :: s in w.verifiers && t in w.verifiers && s != t ==> w.verifiers[s].hub != w.verifiers[t].hub)
    && (forall t :: t in w.verifiers ==> w.verifiers[t].hub in w.dir.verifying)
    && (forall h :: h in w.dir.verifying ==> HasVerifier(w, h))
  }

  ghost predicate HasVerifier(w: World, h: Id) {
    exists t :: t in w.verifiers && w.verifiers[t].hub == h
  }

  /** What is served passed a check under that hub's ID; what is not served was never verified. */
  ghost predicate EntryChecked(w: World, h: Id, e: Entry) {
    && e.pendingAnn.HubID == h
    && e.pendingAnn.PublicURL != ""
    && (e.verified ==> e.verifiedAnn.HubID == h && e.verifiedAnn.PublicURL != "" && (h, e.verifiedAnn.PublicURL) in w.passed)
    && (!e.verified ==> e.verifiedAnn == NO_ANNOUNCEMENT)
  }

  /** A URL under check is not the verified one: checks never re-examine what is served. */
  ghost predicate ChecksNews(w: World, v: Verifier) {
    && (!v.pc.Picking? ==> v.pc.url != "")
    && (!v.pc.Picking? && v.hub in w.dir.entries && w.dir.entries[v.hub].verified ==>
          w.dir.entries[v.hub].verifiedAnn.PublicURL != v.pc.url)
    && (v.pc.Checked? && v.pc.ok ==> (v.hub, v.pc.url) in w.passed)
  }

  ghost predicate Inv(w: World) {
    && OneVerifier(w)
    && (forall h :: h in w.dir.entries ==> EntryChecked(w, h, w.dir.entries[h]))
    && (forall t :: t in w.verifiers ==> ChecksNews(w, w.verifiers[t]))
  }

  lemma AnnounceKeeps(selfID: Id, w: World, s: Step)
    requires s.Announce? && Enabled(w, s) && Inv(w)
    ensures Inv(Apply(selfID, w, s))
  {
    var w' := Apply(selfID, w, s);
    var h := s.ann.HubID;
    forall g | g in w'.dir.verifying
      ensures HasVerifier(w', g)
    {
      if g in w.dir.verifying {
        var t :| t in w.verifiers && w.verifiers[t].hub == g;
        assert w'.verifiers[t].hub == g;
      } else {
        assert w'.verifiers[s.thread].hub == g;
      }
    }
    forall g | g in w'.dir.entries
      ensures EntryChecked(w', g, w'.dir.entries[g])
    {
      if g in w.dir.entries {
        assert EntryChecked(w, g, w.dir.entries[g]);
      }
    }
    forall t | t in w'.verifiers
      ensures ChecksNews(w', w'.verifiers[t])
    {
      if t in w.verifiers {
        assert ChecksNews(w, w.verifiers[t]);
      }
    }
  }

  lemma PickKeeps(selfID: Id, w: World, s: Step)
    requires s.Pick? && Enabled(w, s) && Inv(w)
    ensures Inv(Apply(selfID, w, s))
  {
    var w' := Apply(selfID, w, s);
    var hub := w.verifiers[s.thread].hub;
    OthersStay(w, w', s.thread);
    forall g | g in w'.dir.entries
      ensures EntryChecked(w', g, w'.dir.entries[g])
    {
      assert EntryChecked(w, g, w.dir.entries[g]);
    }
    forall t | t in w'.verifiers
      ensures ChecksNews(w', w'.verifiers[t])
    {
      assert ChecksNews(w, w.verifiers[t]);
      if t == s.thread {
        assert EntryChecked(w, hub, w.dir.entries[hub]);
      }
    }
  }

  /** A step of one verifier that keeps its hub, or ends it together with its flag. */
  lemma OthersStay(w: World, w': World, t: nat)
    requires OneVerifier(w) && t in w.verifiers
    requires forall u: nat :: u != t ==> (u in w'.verifiers <==> u in w.verifiers)
    requires forall u: nat :: u != t && u in w.verifiers ==> w'.verifiers[u] == w.verifiers[u]
    requires t in w'.verifiers ==> w'.verifiers[t].hub == w.verifiers[t].hub && w'.dir.verifying == w.dir.verifying
    requires t !in w'.verifiers ==> w'.dir.verifying == w.dir.verifying - {w.verifiers[t].hub}
    ensures OneVerifier(w')
  {
    forall g | g in w'.dir.verifying
      ensures HasVerifier(w', g)
    {
      var u :| u in w.verifiers && w.verifiers[u].hub == g;
      assert w'.verifiers[u].hub == g;
    }
  }

  lemma AnswerKeeps(selfID: Id, w: World, s: Step)
    requires s.Answer? && Enabled(w, s) && Inv(w)
    ensures Inv(Apply(selfID, w, s))
  {
    var w' := Apply(selfID, w, s);
    OthersStay(w, w', s.thread);
    forall g | g in w'.dir.entries
      ensures EntryChecked(w', g, w'.dir.entries[g])
    {
      assert EntryChecked(w, g, w.dir.entries[g]);
    }
    forall t | t in w'.verifiers
      ensures ChecksNews(w', w'.verifiers[t])
    {
      assert ChecksNews(w, w.verifiers[t]);
    }
  }

  lemma SettleKeeps(selfID: Id, w: World, s: Step)
    requires s.Settle? && Enabled(w, s) && Inv(w)
    ensures Inv(Apply(selfID, w, s))
  {
    var w' := Apply(selfID, w, s);
    var v := w.verifiers[s.thread];
    assert ChecksNews(w, v);
    OthersStay(w, w', s.thread);
    forall g | g in w'.dir.entries
      ensures EntryChecked(w', g, w'.dir.entries[g])
    {
      assert EntryChecked(w, g, w.dir.entries[g]);
    }
    forall t | t in w'.verifiers
      ensures ChecksNews(w', w'.verifiers[t])
    {
      assert ChecksNews(w, w.verifiers[t]);
    }
  }

  lemma ListKeeps(selfID: Id, w: World, s: Step)
    requires s.ListAt? && Inv(w)
    ensures Inv(Apply(selfID, w, s))
  {
    var w' := Apply(selfID, w, s);
    assert forall h :: HasVerifier(w', h) <==> HasVerifier(w, h);
    forall g | g in w'.dir.entries
      ensures EntryChecked(w', g, w'.dir.entries[g])
    {
      assert EntryChecked(w, g, w.dir.entries[g]);
    }
    forall t | t in w'.verifiers
      ensures ChecksNews(w', w'.verifiers[t])
    {
      assert ChecksNews(w, w.verifiers[t]);
    }
  }

  lemma StepKeeps(selfID: Id, w: World, s: Step)
    requires Enabled(w, s) && Inv(w)
    ensures Inv(Apply(selfID, w, s))
  {
    match s
    case Announce(_, _, _) => AnnounceKeeps(selfID, w, s);
    case Pick(_) => PickKeeps(selfID, w, s);
    case Answer(_, _) => AnswerKeeps(selfID, w, s);
    case Settle(_) => SettleKeeps(selfID, w, s);
    case ListAt(_) => ListKeeps(selfID, w, s);
  }

  lemma {:induction false} RunKeeps(selfID: Id, run: seq<World>, steps: seq<Step>, i: nat)
    requires IsRun(selfID, run, steps) && i < |run|
    ensures Inv(run[i])
  {
    if i > 0 {
      RunKeeps(selfID, run, steps, i - 1);
      StepKeeps(selfID, run[i - 1], steps[i - 1]);
    }
  }

  // ---- the promises, over every run ----

  /** Whatever a hub is told about answered a check, at that URL, as that hub. */
  lemma ServedURLPassed(selfID: Id, run: seq<World>, steps: seq<Step>, i: nat, ann: HubAnnouncement)
    requires IsRun(selfID, run, steps) && i < |run|
    requires Serves(run[i].dir, ann)
    ensures ann.PublicURL != "" && (ann.HubID, ann.PublicURL) in run[i].passed
  {
    RunKeeps(selfID, run, steps, i);
    var h :| h in run[i].dir.entries && run[i].dir.entries[h].verified && run[i].dir.entries[h].verifiedAnn == ann;
    assert EntryChecked(run[i], h, run[i].dir.entries[h]);
  }

  /** The announcement of hub h recorded last in steps i to j - 1. */
  ghost function LastHeard(steps: seq<Step>, i: nat, j: nat, h: Id): Option<HubAnnouncement>
    requires j <= |steps|
  {
    if j <= i then None
    else
      var s := steps[j - 1];
      if s.Announce? && s.ann.HubID == h && s.ann.PublicURL != "" then Some(s.ann) else LastHeard(steps, i, j - 1, h)
  }

  /** Step k ended a check of the URL pending now, which failed, and no announcement has been recorded since. */
  ghost predicate Refused(run: seq<World>, steps: seq<Step>, k: nat, i: nat, h: Id)
    requires k < i <= |steps| && i < |run|
  {
    && steps[k].Settle?
    && steps[k].thread in run[k].verifiers
    && h in run[i].dir.entries
    && run[k].verifiers[steps[k].thread] == Verifier(h, Checked(run[i].dir.entries[h].pendingAnn.PublicURL, false))
    && LastHeard(steps, k + 1, i, h) == None
  }

  /** Unsettled, and nobody is checking. */
  ghost predicate Idle(w: World, h: Id) {
    h in w.dir.entries && !Settled(w.dir.entries[h]) && h !in w.dir.verifying
  }

  ghost predicate EndedOrIdle(w: World, s: Step, w': World, h: Id)
    requires h in w'.dir.entries
  {
    || (s.Settle? && s.thread in w.verifiers &&
        w.verifiers[s.thread] == Verifier(h, Checked(w'.dir.entries[h].pendingAnn.PublicURL, false)))
    || (Idle(w, h) && w'.dir.entries[h] == w.dir.entries[h] && !(s.Announce? && s.ann.HubID == h && s.ann.PublicURL != ""))
  }

  /** A step after which h is unsettled and unchecked ended a failed check, or left h as it was. */
  lemma IdleStep(selfID: Id, w: World, s: Step, h: Id)
    requires Inv(w) && Enabled(w, s) && Idle(Apply(selfID, w, s), h)
    ensures h != selfID ==> EndedOrIdle(w, s, Apply(selfID, w, s), h)
  {
    if s.Pick? || s.Settle? {
      assert w.verifiers[s.thread].hub in w.dir.verifying;
    }
  }

  lemma {:induction false} SelfUnlisted(selfID: Id, run: seq<World>, steps: seq<Step>, i: nat)
    requires IsRun(selfID, run, steps) && i < |run|
    ensures selfID !in run[i].dir.entries
  {
    if i > 0 {
      SelfUnlisted(selfID, run, steps, i - 1);
      assert Enabled(run[i - 1], steps[i - 1]) && run[i - 1 + 1] == Apply(selfID, run[i - 1], steps[i - 1]);
    }
  }

  lemma {:induction false} IdleWasRefused(selfID: Id, run: seq<World>, steps: seq<Step>, i: nat, h: Id) returns (k: nat)
    requires IsRun(selfID, run, steps) && i < |run| && Idle(run[i], h)
    ensures k < i && Refused(run, steps, k, i, h)
  {
    LastStepIdle(selfID, run, steps, i, h);
    if Refused(run, steps, i - 1, i, h) {
      k := i - 1;
    } else {
      k := IdleWasRefused(selfID, run, steps, i - 1, h);
    }
  }

  lemma LastStepIdle(selfID: Id, run: seq<World>, steps: seq<Step>, i: nat, h: Id)
    requires IsRun(selfID, run, steps) && i < |run| && Idle(run[i], h)
    ensures i > 0 && EndedOrIdle(run[i - 1], steps[i - 1], run[i], h)
  {
    RunKeeps(selfID, run, steps, i - 1);
    SelfUnlisted(selfID, run, steps, i);
    var s := steps[i - 1];
    assert Enabled(run[i - 1], s) && run[i - 1 + 1] == Apply(selfID, run[i - 1], s);
    IdleStep(selfID, run[i - 1], s, h);
  }

  /**
   At most one check runs for a hub; and a pending URL that is neither verified nor being checked is
   one whose check ended in failure after the last announcement of that hub was recorded.
   */
  lemma NoURLForgotten(selfID: Id, run: seq<World>, steps: seq<Step>, i: nat)
    requires IsRun(selfID, run, steps) && i < |run|
    ensures var w := run[i];
      && (forall s, t :: s in w.verifiers && t in w.verifiers && w.verifiers[s].hub == w.verifiers[t].hub ==> s == t)
      && (forall h :: h in w.dir.verifying <==> HasVerifier(w, h))
      && (forall h :: h in w.dir.entries && !Settled(w.dir.entries[h]) && !HasVerifier(w, h) ==>
            exists k: nat :: k < i && Refused(run, steps, k, i, h))
  {
    var w := run[i];
    RunKeeps(selfID, run, steps, i);
    forall h | h in w.dir.entries && !Settled(w.dir.entries[h]) && !HasVerifier(w, h)
      ensures exists k: nat :: k < i && Refused(run, steps, k, i, h)
    {
      var k := IdleWasRefused(selfID, run, steps, i, h);
    }
  }

  /** What one step does to a served announcement of hub h. */
  ghost predicate KeptOrReplaced(selfID: Id, w: World, s: Step, h: Id)
    requires Enabled(w, s) && h in w.dir.entries
  {
    var e, w' := w.dir.entries[h], Apply(selfID, w, s);
    || (h in w'.dir.entries && w'.dir.entries[h].verified && w'.dir.entries[h].verifiedAnn == e.verifiedAnn)
    || (s.ListAt? && e.lastSeen < s.cutoff && h !in w'.dir.entries)
    || (s.Settle? && h in w'.dir.entries && w'.dir.entries[h].verified
        && w'.dir.entries[h].verifiedAnn.PublicURL != e.verifiedAnn.PublicURL
        && (h, w'.dir.entries[h].verifiedAnn.PublicURL) in w.passed)
  }

  /**
   A served hub stays served, whatever fails, until its TTL runs out or another URL of it passes.
   So the branch of the verifier that demotes an entry whose verified URL failed is never taken.
   */
  lemma ServedUntilExpiry(selfID: Id, run: seq<World>, steps: seq<Step>, i: nat, h: Id)
    requires IsRun(selfID, run, steps) && i < |steps|
    requires h in run[i].dir.entries && run[i].dir.entries[h].verified
    ensures KeptOrReplaced(selfID, run[i], steps[i], h)
  {
    var w, s := run[i], steps[i];
    RunKeeps(selfID, run, steps, i);
    assert EntryChecked(w, h, w.dir.entries[h]);
    if s.Settle? {
      assert ChecksNews(w, w.verifiers[s.thread]);
    }
  }

  /** The demotion test never even holds: a URL that comes back failed is nobody's verified URL. */
  lemma DemotionUnreachable(selfID: Id, run: seq<World>, steps: seq<Step>, i: nat, t: nat)
    requires IsRun(selfID, run, steps) && i < |run|
    requires t in run[i].verifiers && run[i].verifiers[t].pc.Checked?
    ensures var v, d := run[i].verifiers[t], run[i].dir;
      v.hub in d.entries ==> d.entries[v.hub].verifiedAnn.PublicURL != v.pc.url
  {
    var w := run[i];
    var v := w.verifiers[t];
    RunKeeps(selfID, run, steps, i);
    assert ChecksNews(w, v);
    if v.hub in w.dir.entries {
      assert EntryChecked(w, v.hub, w.dir.entries[v.hub]);
    }
  }

  ghost predicate ServedSince(d: Dir, h: Id, at: int) {
    h in d.entries && d.entries[h].verified && d.entries[h].lastSeen >= at
  }

  lemma StaysServed(selfID: Id, run: seq<World>, steps: seq<Step>, k: nat, h: Id, at: int)
    requires IsRun(selfID, run, steps) && k < |steps| && ServedSince(run[k].dir, h, at)
    requires steps[k].ListAt? ==> steps[k].cutoff <= at
    requires steps[k].Announce? ==> steps[k].at >= at
    ensures ServedSince(run[k + 1].dir, h, at)
  {
    ServedUntilExpiry(selfID, run, steps, k, h);
  }

  /** A served hub heard from at time `at` is served at least until its TTL after that has passed. */
  lemma {:induction false} AnnouncedStaysServed(
    selfID: Id, run: seq<World>, steps: seq<Step>, i: nat, j: nat, ann: HubAnnouncement, at: int, thread: nat)
    requires IsRun(selfID, run, steps) && i < j <= |steps|
    requires steps[i] == Announce(ann, at, thread) && ann.HubID != selfID && ann.PublicURL != ""
    requires ann.HubID in run[i].dir.entries && run[i].dir.entries[ann.HubID].verified
    requires forall k :: i < k < j && steps[k].ListAt? ==> steps[k].cutoff <= at
    requires forall k :: i < k < j && steps[k].Announce? ==> steps[k].at >= at
    ensures ServedSince(run[j].dir, ann.HubID, at)
  {
    if j == i + 1 {
      assert run[i + 1] == Apply(selfID, run[i], steps[i]);
    } else {
      AnnouncedStaysServed(selfID, run, steps, i, j - 1, ann, at, thread);
      StaysServed(selfID, run, steps, j - 1, ann.HubID, at);
    }
  }

  /** An entry was last seen at an announcement of that hub. */
  lemma {:induction false} LastSeenWasHeard(selfID: Id, run: seq<World>, steps: seq<Step>, i: nat, h: Id) returns (k: nat)
    requires IsRun(selfID, run, steps) && i < |run| && h in run[i].dir.entries
    ensures k < i && steps[k].Announce? && steps[k].ann.HubID == h && steps[k].at == run[i].dir.entries[h].lastSeen
  {
    var s := steps[i - 1];
    assert Enabled(run[i - 1], s) && run[i - 1 + 1] == Apply(selfID, run[i - 1], s);
    if s.Announce? && s.ann.HubID == h && s.at == run[i].dir.entries[h].lastSeen {
      k := i - 1;
    } else {
      k := LastSeenWasHeard(selfID, run, steps, i - 1, h);
    }
  }

  /** Every announcement of h so far is from before the cutoff. */
  ghost predicate SilentSince(steps: seq<Step>, i: nat, h: Id, cutoff: int)
    requires i <= |steps|
  {
    forall k :: 0 <= k < i && steps[k].Announce? && steps[k].ann.HubID == h ==> steps[k].at < cutoff
  }

  /** A listing leaves no entry from before its cutoff: a hub that has not been heard from since is gone, and not served. */
  lemma SilentIsForgotten(selfID: Id, run: seq<World>, steps: seq<Step>, i: nat, h: Id)
    requires IsRun(selfID, run, steps) && i < |steps| && steps[i].ListAt?
    ensures var d, cutoff := run[i + 1].dir, steps[i].cutoff;
      && (h in d.entries ==> d.entries[h].lastSeen >= cutoff)
      && (SilentSince(steps, i, h, cutoff) ==> h !in d.entries && forall ann :: Serves(d, ann) ==> ann.HubID != h)
  {
    var d := run[i + 1].dir;
    assert Enabled(run[i], steps[i]) && run[i + 1] == Apply(selfID, run[i], steps[i]);
    RunKeeps(selfID, run, steps, i + 1);
    if h in d.entries {
      var k := LastSeenWasHeard(selfID, run, steps, i + 1, h);
    }
    forall ann | Serves(d, ann)
      ensures ann.HubID in d.entries
    {
      var g :| g in d.entries && d.entries[g].verified && d.entries[g].verifiedAnn == ann;
      assert EntryChecked(run[i + 1], g, d.entries[g]);
    }
  }

  // ---- a hub that re-announces itself under the same URL ----

  /** From step i on, hub h announces no other URL and is not forgotten. */
  ghost predicate KeepsURL(steps: seq<Step>, run: seq<World>, i: nat, j: nat, h: Id, url: string)
    requires j <= |steps| && j < |run|
  {
    && (forall k :: i <= k < j && steps[k].Announce? && steps[k].ann.HubID == h ==> steps[k].ann.PublicURL == url)
    && (forall k :: i <= k <= j ==> h in run[k].dir.entries)
  }

  lemma StaysSettled(selfID: Id, run: seq<World>, steps: seq<Step>, k: nat, h: Id)
    requires IsRun(selfID, run, steps) && k < |steps|
    requires h in run[k].dir.entries && Settled(run[k].dir.entries[h]) && h in run[k + 1].dir.entries
    requires steps[k].Announce? && steps[k].ann.HubID == h ==> steps[k].ann.PublicURL == run[k].dir.entries[h].verifiedAnn.PublicURL
    ensures Settled(run[k + 1].dir.entries[h]) && run[k + 1].dir.entries[h].verifiedAnn == run[k].dir.entries[h].verifiedAnn
  {
    var w, s := run[k], steps[k];
    RunKeeps(selfID, run, steps, k);
    assert EntryChecked(w, h, w.dir.entries[h]);
    if s.Settle? {
      assert ChecksNews(w, w.verifiers[s.thread]);
    }
  }

  /**
   Once settled under a URL, later announcements with that URL are never adopted: the capacity and
   archive flag served stay those of the announcement that was pending when the URL first passed.
   */
  lemma {:induction false} SameURLNeverAdopted(selfID: Id, run: seq<World>, steps: seq<Step>, i: nat, j: nat, h: Id)
    requires IsRun(selfID, run, steps) && i <= j <= |steps|
    requires h in run[i].dir.entries && Settled(run[i].dir.entries[h])
    requires KeepsURL(steps, run, i, j, h, run[i].dir.entries[h].verifiedAnn.PublicURL)
    ensures Settled(run[j].dir.entries[h]) && run[j].dir.entries[h].verifiedAnn == run[i].dir.entries[h].verifiedAnn
  {
    if i < j {
      SameURLNeverAdopted(selfID, run, steps, i, j - 1, h);
      StaysSettled(selfID, run, steps, j - 1, h);
    }
  }

  // ---- which announcement a passed check promotes ----

  /** The pending announcement is the last one recorded. */
  lemma {:induction false} PendingIsLastHeard(selfID: Id, run: seq<World>, steps: seq<Step>, i: nat, j: nat, h: Id)
    requires IsRun(selfID, run, steps) && i <= j <= |steps|
    requires h in run[j].dir.entries
    ensures LastHeard(steps, i, j, h).Some? ==> run[j].dir.entries[h].pendingAnn == LastHeard(steps, i, j, h).value
    ensures LastHeard(steps, i, j, h).None? ==>
      h in run[i].dir.entries && run[j].dir.entries[h].pendingAnn == run[i].dir.entries[h].pendingAnn
  {
    if i < j {
      var s := steps[j - 1];
      assert Enabled(run[j - 1], s) && run[j - 1 + 1] == Apply(selfID, run[j - 1], s);
      SelfUnlisted(selfID, run, steps, j);
      if !(s.Announce? && s.ann.HubID == h && s.ann.PublicURL != "") {
        PendingIsLastHeard(selfID, run, steps, i, j - 1, h);
      }
    }
  }

  /** Thread t picks at step i, and the next thing it does after the answer is to settle at step j. */
  ghost predicate IsCheck(run: seq<World>, steps: seq<Step>, i: nat, j: nat, t: nat)
    requires |run| == |steps| + 1
  {
    && i < j < |steps|
    && steps[i] == Pick(t) && steps[j] == Settle(t)
    && (forall k :: i < k < j ==> steps[k] != Pick(t) && steps[k] != Settle(t))
  }

  /** Between its pick and its settling a verifier stays with its hub and its URL. */
  lemma {:induction false} VerifierStays(selfID: Id, run: seq<World>, steps: seq<Step>, i: nat, j: nat, t: nat, k: nat)
    requires IsRun(selfID, run, steps) && IsCheck(run, steps, i, j, t) && i < k <= j
    ensures t in run[i].verifiers && t in run[i + 1].verifiers
    ensures t in run[k].verifiers && !run[k].verifiers[t].pc.Picking?
    ensures var v := run[k].verifiers[t];
      && v.hub == run[i].verifiers[t].hub
      && v.hub in run[i].dir.entries && v.pc.url == run[i].dir.entries[v.hub].pendingAnn.PublicURL
  {
    var s := steps[k - 1];
    assert Enabled(run[k - 1], s) && run[k - 1 + 1] == Apply(selfID, run[k - 1], s);
    assert Enabled(run[i], steps[i]) && run[i + 1] == Apply(selfID, run[i], steps[i]);
    if k > i + 1 {
      VerifierStays(selfID, run, steps, i, j, t, k - 1);
    } else {
      PickMustStart(selfID, run, steps, i, j, t);
    }
  }

  /** A pick that has something to settle later did pick a URL. */
  lemma PickMustStart(selfID: Id, run: seq<World>, steps: seq<Step>, i: nat, j: nat, t: nat)
    requires IsRun(selfID, run, steps) && IsCheck(run, steps, i, j, t)
    ensures t in run[i].verifiers && Picked(run[i].dir, run[i].verifiers[t].hub).1.Some?
  {
    assert Enabled(run[i], steps[i]) && run[i + 1] == Apply(selfID, run[i], steps[i]);
    assert Enabled(run[j], steps[j]);
    if Picked(run[i].dir, run[i].verifiers[t].hub).1.None? {
      NeverChecking(selfID, run, steps, i, j, t, j);
    }
  }

  lemma {:induction false} NeverChecking(selfID: Id, run: seq<World>, steps: seq<Step>, i: nat, j: nat, t: nat, k: nat)
    requires IsRun(selfID, run, steps) && IsCheck(run, steps, i, j, t) && i < k <= j
    requires t !in run[i + 1].verifiers
    ensures t in run[k].verifiers ==> run[k].verifiers[t].pc.Picking?
  {
    if k > i + 1 {
      NeverChecking(selfID, run, steps, i, j, t, k - 1);
      assert Enabled(run[k - 1], steps[k - 1]) && run[k - 1 + 1] == Apply(selfID, run[k - 1], steps[k - 1]);
    }
  }

  /**
   A check that passes promotes the very announcement that was pending when the check began exactly
   when the last announcement of that hub recorded meanwhile, if there was one, was the same.
   */
  lemma PromotesCheckedExactly(selfID: Id, run: seq<World>, steps: seq<Step>, i: nat, j: nat, t: nat, h: Id)
    requires IsRun(selfID, run, steps) && IsCheck(run, steps, i, j, t)
    requires t in run[i].verifiers && run[i].verifiers[t].hub == h
    // the check passed, and its URL is the pending one when it settles
    requires t in run[j].verifiers && run[j].verifiers[t].pc.Checked? && run[j].verifiers[t].pc.ok
    requires h in run[j].dir.entries && run[j].dir.entries[h].pendingAnn.PublicURL == run[j].verifiers[t].pc.url
    ensures h in run[i].dir.entries && h in run[j + 1].dir.entries && run[j + 1].dir.entries[h].verified
    ensures run[j + 1].dir.entries[h].verifiedAnn == run[i].dir.entries[h].pendingAnn <==>
      (LastHeard(steps, i, j, h).Some? ==> LastHeard(steps, i, j, h).value == run[i].dir.entries[h].pendingAnn)
  {
    VerifierStays(selfID, run, steps, i, j, t, j);
    PendingIsLastHeard(selfID, run, steps, i, j, h);
    assert Enabled(run[j], steps[j]) && run[j + 1] == Apply(selfID, run[j], steps[j]);
  }

  /**
   What passes is a URL, not an announcement: one that arrives under the same URL while the check
   runs is promoted with whatever capacity and archive flag it carries.
   */
  lemma PromotesByURL(selfID: Id, a: HubAnnouncement, b: HubAnnouncement)
    requires a.HubID == b.HubID != selfID && a.PublicURL == b.PublicURL != ""
    ensures exists run: seq<World>, steps: seq<Step> ::
      && IsRun(selfID, run, steps)
      && steps == [Announce(a, 0, 0), Pick(0), Announce(b, 1, 1), Answer(0, true), Settle(0)]
      && Serves(run[5].dir, b)
  {
    var h, u := a.HubID, a.PublicURL;
    var steps := [Announce(a, 0, 0), Pick(0), Announce(b, 1, 1), Answer(0, true), Settle(0)];
    var w1 := Apply(selfID, INITIAL, steps[0]);
    var w2 := Apply(selfID, w1, steps[1]);
    assert w2.verifiers[0] == Verifier(h, Checking(u));
    var w3 := Apply(selfID, w2, steps[2]);
    assert w3.verifiers == w2.verifiers;
    var w4 := Apply(selfID, w3, steps[3]);
    var w5 := Apply(selfID, w4, steps[4]);
    assert w5.dir.entries[h].verifiedAnn == b;
    var run := [INITIAL, w1, w2, w3, w4, w5];
    assert IsRun(selfID, run, steps);
    assert Serves(run[5].dir, b);
  }
}
