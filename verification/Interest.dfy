/** hub/interest/interest.go: which results a hub stores. */
module Interest {
  import opened Shard

  /** The four fields a `Set` publishes in one update. */
  datatype Snapshot = Snapshot(ready: bool, archive: bool, shards: set<nat>, pinned: set<string>)
  {
    predicate Holds(digest: Digest, checkID: string) {
      !ready || archive || Of(digest, checkID) in shards || checkID in pinned
    }
  }

  class Set {
    var ready: bool
    var archive: bool
    var shards: set<nat>
    var pinned: set<string>

    function State(): Snapshot
      reads this
    {
      Snapshot(ready, archive, shards, pinned)
    }

    /** Fail-open: before the first update everything is held. */
    constructor ()
      ensures !ready
      ensures forall digest: Digest, checkID :: State().Holds(digest, checkID)
    {
      ready, archive, shards, pinned := false, false, {}, {};
    }

    method Update(archive: bool, shards: set<nat>, pinned: set<string>)
      modifies this
      ensures State() == Snapshot(true, archive, shards, pinned)
      ensures ready && this.archive == archive && this.shards == shards && this.pinned == pinned
    {
      this.archive := archive;
      this.shards := shards;
      this.pinned := pinned;
      this.ready := true;
    }

    method Holds(digest: Digest, checkID: string) returns (r: bool)
      ensures r <==> State().Holds(digest, checkID)
      ensures r <==> !ready || archive || Of(digest, checkID) in shards || checkID in pinned
    {
      if !ready || archive {
        return true;
      }
      if Of(digest, checkID) in shards {
        return true;
      }
      return checkID in pinned;
    }
  }
}
