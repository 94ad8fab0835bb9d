// The imperative side of the checkpoint machine: reading and stamping the checkpoint rows,
// the file cache a scan consults, and the two file walks, each proved against the
// function the state machine uses.
module CheckpointStore {
  import opened Prelude
  import opened ScanCoverage
  import opened Checkpoints

  /** The checkpoint columns of one repository. */
  class CheckpointRows {
    var rows: map<Branch, Row>
    var legacy: Option<Sha>
    var defaultBranch: Branch

    constructor (defaultBranch: Branch)
      ensures rows == map[] && legacy == None && this.defaultBranch == defaultBranch
    {
      rows, legacy := map[], None;
      this.defaultBranch := defaultBranch;
    }

    /** Which commit a manual scan diffs against, and the pack stored beside it. */
    method Select(force: bool, requested: Branch, readOk: bool, pack: Pack)
      returns (base: Option<Sha>, rowPack: Option<Pack>)
      ensures (base, rowPack) == ChooseBase(force, requested, readOk, rows, legacy, defaultBranch, pack)
      ensures force ==> base == None && rowPack == None
      ensures !force && readOk && requested in rows ==>
                && rowPack == rows[requested].pack
                && base == if rowPack.Some? && rowPack.value != pack then None else Some(rows[requested].commit)
      ensures !force && !(readOk && requested in rows) ==>
                rowPack == None && base == if requested == defaultBranch then legacy else None
    {
      base, rowPack := None, None;
      if !force {
        if readOk && requested in rows {
          base, rowPack := Some(rows[requested].commit), rows[requested].pack;
        }
        if base.None? && requested == defaultBranch {
          base := legacy;
        }
      }
      var rulePackChanged := base.Some? && rowPack.Some? && rowPack.value != pack;
      if rulePackChanged {
        base := None;
      }
    }

    /** The end of a manual scan; a history scan and an unknown head write nothing. */
    method StampManual(branch: Branch, head: Option<Sha>, history: bool, incremental: bool, rowPack: Option<Pack>,
                       pack: Pack, writeOk: bool)
      modifies this
      ensures head.None? || history ==> rows == old(rows) && legacy == old(legacy)
      ensures head.Some? && !history ==>
                && rows == StampRow(old(rows), branch, Row(head.value, if incremental then rowPack else Some(pack)), writeOk)
                && legacy == StampLegacy(old(legacy), branch, defaultBranch, head.value)
      ensures defaultBranch == old(defaultBranch)
    {
      if head.Some? && !history {
        if writeOk {
          rows := rows[branch := Row(head.value, if !incremental then Some(pack) else rowPack)];
        }
        if branch == defaultBranch {
          legacy := head;
        }
      }
    }

    /** The end of a webhook scan: never claims a pack. */
    method StampWebhook(branch: Branch, head: Option<Sha>, writeOk: bool)
      modifies this
      ensures head.None? ==> rows == old(rows) && legacy == old(legacy)
      ensures head.Some? ==>
                && rows == StampRow(old(rows), branch, Row(head.value, None), writeOk)
                && legacy == StampLegacy(old(legacy), branch, defaultBranch, head.value)
      ensures defaultBranch == old(defaultBranch)
    {
      if head.Some? {
        if writeOk {
          rows := rows[branch := Row(head.value, None)];
        }
        if branch == defaultBranch {
          legacy := head;
        }
      }
    }
  }

  /** A scan's view of the file cache: a frozen snapshot, the rows of it that do not
      deserialise, the misses still to be written back, and the two counters. */
  class FileCacheView {
    const snapshot: set<Reading>
    const corrupt: set<Reading>
    var writes: seq<Reading>
    var hits: nat
    var misses: nat

    constructor (snapshot: set<Reading>, corrupt: set<Reading>)
      ensures this.snapshot == snapshot && this.corrupt == corrupt && writes == [] && hits == 0 && misses == 0
    {
      this.snapshot, this.corrupt := snapshot, corrupt;
      writes, hits, misses := [], 0, 0;
    }

    /** What the view can answer. */
    ghost function Warm(): set<Reading> {
      snapshot - corrupt
    }

    method Lookup(reading: Reading) returns (hit: bool)
      modifies `hits
      ensures hit == (reading in Warm())
      ensures hits == old(hits) + if hit then 1 else 0
    {
      hit := reading in snapshot;
      if hit {
        hits := hits + 1;
        if reading in corrupt {
          hits := hits - 1;
          hit := false;
        }
      }
    }

    method RecordMiss(reading: Reading)
      modifies `writes, `misses
      ensures writes == old(writes) + [reading] && misses == old(misses) + 1
    {
      misses := misses + 1;
      writes := writes + [reading];
    }

    /** Walks the files of a checkout in the order the file system yields them. */
    method WalkTree(files: seq<Path>, tree: Tree, pack: Pack) returns (read: set<Reading>)
      requires forall path :: path in files <==> path in tree
      requires writes == []
      modifies this
      ensures read == FullReadings(pack, tree)
      ensures forall reading :: reading in writes <==> reading in read && reading !in Warm()
      ensures hits + misses <= old(hits + misses) + |files|
    {
      read := {};
      for i := 0 to |files|
        invariant read == set path | path in files[..i] && WalkReads(pack.scope, path, tree[path]) :: Reading(pack, path, tree[path])
        invariant forall reading :: reading in writes <==> reading in read && reading !in Warm()
        invariant hits + misses <= old(hits + misses) + i
      {
        assert files[..i+1] == files[..i] + [files[i]];
        var path := files[i];
        if WalkReads(pack.scope, path, tree[path]) {
          var reading := Reading(pack, path, tree[path]);
          var hit := Lookup(reading);
          if !hit {
            RecordMiss(reading);
          }
          read := read + {reading};
        }
      }
      assert files[..|files|] == files;
    }

    /** Walks the files git listed as changed. */
    method WalkDiff(listed: seq<Path>, head: Tree, pack: Pack) returns (read: set<Reading>)
      requires forall path :: path in listed ==> path in head
      requires writes == []
      modifies this
      ensures read == DiffReadings(pack, head, set path | path in listed)
      ensures forall reading :: reading in writes <==> reading in read && reading !in Warm()
    {
      read := {};
      for i := 0 to |listed|
        invariant read == DiffReadings(pack, head, set path | path in listed[..i])
        invariant forall reading :: reading in writes <==> reading in read && reading !in Warm()
      {
        assert listed[..i+1] == listed[..i] + [listed[i]];
        var path := listed[i];
        if DiffReads(path, head[path]) {
          var reading := Reading(pack, path, head[path]);
          var hit := Lookup(reading);
          if !hit {
            RecordMiss(reading);
          }
          read := read + {reading};
        }
      }
      assert listed[..|listed|] == listed;
    }
  }
}
