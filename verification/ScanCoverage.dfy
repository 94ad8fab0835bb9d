// What one scan of a checkout reads: the directory walk, the diff walk, and how far
// each of them lets a checkpoint claim that every file was measured.
module ScanCoverage {
  /** The tenant's scan-scope setting; a wider scope lists more file extensions. */
  datatype Scope = Minimal | Standard | Extended

  /** The narrowest extension list that admits a file name. Special names, `.env*` and
      extensionless names are `Core`: every scope scans them. */
  datatype NameKind = Core | Data | Prose | Unlisted

  datatype Path = Path(name: string, kind: NameKind, skippedDir: bool)

  /** `readable` is the walk's screen (non-empty, within the size cap, no NUL bytes);
      `marker` says the content carries a private-key or provider-token marker, which
      promotes a file whose name no list admits. */
  datatype Content = Content(text: string, readable: bool, marker: bool)

  type Tree = map<Path, Content>

  /** A rule-pack fingerprint: it folds in the rules and the scan scope. */
  datatype Pack = Pack(rules: nat, scope: Scope)

  /** One file content measured against one pack. */
  datatype Reading = Reading(pack: Pack, path: Path, content: Content)

  function Width(scope: Scope): nat {
    match scope
    case Minimal => 0
    case Standard => 1
    case Extended => 2
  }

  predicate Lists(scope: Scope, kind: NameKind) {
    match kind
    case Core => true
    case Data => scope != Minimal
    case Prose => scope == Extended
    case Unlisted => false
  }

  /** The directory walk reads by the scanner's own scope. */
  predicate WalkReads(scope: Scope, path: Path, content: Content) {
    !path.skippedDir && content.readable && (Lists(scope, path.kind) || content.marker)
  }

  /** The diff walk passes no extension set, so it always reads by the standard list. */
  predicate DiffReads(path: Path, content: Content) {
    Lists(Standard, path.kind) || content.marker
  }

  predicate Changed(base: Tree, head: Tree, path: Path) {
    path in head && (path !in base || base[path] != head[path])
  }

  function ChangedPaths(base: Tree, head: Tree): set<Path> {
    set path | path in head && Changed(base, head, path)
  }

  /** Everything a full walk of `tree` reads. */
  function FullReadings(pack: Pack, tree: Tree): set<Reading> {
    set path | path in tree && WalkReads(pack.scope, path, tree[path]) :: Reading(pack, path, tree[path])
  }

  /** Everything the diff walk reads when git listed `listed`. */
  function DiffReadings(pack: Pack, head: Tree, listed: set<Path>): set<Reading> {
    set path | path in listed && path in head && DiffReads(path, head[path]) :: Reading(pack, path, head[path])
  }

  /** Every file a walk of scope `scope` would read has been measured under some pack. */
  ghost predicate Covered(recorded: set<Reading>, scope: Scope, tree: Tree) {
    forall path :: path in tree && WalkReads(scope, path, tree[path]) ==>
      Measured(recorded, path, tree[path])
  }

  ghost predicate Measured(recorded: set<Reading>, path: Path, content: Content) {
    exists reading :: reading in recorded && reading.path == path && reading.content == content
  }

  /** Every file a full walk under `pack` would read has been measured under that pack. */
  ghost predicate CoveredUnder(recorded: set<Reading>, pack: Pack, tree: Tree) {
    FullReadings(pack, tree) <= recorded
  }

  /** Changed files that the full walk reads and this diff walk does not. */
  function Missed(scope: Scope, base: Tree, head: Tree, listed: set<Path>): set<Path> {
    set path | path in head && Changed(base, head, path) && WalkReads(scope, path, head[path])
               && !(path in listed && DiffReads(path, head[path]))
  }

  /** Which files the walks read, by name: special names always, data files from the standard
      scope on, prose under the extended scope only, other names only by their content. */
  lemma NamesDecide(scope: Scope, path: Path, content: Content)
    ensures WalkReads(scope, path, content) ==> !path.skippedDir && content.readable
    ensures !path.skippedDir && content.readable ==>
              (WalkReads(scope, path, content) <==>
                 content.marker || path.kind == Core || (path.kind == Data && scope != Minimal)
                 || (path.kind == Prose && scope == Extended))
    ensures DiffReads(path, content) <==> content.marker || path.kind == Core || path.kind == Data
  {}

  lemma CoverageGrows(recorded: set<Reading>, more: set<Reading>, scope: Scope, tree: Tree)
    requires recorded <= more
    requires Covered(recorded, scope, tree)
    ensures Covered(more, scope, tree)
  {
    forall path | path in tree && WalkReads(scope, path, tree[path])
      ensures Measured(more, path, tree[path])
    {
      var reading :| reading in recorded && reading.path == path && reading.content == tree[path];
      assert reading in more;
    }
  }

  lemma WalkReadsWidens(narrow: Scope, wide: Scope, path: Path, content: Content)
    requires Width(narrow) <= Width(wide)
    ensures WalkReads(narrow, path, content) ==> WalkReads(wide, path, content)
  {}

  /** Files that a walk of scope `scope` reads and one of scope `narrow` does not. */
  function Added(narrow: Scope, scope: Scope, tree: Tree): set<Path> {
    set path | path in tree && WalkReads(scope, path, tree[path]) && !WalkReads(narrow, path, tree[path])
  }

  /** A full walk covers its tree at another scope exactly when the files that scope adds had
      been read before. */
  lemma FullWalkCoversScopeIff(recorded: set<Reading>, pack: Pack, scope: Scope, tree: Tree)
    ensures Covered(recorded + FullReadings(pack, tree), scope, tree)
       <==> AllMeasured(recorded, Added(pack.scope, scope, tree), tree)
  {
    var now := recorded + FullReadings(pack, tree);
    forall path | path in tree && WalkReads(scope, path, tree[path])
      ensures Measured(now, path, tree[path])
         <==> path !in Added(pack.scope, scope, tree) || Measured(recorded, path, tree[path])
    {
      if path in Added(pack.scope, scope, tree) {
        assert forall reading :: reading in FullReadings(pack, tree) ==> reading.path != path;
      } else {
        assert Reading(pack, path, tree[path]) in FullReadings(pack, tree);
      }
      if Measured(recorded, path, tree[path]) {
        MeasuredGrows(recorded, now, path, tree[path]);
      }
    }
  }

  /** A wider walk adds none. */
  lemma WiderWalkAddsNothing(wide: Scope, scope: Scope, tree: Tree)
    requires Width(scope) <= Width(wide)
    ensures Added(wide, scope, tree) == {}
  {
    forall path | path in tree ensures path !in Added(wide, scope, tree) {
      WalkReadsWidens(scope, wide, path, tree[path]);
    }
  }

  /** Exactly when a diff walk leaves the head fully measured under the pack that
      measured its base: every file it missed had been measured before. */
  lemma DiffWalkCoversUnderIff(recorded: set<Reading>, pack: Pack, base: Tree, head: Tree, listed: set<Path>)
    requires CoveredUnder(recorded, pack, base)
    requires listed <= ChangedPaths(base, head)
    ensures CoveredUnder(recorded + DiffReadings(pack, head, listed), pack, head)
       <==> forall path :: path in Missed(pack.scope, base, head, listed) ==> Reading(pack, path, head[path]) in recorded
  {
    var now := recorded + DiffReadings(pack, head, listed);
    if forall path :: path in Missed(pack.scope, base, head, listed) ==> Reading(pack, path, head[path]) in recorded {
      forall reading | reading in FullReadings(pack, head)
        ensures reading in now
      {
        var path := reading.path;
        if !Changed(base, head, path) {
          assert reading in FullReadings(pack, base);
        } else if path in listed && DiffReads(path, head[path]) {
          assert reading in DiffReadings(pack, head, listed);
        } else {
          assert path in Missed(pack.scope, base, head, listed);
        }
      }
    }
    if CoveredUnder(now, pack, head) {
      forall path | path in Missed(pack.scope, base, head, listed)
        ensures Reading(pack, path, head[path]) in recorded
      {
        assert Reading(pack, path, head[path]) in FullReadings(pack, head);
        assert Reading(pack, path, head[path]) !in DiffReadings(pack, head, listed);
      }
    }
  }

  /** All these files of `tree` have been measured at their contents there. */
  ghost predicate AllMeasured(recorded: set<Reading>, paths: set<Path>, tree: Tree) {
    forall path :: path in paths && path in tree ==> Measured(recorded, path, tree[path])
  }

  /** The same for coverage under any pack: from a covered base a diff walk leaves the head
      covered exactly when every file it missed had been measured before. */
  lemma DiffWalkCoversIffMissedRead(recorded: set<Reading>, pack: Pack, scope: Scope, base: Tree, head: Tree, listed: set<Path>)
    requires Covered(recorded, scope, base)
    requires listed <= ChangedPaths(base, head)
    ensures Covered(recorded + DiffReadings(pack, head, listed), scope, head)
       <==> AllMeasured(recorded, Missed(scope, base, head, listed), head)
  {
    var now := recorded + DiffReadings(pack, head, listed);
    forall path | path in head && WalkReads(scope, path, head[path])
      ensures Measured(now, path, head[path])
         <==> path !in Missed(scope, base, head, listed) || Measured(recorded, path, head[path])
    {
      if path in Missed(scope, base, head, listed) {
        assert forall reading :: reading in DiffReadings(pack, head, listed) ==> reading.path != path;
      } else if Changed(base, head, path) {
        assert Reading(pack, path, head[path]) in DiffReadings(pack, head, listed);
      } else {
        assert Measured(recorded, path, base[path]);
      }
      if Measured(recorded, path, head[path]) {
        MeasuredGrows(recorded, now, path, head[path]);
      }
    }
  }

  lemma MeasuredGrows(recorded: set<Reading>, more: set<Reading>, path: Path, content: Content)
    requires recorded <= more && Measured(recorded, path, content)
    ensures Measured(more, path, content)
  {
    var reading :| reading in recorded && reading.path == path && reading.content == content;
    assert reading in more;
  }

  /** With a complete listing the diff walk misses a changed file exactly when the scope is
      `Extended`, only the extended list admits the name, and no marker promotes it. */
  lemma CompleteListingMisses(scope: Scope, base: Tree, head: Tree, path: Path)
    requires path in head && Changed(base, head, path)
    ensures path in Missed(scope, base, head, ChangedPaths(base, head))
       <==> scope == Extended && path.kind == Prose && !head[path].marker
            && head[path].readable && !path.skippedDir
  {
    assert path in ChangedPaths(base, head);
  }

  lemma StandardScopeMissesNothing(scope: Scope, base: Tree, head: Tree)
    requires scope != Extended
    ensures Missed(scope, base, head, ChangedPaths(base, head)) == {}
  {
    forall path | path in head && Changed(base, head, path)
      ensures path !in Missed(scope, base, head, ChangedPaths(base, head))
    {
      CompleteListingMisses(scope, base, head, path);
    }
  }

  /** Exactly when a diff walk with git's whole listing leaves the head covered, whatever
      its base: every file that base and head share had been measured before. */
  lemma DiffWalkCoversIff(recorded: set<Reading>, pack: Pack, scope: Scope, base: Tree, head: Tree)
    requires scope != Extended
    ensures Covered(recorded + DiffReadings(pack, head, ChangedPaths(base, head)), scope, head)
       <==> forall path :: path in head && !Changed(base, head, path) && WalkReads(scope, path, head[path])
                           ==> Measured(recorded, path, head[path])
  {
    var listed := ChangedPaths(base, head);
    var now := recorded + DiffReadings(pack, head, listed);
    forall path | path in head && WalkReads(scope, path, head[path])
      ensures Measured(now, path, head[path]) <==> Changed(base, head, path) || Measured(recorded, path, head[path])
    {
      if Changed(base, head, path) {
        assert Reading(pack, path, head[path]) in DiffReadings(pack, head, listed);
      } else if Measured(recorded, path, head[path]) {
        var reading :| reading in recorded && reading.path == path && reading.content == head[path];
        assert reading in now;
      } else {
        assert forall reading :: reading in DiffReadings(pack, head, listed) ==> reading.path != path;
      }
    }
  }

  /** Exactly when a full walk of `work` measures commit tree `head` under its pack: every
      file the walk of `head` would read is in `work` unchanged or was measured before. */
  lemma FullWalkCoversUnderIff(recorded: set<Reading>, pack: Pack, work: Tree, head: Tree)
    ensures CoveredUnder(recorded + FullReadings(pack, work), pack, head)
       <==> forall path :: path in head && WalkReads(pack.scope, path, head[path])
                           ==> !Changed(work, head, path) || Reading(pack, path, head[path]) in recorded
  {
    forall path | path in head && WalkReads(pack.scope, path, head[path])
      ensures Reading(pack, path, head[path]) in FullReadings(pack, head)
      ensures Reading(pack, path, head[path]) in FullReadings(pack, work) <==> !Changed(work, head, path)
    {}
  }
}
