/**
 What the wizard checks before it trusts a staging directory, and the crash
 invariant: everything that can be on disk when the process stops between any
 two file-system steps of a save or of a recovery.
 */
module SetupTransaction {
  import opened Common
  import opened SetupDisk

  const SECRET_COUNT := 12

  // ---- Checks made by the code -------------------------------------------

  predicate ItemShape(item: StagedFile) {
    && item.destination.Destination?
    && (item.destination.target.Secret? ==> item.destination.target.index < SECRET_COUNT)
    && item.temporary.Run? && item.temporary.name.Temporary?
    && item.rollback.Some? == item.existed
    && item.originalIdentity.Some? == item.existed
    && (item.rollback.Some? ==> item.rollback.value.Run? && item.rollback.value.name.Rollback?)
  }

  predicate ManifestWellFormed(items: seq<StagedFile>) {
    && 1 <= |items| <= SECRET_COUNT + 1
    && (forall i | 0 <= i < |items| :: ItemShape(items[i]))
    && (forall i, j | 0 <= i < j < |items| :: Separate(items[i], items[j]))
  }

  /** Two items of one manifest never share a destination or an artifact. */
  predicate Separate(a: StagedFile, b: StagedFile) {
    && a.destination != b.destination
    && a.temporary != b.temporary
    && (a.rollback.Some? && b.rollback.Some? ==> a.rollback != b.rollback)
  }

  function LoadManifest(fs: Fs): Option<seq<StagedFile>> {
    var path := Run(Manifest);
    if path in fs.files && fs.LinkCount(fs.files[path]) == 1
       && fs.Read(path).ManifestOf? && ManifestWellFormed(fs.Read(path).items)
    then Some(fs.Read(path).items)
    else None
  }

  predicate ItemIsValid(fs: Fs, item: StagedFile) {
    var hasTemporary := item.temporary in fs.files;
    var hasRollback := item.rollback.Some? && item.rollback.value in fs.files;
    var hasDestination := item.destination in fs.files;
    var isStaged := hasDestination && fs.files[item.destination] == item.stagedIdentity;
    var isOriginal := hasDestination && Some(fs.files[item.destination]) == item.originalIdentity;
    var stagedLinks := (if hasTemporary then 1 else 0) + (if isStaged then 1 else 0);
    var originalLinks := (if hasRollback then 1 else 0) + (if isOriginal then 1 else 0);
    && (hasTemporary ==> fs.files[item.temporary] == item.stagedIdentity)
    && (hasRollback ==> Some(fs.files[item.rollback.value]) == item.originalIdentity)
    && (hasDestination ==> isStaged || isOriginal)
    && (!hasDestination ==> !item.existed)
    && (hasTemporary ==> fs.LinkCount(fs.files[item.temporary]) == stagedLinks)
    && (isStaged ==> fs.LinkCount(fs.files[item.destination]) == stagedLinks)
    && (item.originalIdentity.Some? ==>
          && (hasRollback ==> fs.LinkCount(fs.files[item.rollback.value]) == originalLinks)
          && (isOriginal ==> fs.LinkCount(fs.files[item.destination]) == originalLinks))
  }

  predicate TransactionItemsAreValid(fs: Fs, staged: seq<StagedFile>) {
    forall item | item in staged :: ItemIsValid(fs, item)
  }

  predicate PreparingMarkerIsValid(fs: Fs) {
    var path := Run(Preparing);
    path in fs.files && fs.LinkCount(fs.files[path]) == 1 && fs.Read(path) == PreparingMark
  }

  predicate CommittedMarkerIsValid(fs: Fs) {
    var path := Run(Committed);
    && path in fs.files
    && fs.LinkCount(fs.files[path]) == 1
    && Run(Manifest) in fs.files
    && fs.LinkCount(fs.files[Run(Manifest)]) == 1
    && fs.Read(path) == Digest(fs.Read(Run(Manifest)))
  }

  predicate DestinationsMatchStagedIdentity(fs: Fs, staged: seq<StagedFile>) {
    forall item | item in staged ::
      item.destination in fs.files && fs.files[item.destination] == item.stagedIdentity
  }

  predicate IsArtifactOf(path: Path, staged: seq<StagedFile>) {
    exists item | item in staged :: path == item.temporary || Some(path) == item.rollback
  }

  predicate EntryIsKnown(path: Path, staged: seq<StagedFile>)
    requires path.Run?
  {
    || path.name in {Manifest, ManifestTemp, CommittedTemp, Preparing, PreparingTemp}
    || IsArtifactOf(path, staged)
  }

  predicate RunDirectoryEntriesAreKnown(fs: Fs, staged: seq<StagedFile>, committed: bool) {
    && PreparingMarkerIsValid(fs)
    && (if committed
        then CommittedMarkerIsValid(fs) && DestinationsMatchStagedIdentity(fs, staged)
        else Run(Committed) !in fs.files)
    && (forall p | p in fs.files && p.Run? ::
          EntryIsKnown(p, staged) || (committed && p.name == Committed))
  }

  predicate IsArtifact(p: Path) {
    p.Run? && (p.name.Temporary? || p.name.Rollback?)
  }

  /** The test each child must pass when a run directory has no manifest. */
  predicate ChildIsOwned(fs: Fs, p: Path, hasCommitted: bool)
    requires p in fs.files && p.Run?
  {
    var links := fs.LinkCount(fs.files[p]);
    match p.name
    case Committed => hasCommitted && links == 1 && fs.Read(p).Digest?
    case Preparing | PreparingTemp | ManifestTemp | CommittedTemp => links == 1
    case Temporary(_) => !hasCommitted && links == 1
    case Rollback(_) => !hasCommitted
    case _ => false
  }

  // ---- Invariants ---------------------------------------------------------

  /** Only a destination and one artifact ever share an inode. */
  ghost predicate MayAlias(p: Path, q: Path) {
    (p.Destination? && IsArtifact(q)) || (q.Destination? && IsArtifact(p))
  }

  ghost predicate WellFormed(fs: Fs) {
    && (forall p | p in fs.files :: fs.files[p] in fs.content)
    && (forall i | i in fs.content :: i < fs.next)
    && (forall p | p in fs.files :: p.Run? ==> fs.runDir)
    && (forall p, q | p in fs.files && q in fs.files && p != q && fs.files[p] == fs.files[q] ::
          MayAlias(p, q))
  }

  /** From `a` to `b` nothing but entries of the run directory, or that directory, has gone. */
  ghost predicate OnlyEntriesRemoved(a: Fs, b: Fs) {
    && b.content == a.content
    && (forall p | p in b.files :: p in a.files && b.files[p] == a.files[p])
    && (forall p | p in a.files && p.Destination? :: p in b.files)
  }

  /** A transaction: the disk it started from and the contents to install. */
  datatype Plan = Plan(before: Fs, values: seq<(Target, Bytes)>)

  ghost predicate SameAt(plan: Plan, fs: Fs, p: Path) {
    && (p in plan.before.files <==> p in fs.files)
    && (p in fs.files ==> fs.files[p] == plan.before.files[p])
  }

  /** No destination has changed. */
  ghost predicate Untouched(plan: Plan, fs: Fs) {
    forall p: Path | p.Destination? :: SameAt(plan, fs, p)
  }

  ghost predicate Planned(plan: Plan, p: Path) {
    exists i | 0 <= i < |plan.values| :: p == Destination(plan.values[i].0)
  }

  ghost predicate OthersUntouched(plan: Plan, fs: Fs) {
    forall p: Path | p.Destination? && !Planned(plan, p) :: SameAt(plan, fs, p)
  }

  /** Every planned destination holds its new content, no other has changed. */
  ghost predicate Installed(plan: Plan, fs: Fs) {
    && (forall i | 0 <= i < |plan.values| ::
          && Destination(plan.values[i].0) in fs.files
          && fs.Read(Destination(plan.values[i].0)) == Text(plan.values[i].1))
    && OthersUntouched(plan, fs)
  }

  ghost predicate Base(plan: Plan, fs: Fs) {
    && WellFormed(plan.before) && !plan.before.runDir
    && WellFormed(fs)
    && plan.before.next <= fs.next
    && (forall i | i in plan.before.content ::
          i in fs.content && fs.content[i] == plan.before.content[i])
    && (forall p | p in fs.files && p.Run? && !p.name.Rollback? :: plan.before.next <= fs.files[p])
  }

  /** Before the manifest is published and after it has been removed. */
  ghost predicate Draft(plan: Plan, fs: Fs, published: bool) {
    && Run(Manifest) !in fs.files
    && (if published then Installed(plan, fs)
        else Untouched(plan, fs) && Run(Committed) !in fs.files)
    && (forall p | p in fs.files && p.Run? ::
          && !p.name.Other?
          && (p.name.Preparing? ==> fs.Read(p) == PreparingMark)
          && (p.name.Committed? ==> fs.Read(p).Digest?)
          && (p.name.Temporary? ==> forall q | q in fs.files && q != p :: fs.files[q] != fs.files[p])
          && (IsArtifact(p) ==> Run(Committed) !in fs.files))
  }

  ghost predicate Tracks(fs: Fs, item: StagedFile) {
    && ItemShape(item)
    && (item.temporary in fs.files ==> fs.files[item.temporary] == item.stagedIdentity)
    && (item.rollback.Some? && item.rollback.value in fs.files ==>
          Some(fs.files[item.rollback.value]) == item.originalIdentity)
    && (item.destination in fs.files ==>
          || fs.files[item.destination] == item.stagedIdentity
          || Some(fs.files[item.destination]) == item.originalIdentity)
    && (item.destination !in fs.files ==> !item.existed)
    && (forall p | p in fs.files && fs.files[p] == item.stagedIdentity ::
          p == item.temporary || p == item.destination)
    && (item.existed ==> forall p | p in fs.files && fs.files[p] == item.originalIdentity.value ::
          Some(p) == item.rollback || p == item.destination)
  }

  ghost predicate IsStagedAt(fs: Fs, item: StagedFile) {
    item.destination in fs.files && fs.files[item.destination] == item.stagedIdentity
  }

  ghost predicate CanUndo(fs: Fs, item: StagedFile) {
    item.existed && IsStagedAt(fs, item) ==> item.rollback.Some? && item.rollback.value in fs.files
  }

  ghost predicate MatchesAt(plan: Plan, fs: Fs, items: seq<StagedFile>, i: int)
    requires 0 <= i < |items| <= |plan.values|
  {
    var item := items[i];
    && item.destination == Destination(plan.values[i].0)
    && (item.existed <==> item.destination in plan.before.files)
    && (item.existed ==> item.originalIdentity == Some(plan.before.files[item.destination]))
    && plan.before.next <= item.stagedIdentity
    && item.stagedIdentity in fs.content
    && fs.content[item.stagedIdentity] == Text(plan.values[i].1)
  }

  /** The items describe the first values of the plan and their inodes are all different. */
  ghost predicate Describes(plan: Plan, fs: Fs, items: seq<StagedFile>) {
    && |items| <= |plan.values|
    && (forall i | 0 <= i < |items| :: MatchesAt(plan, fs, items, i))
    && (forall i | 0 <= i < |items| :: Tracks(fs, items[i]))
    && (forall i, j | 0 <= i < j < |items| ::
          Separate(items[i], items[j]) && items[i].stagedIdentity != items[j].stagedIdentity)
  }

  /** While the manifest is on disk. */
  ghost predicate Logged(plan: Plan, fs: Fs, items: seq<StagedFile>) {
    && Run(Manifest) in fs.files && fs.Read(Run(Manifest)) == ManifestOf(items)
    && Run(Preparing) in fs.files && fs.Read(Run(Preparing)) == PreparingMark
    && ManifestWellFormed(items)
    && |items| == |plan.values|
    && Describes(plan, fs, items)
    && OthersUntouched(plan, fs)
    && (forall p | p in fs.files && p.Run? :: EntryIsKnown(p, items) || p.name == Committed)
  }

  /** Manifest published, COMMITTED not: everything can be undone. */
  ghost predicate Open(plan: Plan, fs: Fs, items: seq<StagedFile>) {
    && Logged(plan, fs, items)
    && Run(Committed) !in fs.files
    && (forall i | 0 <= i < |items| :: CanUndo(fs, items[i]))
  }

  /** Manifest and COMMITTED published: every destination is its staged inode. */
  ghost predicate Sealed(plan: Plan, fs: Fs, items: seq<StagedFile>) {
    && Logged(plan, fs, items)
    && Run(Committed) in fs.files
    && fs.Read(Run(Committed)) == Digest(fs.Read(Run(Manifest)))
    && (forall i | 0 <= i < |items| :: IsStagedAt(fs, items[i]))
  }

  ghost function ItemsOnDisk(fs: Fs): seq<StagedFile> {
    var content := fs.Read(Run(Manifest));
    if content.ManifestOf? then content.items else []
  }

  /** What may be on disk whenever the process stops. */
  ghost predicate CrashInvariant(plan: Plan, fs: Fs, published: bool) {
    && Base(plan, fs)
    && (if Run(Manifest) !in fs.files then Draft(plan, fs, published)
        else if published then Sealed(plan, fs, ItemsOnDisk(fs))
        else Open(plan, fs, ItemsOnDisk(fs)))
  }

  /** The transaction has reached its final outcome on the destinations. */
  ghost predicate Settled(plan: Plan, fs: Fs, published: bool) {
    if published then Installed(plan, fs) else Untouched(plan, fs)
  }

  /** What recovery can still repair: an empty run directory or a PREPARING marker. */
  predicate Recoverable(fs: Fs) {
    Run(Preparing) in fs.files || forall p | p in fs.files :: !p.Run?
  }

  ghost predicate NoRunEntries(fs: Fs) {
    forall p | p in fs.files :: !p.Run?
  }

  /** PREPARING is there without a manifest, and so is an artifact. */
  ghost predicate Littered(fs: Fs) {
    Run(Preparing) in fs.files && Run(Manifest) !in fs.files && exists p :: p in fs.files && IsArtifact(p)
  }

  // ---- Link counts --------------------------------------------------------

  lemma LinkCountOfPair(fs: Fs, i: Inode, a: Path, b: Path)
    requires a != b
    requires forall p | p in fs.files && fs.files[p] == i :: p == a || p == b
    ensures fs.LinkCount(i) ==
            (if a in fs.files && fs.files[a] == i then 1 else 0)
            + (if b in fs.files && fs.files[b] == i then 1 else 0)
  {
    OnlyTheseLinks(fs, i, a, b);
  }

  lemma SingleLink(fs: Fs, p: Path)
    requires p in fs.files
    ensures fs.LinkCount(fs.files[p]) == 1 <==>
            forall q | q in fs.files && q != p :: fs.files[q] != fs.files[p]
  {
    var links := fs.Links(fs.files[p]);
    assert p in links;
    if forall q | q in fs.files && q != p :: fs.files[q] != fs.files[p] {
      assert links == {p};
    } else {
      var q :| q in fs.files && q != p && fs.files[q] == fs.files[p];
      assert {p, q} <= links;
      assert |{p, q}| == 2;
      SubsetSize({p, q}, links);
    }
  }

  lemma MarkerHasSingleLink(fs: Fs, p: Path)
    requires WellFormed(fs) && p in fs.files && p.Run? && !IsArtifact(p)
    ensures fs.LinkCount(fs.files[p]) == 1
  {
    SingleLink(fs, p);
  }

  /** With no run directory left, every destination has exactly one link. */
  lemma SettledDestinationsHaveOneLink(fs: Fs, p: Path)
    requires WellFormed(fs) && !fs.runDir && p in fs.files
    ensures fs.LinkCount(fs.files[p]) == 1
  {
    SingleLink(fs, p);
  }

  // ---- What a directory must not look like ----------------------------------

  /** No other name leads to the file of this name. */
  ghost predicate IsAlone(fs: Fs, p: Path)
    requires p in fs.files
  {
    forall q | q in fs.files && fs.files[q] == fs.files[p] :: q == p
  }

  /** As soon as one of the two names leads to the file, no third name does. */
  ghost predicate NamedOnlyBy(fs: Fs, i: Inode, a: Path, b: Path) {
    (a in fs.files && fs.files[a] == i) || (b in fs.files && fs.files[b] == i) ==>
      forall p | p in fs.files && fs.files[p] == i :: p == a || p == b
  }

  /** The names of an item lead to its new and its old file, and no other name does. */
  ghost predicate Intact(fs: Fs, item: StagedFile)
    requires ItemShape(item)
  {
    && (item.temporary in fs.files ==> fs.files[item.temporary] == item.stagedIdentity)
    && NamedOnlyBy(fs, item.stagedIdentity, item.temporary, item.destination)
    && (item.existed ==>
          && (item.rollback.value in fs.files ==> fs.files[item.rollback.value] == item.originalIdentity.value)
          && NamedOnlyBy(fs, item.originalIdentity.value, item.rollback.value, item.destination))
    && (if item.destination in fs.files
        then fs.files[item.destination] == item.stagedIdentity
             || Some(fs.files[item.destination]) == item.originalIdentity
        else !item.existed)
  }

  lemma OnlyTheseLinks(fs: Fs, i: Inode, a: Path, b: Path)
    requires a != b
    ensures (forall p | p in fs.files && fs.files[p] == i :: p == a || p == b) <==>
            fs.LinkCount(i) == (if a in fs.files && fs.files[a] == i then 1 else 0)
                               + (if b in fs.files && fs.files[b] == i then 1 else 0)
  {
    var links := fs.Links(i);
    TwoAtMost(links, a, b);
    assert a in fs.files && fs.files[a] == i <==> a in links;
    assert b in fs.files && fs.files[b] == i <==> b in links;
    assert forall p :: p in fs.files && fs.files[p] == i <==> p in links;
  }

  lemma TwoAtMost<T>(s: set<T>, a: T, b: T)
    requires a != b
    ensures (forall e | e in s :: e == a || e == b) <==> |s| == (if a in s then 1 else 0) + (if b in s then 1 else 0)
  {
    var these := (if a in s then {a} else {}) + (if b in s then {b} else {});
    assert |these| == (if a in s then 1 else 0) + (if b in s then 1 else 0);
    if e :| e in s && e != a && e != b {
      SubsetSize(these + {e}, s);
    } else {
      assert these == s;
    }
  }

  lemma ItemIsValidExactly(fs: Fs, item: StagedFile)
    requires ItemShape(item)
    ensures ItemIsValid(fs, item) <==> Intact(fs, item)
  {
    OnlyTheseLinks(fs, item.stagedIdentity, item.temporary, item.destination);
    if item.existed {
      OnlyTheseLinks(fs, item.originalIdentity.value, item.rollback.value, item.destination);
    }
  }

  /** The directory of a readable manifest is not as any interrupted save or recovery leaves it. */
  ghost predicate Suspect(fs: Fs, items: seq<StagedFile>)
    requires Run(Manifest) in fs.files && forall item | item in items :: ItemShape(item)
  {
    || !(Run(Preparing) in fs.files && IsAlone(fs, Run(Preparing)) && fs.Read(Run(Preparing)) == PreparingMark)
    || (exists item | item in items :: !Intact(fs, item))
    || (exists p | p in fs.files && p.Run? :: IsStrange(p, items))
    || (Run(Committed) in fs.files && !IsSealed(fs, items))
  }

  /** Nothing a transaction with these items creates. */
  ghost predicate IsStrange(p: Path, items: seq<StagedFile>)
    requires p.Run?
  {
    && p != Run(Manifest) && p != Run(ManifestTemp) && p != Run(Preparing) && p != Run(PreparingTemp)
    && p != Run(Committed) && p != Run(CommittedTemp)
    && forall item | item in items :: p != item.temporary && Some(p) != item.rollback
  }

  /** The marker vouches for the manifest, and every new file is in its place. */
  ghost predicate IsSealed(fs: Fs, items: seq<StagedFile>)
    requires Run(Committed) in fs.files && Run(Manifest) in fs.files
  {
    && IsAlone(fs, Run(Committed)) && IsAlone(fs, Run(Manifest))
    && fs.Read(Run(Committed)) == Digest(fs.Read(Run(Manifest)))
    && forall item | item in items ::
         item.destination in fs.files && fs.files[item.destination] == item.stagedIdentity
  }

  /** The checks refuse exactly the suspect directories. */
  lemma ChecksRefuseExactlySuspects(fs: Fs, items: seq<StagedFile>)
    requires Run(Manifest) in fs.files && forall item | item in items :: ItemShape(item)
    ensures Suspect(fs, items) <==>
            !(&& TransactionItemsAreValid(fs, items)
              && RunDirectoryEntriesAreKnown(fs, items, Run(Committed) in fs.files))
  {
    forall item | item in items ensures ItemIsValid(fs, item) <==> Intact(fs, item) {
      ItemIsValidExactly(fs, item);
    }
    MarkersAreChecked(fs, items);
    if Run(Preparing) in fs.files {
      SingleLink(fs, Run(Preparing));
    }
  }

  lemma MarkersAreChecked(fs: Fs, items: seq<StagedFile>)
    requires Run(Manifest) in fs.files
    ensures Run(Committed) in fs.files ==>
              (IsSealed(fs, items) <==> CommittedMarkerIsValid(fs) && DestinationsMatchStagedIdentity(fs, items))
    ensures forall p | p in fs.files && p.Run? ::
              IsStrange(p, items) <==> !EntryIsKnown(p, items) && p.name != Committed
  {
    SingleLink(fs, Run(Manifest));
    if Run(Committed) in fs.files {
      SingleLink(fs, Run(Committed));
    }
  }

  lemma TrackedItemIsValid(fs: Fs, item: StagedFile)
    requires Tracks(fs, item)
    requires item.originalIdentity != Some(item.stagedIdentity)
    ensures ItemIsValid(fs, item)
  {
    LinkCountOfPair(fs, item.stagedIdentity, item.temporary, item.destination);
    if item.existed {
      LinkCountOfPair(fs, item.originalIdentity.value, item.rollback.value, item.destination);
    }
  }

  lemma DescribedItemsAreValid(plan: Plan, fs: Fs, items: seq<StagedFile>)
    requires Base(plan, fs) && Describes(plan, fs, items)
    ensures TransactionItemsAreValid(fs, items)
  {
    forall item | item in items ensures ItemIsValid(fs, item) {
      var i :| 0 <= i < |items| && items[i] == item;
      assert MatchesAt(plan, fs, items, i);
      TrackedItemIsValid(fs, item);
    }
  }
}
