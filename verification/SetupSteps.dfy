/** Each single file-system step of the wizard keeps the crash invariant. */
module SetupSteps {
  import opened Common
  import opened SetupDisk
  import opened SetupTransaction

  // ---- Removing entries of the run directory -----------------------------

  lemma BaseUnlink(plan: Plan, fs: Fs, p: Path)
    requires Base(plan, fs)
    ensures Base(plan, fs.Unlink(p))
  {
  }

  lemma DescribesUnlinkRun(plan: Plan, fs: Fs, items: seq<StagedFile>, p: Path)
    requires Base(plan, fs) && Describes(plan, fs, items) && p.Run?
    ensures Describes(plan, fs.Unlink(p), items)
  {
    var after := fs.Unlink(p);
    forall i | 0 <= i < |items| ensures MatchesAt(plan, after, items, i) && Tracks(after, items[i]) {
      assert MatchesAt(plan, fs, items, i) && Tracks(fs, items[i]);
    }
  }

  lemma LoggedUnlink(plan: Plan, fs: Fs, items: seq<StagedFile>, p: Path)
    requires Base(plan, fs) && Logged(plan, fs, items)
    requires p.Run? && p.name != Manifest && p.name != Preparing
    ensures Logged(plan, fs.Unlink(p), items)
  {
    DescribesUnlinkRun(plan, fs, items, p);
    var after := fs.Unlink(p);
    forall q: Path | q.Destination? && !Planned(plan, q) ensures SameAt(plan, after, q) {
      assert SameAt(plan, fs, q);
    }
  }

  /** With every destination untouched there is nothing left to undo. */
  lemma UntouchedNeedsNoUndo(plan: Plan, fs: Fs, items: seq<StagedFile>)
    requires Base(plan, fs) && Describes(plan, fs, items) && Untouched(plan, fs)
    ensures forall i | 0 <= i < |items| :: CanUndo(fs, items[i]) && !IsStagedAt(fs, items[i])
  {
    forall i | 0 <= i < |items| ensures CanUndo(fs, items[i]) && !IsStagedAt(fs, items[i]) {
      assert MatchesAt(plan, fs, items, i);
      assert SameAt(plan, fs, items[i].destination);
    }
  }

  lemma SettledUnlink(plan: Plan, fs: Fs, published: bool, p: Path)
    requires Settled(plan, fs, published) && p.Run?
    ensures Settled(plan, fs.Unlink(p), published)
  {
    var after := fs.Unlink(p);
    forall q: Path | q.Destination? && SameAt(plan, fs, q) ensures SameAt(plan, after, q) {
    }
    if published {
      forall i | 0 <= i < |plan.values|
        ensures Destination(plan.values[i].0) in after.files
                && after.Read(Destination(plan.values[i].0)) == Text(plan.values[i].1)
      {
        assert Destination(plan.values[i].0) in fs.files;
      }
    } else {
      forall q: Path | q.Destination? ensures SameAt(plan, after, q) {
        assert SameAt(plan, fs, q);
      }
    }
  }

  lemma DraftUnlink(plan: Plan, fs: Fs, published: bool, p: Path)
    requires Base(plan, fs) && Draft(plan, fs, published) && p.Run?
    ensures Base(plan, fs.Unlink(p)) && Draft(plan, fs.Unlink(p), published)
  {
    BaseUnlink(plan, fs, p);
    SettledUnlink(plan, fs, published, p);
  }

  lemma SealedUnlink(plan: Plan, fs: Fs, items: seq<StagedFile>, p: Path)
    requires Base(plan, fs) && Sealed(plan, fs, items)
    requires p.Run? && p.name != Manifest && p.name != Preparing && p.name != Committed
    ensures Base(plan, fs.Unlink(p)) && Sealed(plan, fs.Unlink(p), items)
  {
    BaseUnlink(plan, fs, p);
    LoggedUnlink(plan, fs, items, p);
    var after := fs.Unlink(p);
    forall i | 0 <= i < |items| ensures IsStagedAt(after, items[i]) {
      assert IsStagedAt(fs, items[i]) && Tracks(fs, items[i]);
    }
  }

  lemma OpenUnlink(plan: Plan, fs: Fs, items: seq<StagedFile>, p: Path)
    requires Base(plan, fs) && Open(plan, fs, items) && Untouched(plan, fs)
    requires p.Run? && p.name != Manifest && p.name != Preparing
    ensures Base(plan, fs.Unlink(p)) && Open(plan, fs.Unlink(p), items)
    ensures Untouched(plan, fs.Unlink(p))
  {
    BaseUnlink(plan, fs, p);
    LoggedUnlink(plan, fs, items, p);
    SettledUnlink(plan, fs, false, p);
    UntouchedNeedsNoUndo(plan, fs.Unlink(p), items);
  }

  lemma SealedIsInstalled(plan: Plan, fs: Fs, items: seq<StagedFile>)
    requires Base(plan, fs) && Sealed(plan, fs, items)
    ensures Installed(plan, fs)
  {
    forall i | 0 <= i < |plan.values|
      ensures Destination(plan.values[i].0) in fs.files
              && fs.Read(Destination(plan.values[i].0)) == Text(plan.values[i].1)
    {
      assert MatchesAt(plan, fs, items, i);
      assert IsStagedAt(fs, items[i]);
    }
  }

  ghost predicate NoArtifacts(fs: Fs) {
    forall p | p in fs.files :: !IsArtifact(p)
  }

  /** Removing the manifest last leaves a draft with the outcome already settled. */
  lemma ManifestUnlink(plan: Plan, fs: Fs, published: bool)
    requires CrashInvariant(plan, fs, published) && Settled(plan, fs, published)
    requires Run(Manifest) in fs.files && NoArtifacts(fs)
    ensures CrashInvariant(plan, fs.Unlink(Run(Manifest)), published)
  {
    var after := fs.Unlink(Run(Manifest));
    BaseUnlink(plan, fs, Run(Manifest));
    SettledUnlink(plan, fs, published, Run(Manifest));
    var items := ItemsOnDisk(fs);
    assert Logged(plan, fs, items);
    forall p | p in after.files && p.Run?
      ensures !p.name.Other?
      ensures p.name.Preparing? ==> after.Read(p) == PreparingMark
      ensures p.name.Committed? ==> after.Read(p).Digest?
    {
      assert EntryIsKnown(p, items) || p.name == Committed;
      assert !IsArtifact(p);
      assert fs.Read(p) == after.Read(p);
    }
  }

  /** The unlink steps of cleanup, in every phase. */
  lemma CrashUnlink(plan: Plan, fs: Fs, published: bool, p: Path)
    requires CrashInvariant(plan, fs, published) && Settled(plan, fs, published) && p.Run?
    requires !(Run(Manifest) in fs.files && p.name in {Preparing, Committed})
    requires p.name == Manifest ==> NoArtifacts(fs)
    ensures CrashInvariant(plan, fs.Unlink(p), published)
    ensures Settled(plan, fs.Unlink(p), published)
    ensures p.name != Manifest ==> ItemsOnDisk(fs.Unlink(p)) == ItemsOnDisk(fs)
  {
    SettledUnlink(plan, fs, published, p);
    if Run(Manifest) !in fs.files {
      DraftUnlink(plan, fs, published, p);
    } else if p.name == Manifest {
      ManifestUnlink(plan, fs, published);
    } else if published {
      SealedUnlink(plan, fs, ItemsOnDisk(fs), p);
    } else {
      OpenUnlink(plan, fs, ItemsOnDisk(fs), p);
    }
  }

  lemma CrashRemoveDirectory(plan: Plan, fs: Fs, published: bool)
    requires CrashInvariant(plan, fs, published)
    requires forall p | p in fs.files :: !p.Run?
    ensures CrashInvariant(plan, fs.(runDir := false), published)
  {
    var after := fs.(runDir := false);
    assert after.files == fs.files && after.content == fs.content;
    forall p: Path | p.Destination? && SameAt(plan, fs, p) ensures SameAt(plan, after, p) {
    }
    if published {
      forall i | 0 <= i < |plan.values|
        ensures after.Read(Destination(plan.values[i].0)) == Text(plan.values[i].1)
      {
        assert fs.Read(Destination(plan.values[i].0)) == Text(plan.values[i].1);
      }
    } else {
      forall p: Path | p.Destination? ensures SameAt(plan, after, p) {
        assert SameAt(plan, fs, p);
      }
    }
  }

  // ---- Rolling back --------------------------------------------------------

  ghost predicate Restored(plan: Plan, fs: Fs, item: StagedFile) {
    SameAt(plan, fs, item.destination)
  }

  lemma DistinctOriginals(plan: Plan, fs: Fs, items: seq<StagedFile>, i: int, j: int)
    requires Base(plan, fs) && Describes(plan, fs, items)
    requires 0 <= i < |items| && 0 <= j < |items| && i != j
    ensures Separate(items[i], items[j]) && items[i].stagedIdentity != items[j].stagedIdentity
    ensures items[i].existed && items[j].existed ==> items[i].originalIdentity != items[j].originalIdentity
    ensures items[i].existed ==> items[i].originalIdentity != Some(items[j].stagedIdentity)
    ensures items[i].existed ==> items[i].originalIdentity != Some(items[i].stagedIdentity)
  {
    assert MatchesAt(plan, fs, items, i) && MatchesAt(plan, fs, items, j);
    if i < j {
      assert Separate(items[i], items[j]);
    } else {
      assert Separate(items[j], items[i]);
    }
  }

  /**
   A step that only touches paths of item `k`, and brings none of the inodes of
   another item to a new path, leaves the other items tracked.
   */
  lemma TracksFrame(fs: Fs, after: Fs, item: StagedFile)
    requires Tracks(fs, item)
    requires forall p | p == item.destination || p == item.temporary || Some(p) == item.rollback ::
               (p in fs.files <==> p in after.files) && (p in fs.files ==> fs.files[p] == after.files[p])
    requires forall p | p in after.files
               && (after.files[p] == item.stagedIdentity || Some(after.files[p]) == item.originalIdentity) ::
               p in fs.files && fs.files[p] == after.files[p]
    ensures Tracks(after, item)
    ensures CanUndo(fs, item) ==> CanUndo(after, item)
  {
  }

  /** The state after undoing item `k`. */
  function Undone(fs: Fs, item: StagedFile): Fs
    requires item.rollback.Some? ==> item.rollback.value in fs.files
  {
    if item.rollback.Some? then fs.Replace(item.rollback.value, item.destination)
    else fs.Unlink(item.destination)
  }

  lemma UndoKeepsItem(plan: Plan, fs: Fs, items: seq<StagedFile>, k: int, j: int)
    requires Base(plan, fs) && Open(plan, fs, items)
    requires 0 <= k < |items| && IsStagedAt(fs, items[k]) && 0 <= j < |items|
    requires items[k].rollback.Some? ==> items[k].rollback.value in fs.files
    ensures Tracks(Undone(fs, items[k]), items[j]) && CanUndo(Undone(fs, items[k]), items[j])
    ensures MatchesAt(plan, Undone(fs, items[k]), items, j)
  {
    assert MatchesAt(plan, fs, items, k) && Tracks(fs, items[k]) && CanUndo(fs, items[k]);
    assert MatchesAt(plan, fs, items, j) && Tracks(fs, items[j]) && CanUndo(fs, items[j]);
    if j != k {
      DistinctOriginals(plan, fs, items, k, j);
      TracksFrame(fs, Undone(fs, items[k]), items[j]);
    }
  }

  lemma UndoRestores(plan: Plan, fs: Fs, items: seq<StagedFile>, k: int)
    requires Base(plan, fs) && Open(plan, fs, items)
    requires 0 <= k < |items| && IsStagedAt(fs, items[k])
    requires items[k].rollback.Some? ==> items[k].rollback.value in fs.files
    ensures Restored(plan, Undone(fs, items[k]), items[k])
    ensures forall p: Path | p.Destination? && p != items[k].destination && SameAt(plan, fs, p) ::
              SameAt(plan, Undone(fs, items[k]), p)
    ensures forall j | 0 <= j < |items| && j != k ::
              Restored(plan, fs, items[j]) ==> Restored(plan, Undone(fs, items[k]), items[j])
  {
    assert MatchesAt(plan, fs, items, k) && Tracks(fs, items[k]) && CanUndo(fs, items[k]);
    var after := Undone(fs, items[k]);
    forall p: Path | p.Destination? && p != items[k].destination && SameAt(plan, fs, p)
      ensures SameAt(plan, after, p)
    {
    }
    forall j | 0 <= j < |items| && j != k && Restored(plan, fs, items[j])
      ensures Restored(plan, after, items[j])
    {
      DistinctOriginals(plan, fs, items, k, j);
      assert Tracks(fs, items[j]);
    }
  }

  lemma UndoKeepsOpen(plan: Plan, fs: Fs, items: seq<StagedFile>, k: int)
    requires Base(plan, fs) && Open(plan, fs, items)
    requires 0 <= k < |items| && IsStagedAt(fs, items[k])
    ensures items[k].rollback.Some? ==> items[k].rollback.value in fs.files
    ensures Base(plan, Undone(fs, items[k])) && Open(plan, Undone(fs, items[k]), items)
    ensures Restored(plan, Undone(fs, items[k]), items[k])
    ensures forall j | 0 <= j < |items| && j != k ::
              Restored(plan, fs, items[j]) ==> Restored(plan, Undone(fs, items[k]), items[j])
  {
    var item := items[k];
    assert MatchesAt(plan, fs, items, k) && Tracks(fs, item) && CanUndo(fs, item);
    UndoKeepsBase(plan, fs, items, k);
    UndoRestores(plan, fs, items, k);
    var after := Undone(fs, item);
    assert Describes(plan, after, items) by {
      forall j | 0 <= j < |items| ensures MatchesAt(plan, after, items, j) && Tracks(after, items[j]) {
        UndoKeepsItem(plan, fs, items, k, j);
      }
    }
    forall j | 0 <= j < |items| ensures CanUndo(after, items[j]) {
      UndoKeepsItem(plan, fs, items, k, j);
    }
    assert OthersUntouched(plan, after) by {
      forall q: Path | q.Destination? && !Planned(plan, q) ensures SameAt(plan, after, q) {
        assert SameAt(plan, fs, q);
        assert q != item.destination;
      }
    }
    UndoKeepsMarkers(fs, item);
  }

  lemma UndoKeepsMarkers(fs: Fs, item: StagedFile)
    requires ItemShape(item) && WellFormed(fs)
    requires item.rollback.Some? ==> item.rollback.value in fs.files
    ensures forall p: Path | p.Run? && !IsArtifact(p) ::
              && (p in Undone(fs, item).files <==> p in fs.files)
              && Undone(fs, item).Read(p) == fs.Read(p)
    ensures forall p: Path | p.Run? && p in Undone(fs, item).files :: p in fs.files
  {
  }

  lemma UndoKeepsBase(plan: Plan, fs: Fs, items: seq<StagedFile>, k: int)
    requires Base(plan, fs) && Open(plan, fs, items)
    requires 0 <= k < |items| && IsStagedAt(fs, items[k])
    requires items[k].rollback.Some? ==> items[k].rollback.value in fs.files
    ensures Base(plan, Undone(fs, items[k]))
  {
    assert MatchesAt(plan, fs, items, k) && Tracks(fs, items[k]) && CanUndo(fs, items[k]);
  }

  /** All items restored means that no destination has changed. */
  lemma AllRestoredIsUntouched(plan: Plan, fs: Fs, items: seq<StagedFile>)
    requires Base(plan, fs) && Open(plan, fs, items)
    requires forall j | 0 <= j < |items| :: Restored(plan, fs, items[j])
    ensures Untouched(plan, fs)
  {
    forall p: Path | p.Destination? ensures SameAt(plan, fs, p) {
      if Planned(plan, p) {
        var i :| 0 <= i < |plan.values| && p == Destination(plan.values[i].0);
        assert MatchesAt(plan, fs, items, i);
        assert Restored(plan, fs, items[i]);
      }
    }
  }

  // ---- Committing ----------------------------------------------------------

  /** Staged and not yet committed. */
  ghost predicate Pending(plan: Plan, fs: Fs, item: StagedFile) {
    && item.temporary in fs.files
    && Restored(plan, fs, item)
    && (item.rollback.Some? ==> item.rollback.value in fs.files)
  }

  /** The state after the step that makes item `k` visible at its destination. */
  function Installing(fs: Fs, item: StagedFile): Fs
    requires item.temporary in fs.files
  {
    if item.existed then fs.Replace(item.temporary, item.destination)
    else fs.Link(item.temporary, item.destination)
  }

  lemma InstallKeepsItem(plan: Plan, fs: Fs, items: seq<StagedFile>, k: int, j: int)
    requires Base(plan, fs) && Open(plan, fs, items)
    requires 0 <= k < |items| && Pending(plan, fs, items[k]) && 0 <= j < |items|
    ensures Tracks(Installing(fs, items[k]), items[j]) && CanUndo(Installing(fs, items[k]), items[j])
    ensures MatchesAt(plan, Installing(fs, items[k]), items, j)
    ensures j != k && Pending(plan, fs, items[j]) ==> Pending(plan, Installing(fs, items[k]), items[j])
    ensures j == k || IsStagedAt(fs, items[j]) ==> IsStagedAt(Installing(fs, items[k]), items[j])
  {
    assert MatchesAt(plan, fs, items, j);
    if j == k {
      assert Tracks(fs, items[k]) && CanUndo(fs, items[k]);
    } else {
      InstallKeepsOther(plan, fs, items, k, j);
    }
  }

  lemma InstallKeepsOther(plan: Plan, fs: Fs, items: seq<StagedFile>, k: int, j: int)
    requires Base(plan, fs) && Open(plan, fs, items)
    requires 0 <= k < |items| && Pending(plan, fs, items[k]) && 0 <= j < |items| && j != k
    ensures Tracks(Installing(fs, items[k]), items[j]) && CanUndo(Installing(fs, items[k]), items[j])
    ensures Pending(plan, fs, items[j]) ==> Pending(plan, Installing(fs, items[k]), items[j])
    ensures IsStagedAt(fs, items[j]) ==> IsStagedAt(Installing(fs, items[k]), items[j])
  {
    assert MatchesAt(plan, fs, items, k) && Tracks(fs, items[k]);
    assert MatchesAt(plan, fs, items, j) && Tracks(fs, items[j]) && CanUndo(fs, items[j]);
    DistinctOriginals(plan, fs, items, k, j);
    DistinctOriginals(plan, fs, items, j, k);
    TracksFrame(fs, Installing(fs, items[k]), items[j]);
  }

  lemma InstallKeepsBase(plan: Plan, fs: Fs, items: seq<StagedFile>, k: int)
    requires Base(plan, fs) && Open(plan, fs, items)
    requires 0 <= k < |items| && Pending(plan, fs, items[k])
    ensures Base(plan, Installing(fs, items[k]))
  {
    assert MatchesAt(plan, fs, items, k) && Tracks(fs, items[k]);
    assert SameAt(plan, fs, items[k].destination);
  }

  lemma InstallKeepsOpen(plan: Plan, fs: Fs, items: seq<StagedFile>, k: int)
    requires Base(plan, fs) && Open(plan, fs, items)
    requires 0 <= k < |items| && Pending(plan, fs, items[k])
    ensures Base(plan, Installing(fs, items[k])) && Open(plan, Installing(fs, items[k]), items)
    ensures forall j | 0 <= j < |items| && j != k ::
              Pending(plan, fs, items[j]) ==> Pending(plan, Installing(fs, items[k]), items[j])
    ensures forall j | 0 <= j < |items| ::
              j == k || IsStagedAt(fs, items[j]) ==> IsStagedAt(Installing(fs, items[k]), items[j])
  {
    var item := items[k];
    var after := Installing(fs, item);
    assert MatchesAt(plan, fs, items, k) && Tracks(fs, item);
    InstallKeepsBase(plan, fs, items, k);
    assert Describes(plan, after, items) by {
      forall j | 0 <= j < |items| ensures MatchesAt(plan, after, items, j) && Tracks(after, items[j]) {
        InstallKeepsItem(plan, fs, items, k, j);
      }
    }
    forall j | 0 <= j < |items|
      ensures CanUndo(after, items[j])
      ensures j != k && Pending(plan, fs, items[j]) ==> Pending(plan, after, items[j])
      ensures j == k || IsStagedAt(fs, items[j]) ==> IsStagedAt(after, items[j])
    {
      InstallKeepsItem(plan, fs, items, k, j);
    }
    assert OthersUntouched(plan, after) by {
      forall q: Path | q.Destination? && !Planned(plan, q) ensures SameAt(plan, after, q) {
        assert SameAt(plan, fs, q);
        assert q != item.destination;
      }
    }
  }

  /** Removing a temporary or a marker's temporary name never loses a rollback. */
  lemma OpenUnlinkTemporary(plan: Plan, fs: Fs, items: seq<StagedFile>, p: Path)
    requires Base(plan, fs) && Open(plan, fs, items)
    requires p.Run? && (p.name.Temporary? || p.name == ManifestTemp || p.name == CommittedTemp)
    ensures Base(plan, fs.Unlink(p)) && Open(plan, fs.Unlink(p), items)
    ensures forall j | 0 <= j < |items| ::
              IsStagedAt(fs, items[j]) ==> IsStagedAt(fs.Unlink(p), items[j])
    ensures forall j | 0 <= j < |items| && items[j].temporary != p ::
              Pending(plan, fs, items[j]) ==> Pending(plan, fs.Unlink(p), items[j])
  {
    BaseUnlink(plan, fs, p);
    LoggedUnlink(plan, fs, items, p);
    var after := fs.Unlink(p);
    forall j | 0 <= j < |items|
      ensures CanUndo(after, items[j])
      ensures IsStagedAt(fs, items[j]) ==> IsStagedAt(after, items[j])
      ensures items[j].temporary != p && Pending(plan, fs, items[j]) ==> Pending(plan, after, items[j])
    {
      assert Tracks(fs, items[j]) && CanUndo(fs, items[j]);
    }
  }

  // ---- Creating files in the run directory ---------------------------------

  ghost predicate NotNamedBy(p: Path, items: seq<StagedFile>) {
    forall i | 0 <= i < |items| :: p != items[i].temporary && Some(p) != items[i].rollback
  }

  lemma CreateKeepsBase(plan: Plan, fs: Fs, p: Path)
    requires Base(plan, fs) && fs.runDir && p.Run? && p !in fs.files
    ensures Base(plan, fs.Create(p))
    ensures fs.Create(p).files[p] == fs.next && fs.next !in fs.content
  {
    assert forall q | q in fs.files :: fs.files[q] < fs.next;
  }

  lemma FillKeepsBase(plan: Plan, fs: Fs, p: Path, c: Content)
    requires Base(plan, fs) && p.Run? && p in fs.files && !p.name.Rollback?
    ensures Base(plan, fs.Fill(p, c))
  {
    forall i | i in plan.before.content
      ensures i in fs.Fill(p, c).content && fs.Fill(p, c).content[i] == plan.before.content[i]
    {
      assert i < plan.before.next <= fs.files[p];
    }
  }

  lemma CreateKeepsDescribes(plan: Plan, fs: Fs, items: seq<StagedFile>, p: Path)
    requires Base(plan, fs) && Describes(plan, fs, items)
    requires p.Run? && p !in fs.files && NotNamedBy(p, items)
    ensures Describes(plan, fs.Create(p), items)
  {
    var after := fs.Create(p);
    forall i | 0 <= i < |items| ensures MatchesAt(plan, after, items, i) && Tracks(after, items[i]) {
      assert MatchesAt(plan, fs, items, i) && Tracks(fs, items[i]);
      TracksFrame(fs, after, items[i]);
    }
  }

  lemma FillKeepsDescribes(plan: Plan, fs: Fs, items: seq<StagedFile>, p: Path, c: Content)
    requires Describes(plan, fs, items)
    requires p.Run? && p in fs.files && NotNamedBy(p, items)
    ensures Describes(plan, fs.Fill(p, c), items)
  {
    var after := fs.Fill(p, c);
    forall i | 0 <= i < |items| ensures MatchesAt(plan, after, items, i) && Tracks(after, items[i]) {
      assert MatchesAt(plan, fs, items, i) && Tracks(fs, items[i]);
      assert fs.files[p] != items[i].stagedIdentity;
    }
  }

  // ---- Staging --------------------------------------------------------------

  /**
   While `_stage_all` runs: a draft whose run directory holds PREPARING, the
   artifacts of the items staged so far and the paths in `extra`.
   */
  ghost predicate Staging(plan: Plan, fs: Fs, items: seq<StagedFile>, extra: set<Path>) {
    && Base(plan, fs) && fs.runDir
    && Draft(plan, fs, false)
    && Run(Preparing) in fs.files
    && Describes(plan, fs, items)
    && (forall i | 0 <= i < |items| :: Pending(plan, fs, items[i]))
    && (forall p | p in fs.files && p.Run? ::
          p.name == Preparing || IsArtifactOf(p, items) || p in extra)
  }

  lemma StageLink(plan: Plan, fs: Fs, items: seq<StagedFile>, source: Path, link: Path)
    requires Staging(plan, fs, items, {})
    requires source.Destination? && source in fs.files
    requires fs.LinkCount(fs.files[source]) == 1
    requires link.Run? && link.name.Rollback? && link !in fs.files && NotNamedBy(link, items)
    ensures Staging(plan, fs.Link(source, link), items, {link})
  {
    var after := fs.Link(source, link);
    SingleLink(fs, source);
    StageLinkKeepsDraft(plan, fs, source, link);
    forall i | 0 <= i < |items|
      ensures MatchesAt(plan, after, items, i) && Tracks(after, items[i]) && Pending(plan, after, items[i])
    {
      StageLinkKeepsItem(plan, fs, items, source, link, i);
    }
  }

  lemma StageLinkKeepsItem(plan: Plan, fs: Fs, items: seq<StagedFile>, source: Path, link: Path, i: int)
    requires Staging(plan, fs, items, {}) && 0 <= i < |items|
    requires source.Destination? && source in fs.files
    requires forall q | q in fs.files && q != source :: fs.files[q] != fs.files[source]
    requires link.Run? && link.name.Rollback? && link !in fs.files && NotNamedBy(link, items)
    ensures var after := fs.Link(source, link);
            MatchesAt(plan, after, items, i) && Tracks(after, items[i]) && Pending(plan, after, items[i])
  {
    assert MatchesAt(plan, fs, items, i) && Tracks(fs, items[i]) && Pending(plan, fs, items[i]);
    assert SameAt(plan, fs, items[i].destination);
    TracksFrame(fs, fs.Link(source, link), items[i]);
  }

  lemma StageLinkKeepsDraft(plan: Plan, fs: Fs, source: Path, link: Path)
    requires Base(plan, fs) && fs.runDir && Draft(plan, fs, false)
    requires source.Destination? && source in fs.files
    requires forall q | q in fs.files && q != source :: fs.files[q] != fs.files[source]
    requires link.Run? && link.name.Rollback? && link !in fs.files
    ensures Base(plan, fs.Link(source, link)) && Draft(plan, fs.Link(source, link), false)
  {
    var after := fs.Link(source, link);
    forall p: Path | p.Destination? ensures SameAt(plan, after, p) {
      assert SameAt(plan, fs, p);
    }
    forall p | p in after.files && p.Run? && p.name.Temporary?
      ensures forall q | q in after.files && q != p :: after.files[q] != after.files[p]
    {
      assert p in fs.files;
      assert fs.files[p] != fs.files[source];
    }
    forall p | p in fs.files && p.Run? && !p.name.Rollback? ensures fs.Read(p) == after.Read(p) {
    }
  }

  /** A new temporary, or a marker's temporary name, in a draft. */
  lemma DraftCreate(plan: Plan, fs: Fs, p: Path)
    requires Base(plan, fs) && fs.runDir && Draft(plan, fs, false)
    requires p.Run? && p !in fs.files
    requires p.name.Temporary? || p.name in {PreparingTemp, ManifestTemp}
    ensures Base(plan, fs.Create(p)) && Draft(plan, fs.Create(p), false)
  {
    var after := fs.Create(p);
    CreateKeepsBase(plan, fs, p);
    forall q: Path | q.Destination? ensures SameAt(plan, after, q) {
      assert SameAt(plan, fs, q);
    }
    forall q | q in fs.files ensures after.files[q] == fs.files[q] && fs.files[q] < fs.next {
    }
  }

  lemma DraftFill(plan: Plan, fs: Fs, p: Path, c: Content)
    requires Base(plan, fs) && Draft(plan, fs, false)
    requires p.Run? && p in fs.files
    requires p.name.Temporary? || p.name in {PreparingTemp, ManifestTemp}
    ensures Base(plan, fs.Fill(p, c)) && Draft(plan, fs.Fill(p, c), false)
  {
    var after := fs.Fill(p, c);
    FillKeepsBase(plan, fs, p, c);
    forall q: Path | q.Destination? ensures SameAt(plan, after, q) {
      assert SameAt(plan, fs, q);
    }
    forall q | q in fs.files && q.Run? && q.name == Preparing ensures after.Read(q) == fs.Read(q) {
    }
  }

  lemma StageCreate(plan: Plan, fs: Fs, items: seq<StagedFile>, extra: set<Path>, p: Path)
    requires Staging(plan, fs, items, extra)
    requires p.Run? && p !in fs.files && NotNamedBy(p, items)
    requires p.name.Temporary? || p.name == ManifestTemp
    ensures Staging(plan, fs.Create(p), items, extra + {p})
  {
    DraftCreate(plan, fs, p);
    CreateKeepsDescribes(plan, fs, items, p);
    var after := fs.Create(p);
    forall i | 0 <= i < |items| ensures Pending(plan, after, items[i]) {
      assert Pending(plan, fs, items[i]) && Tracks(fs, items[i]);
    }
  }

  lemma StageFill(plan: Plan, fs: Fs, items: seq<StagedFile>, extra: set<Path>, p: Path, c: Content)
    requires Staging(plan, fs, items, extra)
    requires p.Run? && p in fs.files && NotNamedBy(p, items)
    requires p.name.Temporary? || p.name == ManifestTemp
    ensures Staging(plan, fs.Fill(p, c), items, extra)
  {
    DraftFill(plan, fs, p, c);
    FillKeepsDescribes(plan, fs, items, p, c);
    var after := fs.Fill(p, c);
    forall i | 0 <= i < |items| ensures Pending(plan, after, items[i]) {
      assert Pending(plan, fs, items[i]) && Tracks(fs, items[i]);
    }
  }

  /** Taking back a file that no staged item names. */
  lemma StageUnlink(plan: Plan, fs: Fs, items: seq<StagedFile>, extra: set<Path>, p: Path)
    requires Staging(plan, fs, items, extra)
    requires p.Run? && p.name != Preparing && NotNamedBy(p, items)
    ensures Staging(plan, fs.Unlink(p), items, extra - {p})
  {
    DraftUnlink(plan, fs, false, p);
    forall i | 0 <= i < |items|
      ensures MatchesAt(plan, fs.Unlink(p), items, i)
      ensures Tracks(fs.Unlink(p), items[i]) && Pending(plan, fs.Unlink(p), items[i])
    {
      assert MatchesAt(plan, fs, items, i) && Tracks(fs, items[i]) && Pending(plan, fs, items[i]);
      StageUnlinkKeepsItem(plan, fs, items[i], p);
    }
  }

  lemma StageUnlinkKeepsItem(plan: Plan, fs: Fs, item: StagedFile, p: Path)
    requires Tracks(fs, item) && Pending(plan, fs, item)
    requires p.Run? && p != item.temporary && Some(p) != item.rollback
    ensures Tracks(fs.Unlink(p), item) && Pending(plan, fs.Unlink(p), item)
  {
    TracksFrame(fs, fs.Unlink(p), item);
    PendingFrame(plan, fs, fs.Unlink(p), item);
  }

  /** Removing entries of the run directory does not disturb what is left of an item. */
  lemma TracksShrunk(fs: Fs, after: Fs, item: StagedFile)
    requires Tracks(fs, item) && OnlyEntriesRemoved(fs, after)
    ensures Tracks(after, item)
  {
  }

  /** The artifacts of an item are links of its own inodes only. */
  lemma ArtifactSharesNoInode(fs: Fs, item: StagedFile, p: Path, q: Path)
    requires Tracks(fs, item)
    requires p.Destination? && p in fs.files && p != item.destination
    requires q in fs.files && (q == item.temporary || Some(q) == item.rollback)
    ensures fs.files[q] != fs.files[p]
  {
  }

  lemma NewItemIsSeparate(plan: Plan, fs: Fs, items: seq<StagedFile>, i: int, item: StagedFile)
    requires 0 <= i < |items| < |plan.values| && MatchesAt(plan, fs, items, i) && Tracks(fs, items[i])
    requires Pending(plan, fs, items[i])
    requires plan.values[i].0 != plan.values[|items|].0
    requires ItemShape(item) && item.destination == Destination(plan.values[|items|].0)
    requires item.temporary != items[i].temporary && Some(item.temporary) != items[i].rollback
    requires item.rollback.Some? ==> item.rollback != items[i].rollback && item.rollback.value != items[i].temporary
    requires item.temporary in fs.files && fs.files[item.temporary] == item.stagedIdentity
    ensures Separate(items[i], item) && items[i].stagedIdentity != item.stagedIdentity
  {
  }

  lemma DestinationsDiffer(plan: Plan, fs: Fs, p: Path, q: Path)
    requires WellFormed(plan.before) && Untouched(plan, fs)
    requires p.Destination? && q.Destination? && p in fs.files && q in fs.files && p != q
    ensures fs.files[p] != fs.files[q]
  {
    assert SameAt(plan, fs, p) && SameAt(plan, fs, q);
  }

  lemma FreshEntryIsNoOriginal(plan: Plan, fs: Fs, p: Path, q: Path)
    requires Base(plan, fs) && Untouched(plan, fs)
    requires p.Destination? && p in fs.files && q in fs.files && q.Run? && !q.name.Rollback?
    ensures fs.files[p] != fs.files[q]
  {
    assert SameAt(plan, fs, p);
  }

  lemma RollbacksAreOfStagedItems(fs: Fs, items: seq<StagedFile>, p: Path, q: Path)
    requires forall i | 0 <= i < |items| :: Tracks(fs, items[i]) && items[i].destination != p
    requires p.Destination? && p in fs.files && q in fs.files && IsArtifactOf(q, items)
    ensures fs.files[q] != fs.files[p]
  {
    var item :| item in items && (q == item.temporary || Some(q) == item.rollback);
    var i :| 0 <= i < |items| && items[i] == item;
    ArtifactSharesNoInode(fs, items[i], p, q);
  }

  /** A new item's inodes are linked from its own paths only. */
  lemma NewItemIsTracked(plan: Plan, fs: Fs, items: seq<StagedFile>, item: StagedFile, extra: set<Path>)
    requires Staging(plan, fs, items, extra)
    requires ItemShape(item) && item.destination.Destination?
    requires forall i | 0 <= i < |items| :: items[i].destination != item.destination
    requires item.existed <==> item.destination in fs.files
    requires item.existed ==> item.originalIdentity == Some(fs.files[item.destination])
    requires item.existed ==> item.rollback.value in fs.files
                              && fs.files[item.rollback.value] == fs.files[item.destination]
    requires item.temporary in fs.files && fs.files[item.temporary] == item.stagedIdentity
    requires extra <= {item.temporary} + (if item.existed then {item.rollback.value} else {})
    ensures Tracks(fs, item)
  {
    assert SameAt(plan, fs, item.destination);
    if item.existed {
      forall q | q in fs.files && fs.files[q] == item.originalIdentity.value
        ensures Some(q) == item.rollback || q == item.destination
      {
        OriginalHasNoOtherLinks(plan, fs, items, item, extra, q);
      }
    }
  }

  lemma OriginalHasNoOtherLinks(plan: Plan, fs: Fs, items: seq<StagedFile>, item: StagedFile, extra: set<Path>, q: Path)
    requires Staging(plan, fs, items, extra)
    requires item.destination.Destination? && item.destination in fs.files
    requires forall i | 0 <= i < |items| :: items[i].destination != item.destination
    requires item.existed && item.rollback.Some? && item.temporary.Run? && item.temporary.name.Temporary?
    requires item.temporary in fs.files
    requires q in fs.files && fs.files[q] == fs.files[item.destination]
    requires extra <= {item.temporary, item.rollback.value}
    ensures Some(q) == item.rollback || q == item.destination
  {
    if q.Destination? {
      if q != item.destination {
        DestinationsDiffer(plan, fs, item.destination, q);
      }
    } else if !q.name.Rollback? {
      FreshEntryIsNoOriginal(plan, fs, item.destination, q);
    } else if q !in extra {
      RollbacksAreOfStagedItems(fs, items, item.destination, q);
    }
  }

  /** The freshly staged item joins the items staged before it. */
  lemma StageItem(plan: Plan, fs: Fs, items: seq<StagedFile>, item: StagedFile, extra: set<Path>)
    requires Staging(plan, fs, items, extra)
    requires |items| < |plan.values|
    requires forall i, j | 0 <= i < j < |plan.values| :: plan.values[i].0 != plan.values[j].0
    requires ItemShape(item) && item.destination == Destination(plan.values[|items|].0)
    requires NotNamedBy(item.temporary, items)
    requires item.rollback.Some? ==> NotNamedBy(item.rollback.value, items)
    requires item.existed <==> item.destination in fs.files
    requires item.existed ==> item.originalIdentity == Some(fs.files[item.destination])
    requires item.existed ==> item.rollback.value in fs.files
                              && fs.files[item.rollback.value] == fs.files[item.destination]
    requires item.temporary in fs.files && fs.files[item.temporary] == item.stagedIdentity
    requires fs.Read(item.temporary) == Text(plan.values[|items|].1)
    requires extra <= {item.temporary} + (if item.existed then {item.rollback.value} else {})
    ensures Staging(plan, fs, items + [item], {})
  {
    var all := items + [item];
    forall i | 0 <= i < |items| ensures items[i].destination != item.destination {
      assert MatchesAt(plan, fs, items, i);
    }
    NewItemIsTracked(plan, fs, items, item, extra);
    assert SameAt(plan, fs, item.destination);
    forall i | 0 <= i < |all|
      ensures MatchesAt(plan, fs, all, i) && Tracks(fs, all[i]) && Pending(plan, fs, all[i])
    {
      if i < |items| {
        assert MatchesAt(plan, fs, items, i) && Tracks(fs, items[i]) && Pending(plan, fs, items[i]);
      }
    }
    forall i, j | 0 <= i < j < |all|
      ensures Separate(all[i], all[j]) && all[i].stagedIdentity != all[j].stagedIdentity
    {
      if j == |items| {
        assert MatchesAt(plan, fs, items, i) && Pending(plan, fs, items[i]) && Tracks(fs, items[i]);
        NewItemIsSeparate(plan, fs, items, i, item);
      }
    }
    StagedEntriesAreArtifacts(plan, fs, items, item, extra);
  }

  lemma StagedEntriesAreArtifacts(plan: Plan, fs: Fs, items: seq<StagedFile>, item: StagedFile, extra: set<Path>)
    requires forall p | p in fs.files && p.Run? :: p.name == Preparing || IsArtifactOf(p, items) || p in extra
    requires item.existed ==> item.rollback.Some?
    requires extra <= {item.temporary} + (if item.existed then {item.rollback.value} else {})
    ensures forall p | p in fs.files && p.Run? :: p.name == Preparing || IsArtifactOf(p, items + [item])
  {
    var all := items + [item];
    forall p | p in fs.files && p.Run? ensures p.name == Preparing || IsArtifactOf(p, all) {
      if IsArtifactOf(p, items) {
        var known :| known in items && (p == known.temporary || Some(p) == known.rollback);
        assert known in all;
      } else if p in extra {
        assert item in all;
      }
    }
  }

  // ---- Publishing the manifest and COMMITTED --------------------------------

  lemma RenameMarker(plan: Plan, fs: Fs, items: seq<StagedFile>, source: Path, target: Path)
    requires Base(plan, fs) && Describes(plan, fs, items)
    requires source.Run? && target.Run? && !IsArtifact(source) && !IsArtifact(target)
    requires source in fs.files && target !in fs.files
    ensures Base(plan, fs.Replace(source, target)) && Describes(plan, fs.Replace(source, target), items)
    ensures fs.Replace(source, target).Read(target) == fs.Read(source)
    ensures forall p | p != source && p != target ::
              fs.Replace(source, target).Read(p) == fs.Read(p)
              && (p in fs.Replace(source, target).files <==> p in fs.files)
    ensures forall p: Path | p.Destination? && SameAt(plan, fs, p) ::
              SameAt(plan, fs.Replace(source, target), p)
  {
    var after := fs.Replace(source, target);
    forall i | 0 <= i < |items| ensures MatchesAt(plan, after, items, i) && Tracks(after, items[i]) {
      assert MatchesAt(plan, fs, items, i) && Tracks(fs, items[i]);
      TracksFrame(fs.Unlink(source), after, items[i]);
    }
  }

  lemma PublishManifest(plan: Plan, fs: Fs, items: seq<StagedFile>)
    requires Staging(plan, fs, items, {Run(ManifestTemp)})
    requires Run(ManifestTemp) in fs.files && fs.Read(Run(ManifestTemp)) == ManifestOf(items)
    requires |items| == |plan.values| && 1 <= |items| <= SECRET_COUNT + 1
    ensures Base(plan, fs.Replace(Run(ManifestTemp), Run(Manifest)))
    ensures Open(plan, fs.Replace(Run(ManifestTemp), Run(Manifest)), items)
    ensures Untouched(plan, fs.Replace(Run(ManifestTemp), Run(Manifest)))
    ensures forall i | 0 <= i < |items| ::
              Pending(plan, fs.Replace(Run(ManifestTemp), Run(Manifest)), items[i])
  {
    var after := fs.Replace(Run(ManifestTemp), Run(Manifest));
    RenameMarker(plan, fs, items, Run(ManifestTemp), Run(Manifest));
    UntouchedAfterPublish(plan, fs);
    ShapesAfterPublish(plan, fs, items);
    PendingAfterPublish(plan, fs, items);
    assert forall i | 0 <= i < |items| :: CanUndo(after, items[i]) by {
      UntouchedNeedsNoUndo(plan, after, items);
    }
    assert Logged(plan, after, items) by {
      KnownAfterPublish(plan, fs, items);
      UntouchedMeansOthersUntouched(plan, after);
    }
  }

  lemma UntouchedMeansOthersUntouched(plan: Plan, fs: Fs)
    requires Untouched(plan, fs)
    ensures OthersUntouched(plan, fs)
  {
    forall p: Path | p.Destination? && !Planned(plan, p) ensures SameAt(plan, fs, p) {
    }
  }

  lemma UntouchedAfterPublish(plan: Plan, fs: Fs)
    requires Untouched(plan, fs) && Run(ManifestTemp) in fs.files
    ensures Untouched(plan, fs.Replace(Run(ManifestTemp), Run(Manifest)))
  {
    var after := fs.Replace(Run(ManifestTemp), Run(Manifest));
    forall p: Path | p.Destination? ensures SameAt(plan, after, p) {
      assert SameAt(plan, fs, p);
    }
  }

  lemma PendingAfterPublish(plan: Plan, fs: Fs, items: seq<StagedFile>)
    requires Run(ManifestTemp) in fs.files
    requires forall i | 0 <= i < |items| :: ItemShape(items[i]) && Pending(plan, fs, items[i])
    ensures forall i | 0 <= i < |items| ::
              Pending(plan, fs.Replace(Run(ManifestTemp), Run(Manifest)), items[i])
  {
    forall i | 0 <= i < |items| ensures Pending(plan, fs.Replace(Run(ManifestTemp), Run(Manifest)), items[i]) {
      assert ItemShape(items[i]) && Pending(plan, fs, items[i]);
      PendingFrame(plan, fs, fs.Replace(Run(ManifestTemp), Run(Manifest)), items[i]);
    }
  }

  lemma PendingFrame(plan: Plan, fs: Fs, after: Fs, item: StagedFile)
    requires Pending(plan, fs, item)
    requires forall p | p == item.destination || p == item.temporary || Some(p) == item.rollback ::
               (p in fs.files <==> p in after.files) && (p in fs.files ==> fs.files[p] == after.files[p])
    ensures Pending(plan, after, item)
  {
  }

  lemma ShapesAfterPublish(plan: Plan, fs: Fs, items: seq<StagedFile>)
    requires Describes(plan, fs, items) && 1 <= |items| <= SECRET_COUNT + 1
    ensures ManifestWellFormed(items)
  {
    forall i | 0 <= i < |items| ensures ItemShape(items[i]) {
      assert Tracks(fs, items[i]);
    }
  }

  lemma KnownAfterPublish(plan: Plan, fs: Fs, items: seq<StagedFile>)
    requires Staging(plan, fs, items, {Run(ManifestTemp)}) && Run(ManifestTemp) in fs.files
    ensures var after := fs.Replace(Run(ManifestTemp), Run(Manifest));
            forall p | p in after.files && p.Run? :: EntryIsKnown(p, items)
  {
    var after := fs.Replace(Run(ManifestTemp), Run(Manifest));
    forall p | p in after.files && p.Run? ensures EntryIsKnown(p, items) {
      assert p == Run(Manifest) || p in fs.files;
    }
  }

  lemma MarkersAreNotNamed(plan: Plan, fs: Fs, items: seq<StagedFile>, p: Path)
    requires Describes(plan, fs, items) && p.Run? && !IsArtifact(p)
    ensures NotNamedBy(p, items)
  {
    forall i | 0 <= i < |items| ensures p != items[i].temporary && Some(p) != items[i].rollback {
      assert Tracks(fs, items[i]);
    }
  }

  lemma OpenCreate(plan: Plan, fs: Fs, items: seq<StagedFile>)
    requires Base(plan, fs) && Open(plan, fs, items) && Run(CommittedTemp) !in fs.files
    requires forall i | 0 <= i < |items| :: IsStagedAt(fs, items[i])
    ensures Base(plan, fs.Create(Run(CommittedTemp))) && Open(plan, fs.Create(Run(CommittedTemp)), items)
    ensures forall i | 0 <= i < |items| :: IsStagedAt(fs.Create(Run(CommittedTemp)), items[i])
  {
    var p := Run(CommittedTemp);
    var after := fs.Create(p);
    CreateKeepsBase(plan, fs, p);
    MarkersAreNotNamed(plan, fs, items, p);
    CreateKeepsDescribes(plan, fs, items, p);
    forall i | 0 <= i < |items| ensures CanUndo(after, items[i]) && IsStagedAt(after, items[i]) {
      assert CanUndo(fs, items[i]) && IsStagedAt(fs, items[i]) && Tracks(fs, items[i]);
    }
    forall q: Path | q.Destination? && !Planned(plan, q) ensures SameAt(plan, after, q) {
      assert SameAt(plan, fs, q);
    }
  }

  lemma FillKeepsLogged(plan: Plan, fs: Fs, items: seq<StagedFile>, c: Content)
    requires Base(plan, fs) && Logged(plan, fs, items) && Run(CommittedTemp) in fs.files
    ensures Logged(plan, fs.Fill(Run(CommittedTemp), c), items)
  {
    var p := Run(CommittedTemp);
    var after := fs.Fill(p, c);
    MarkersAreNotNamed(plan, fs, items, p);
    FillKeepsDescribes(plan, fs, items, p, c);
    forall q: Path | q.Destination? && !Planned(plan, q) ensures SameAt(plan, after, q) {
      assert SameAt(plan, fs, q);
    }
  }

  lemma OpenFill(plan: Plan, fs: Fs, items: seq<StagedFile>, c: Content)
    requires Base(plan, fs) && Open(plan, fs, items) && Run(CommittedTemp) in fs.files
    requires forall i | 0 <= i < |items| :: IsStagedAt(fs, items[i])
    ensures Base(plan, fs.Fill(Run(CommittedTemp), c)) && Open(plan, fs.Fill(Run(CommittedTemp), c), items)
    ensures forall i | 0 <= i < |items| :: IsStagedAt(fs.Fill(Run(CommittedTemp), c), items[i])
  {
    var after := fs.Fill(Run(CommittedTemp), c);
    FillKeepsBase(plan, fs, Run(CommittedTemp), c);
    FillKeepsLogged(plan, fs, items, c);
    forall i | 0 <= i < |items| ensures CanUndo(after, items[i]) && IsStagedAt(after, items[i]) {
      assert CanUndo(fs, items[i]) && IsStagedAt(fs, items[i]);
    }
  }

  lemma PublishCommitted(plan: Plan, fs: Fs, items: seq<StagedFile>)
    requires Base(plan, fs) && Open(plan, fs, items) && Run(CommittedTemp) in fs.files
    requires fs.Read(Run(CommittedTemp)) == Digest(fs.Read(Run(Manifest)))
    requires forall i | 0 <= i < |items| :: IsStagedAt(fs, items[i])
    ensures Base(plan, fs.Replace(Run(CommittedTemp), Run(Committed)))
    ensures Sealed(plan, fs.Replace(Run(CommittedTemp), Run(Committed)), items)
  {
    var after := fs.Replace(Run(CommittedTemp), Run(Committed));
    RenameMarker(plan, fs, items, Run(CommittedTemp), Run(Committed));
    forall i | 0 <= i < |items| ensures IsStagedAt(after, items[i]) {
      assert Tracks(fs, items[i]) && IsStagedAt(fs, items[i]);
    }
    forall q: Path | q.Destination? && !Planned(plan, q) ensures SameAt(plan, after, q) {
      assert SameAt(plan, fs, q);
    }
  }

  /** Links made for other items do not touch a destination that is still to be staged. */
  lemma UnstagedDestinationHasOneLink(plan: Plan, fs: Fs, items: seq<StagedFile>, p: Path)
    requires Staging(plan, fs, items, {})
    requires p.Destination? && p in fs.files
    requires forall i | 0 <= i < |items| :: items[i].destination != p
    ensures fs.LinkCount(fs.files[p]) == 1
  {
    forall q | q in fs.files && q != p ensures fs.files[q] != fs.files[p] {
      UnstagedDestinationIsNoLink(plan, fs, items, p, q);
    }
    SingleLink(fs, p);
  }

  lemma UnstagedDestinationIsNoLink(plan: Plan, fs: Fs, items: seq<StagedFile>, p: Path, q: Path)
    requires Staging(plan, fs, items, {})
    requires p.Destination? && p in fs.files && q in fs.files && q != p
    requires forall i | 0 <= i < |items| :: items[i].destination != p
    ensures fs.files[q] != fs.files[p]
  {
    if q.Destination? {
      DestinationsDiffer(plan, fs, p, q);
    } else if !q.name.Rollback? {
      FreshEntryIsNoOriginal(plan, fs, p, q);
    } else {
      RollbacksAreOfStagedItems(fs, items, p, q);
    }
  }

  lemma MakeRunDirectory(plan: Plan, fs: Fs)
    requires CrashInvariant(plan, fs, false) && !fs.runDir
    ensures CrashInvariant(plan, fs.(runDir := true), false)
    ensures forall p | p in fs.files :: !p.Run?
  {
    var after := fs.(runDir := true);
    assert Draft(plan, fs, false);
    forall p: Path | p.Destination? ensures SameAt(plan, after, p) {
      assert SameAt(plan, fs, p);
    }
  }

  /** A transaction that has not begun: nothing is different from the start. */
  lemma FreshPlan(fs: Fs, values: seq<(Target, Bytes)>)
    requires WellFormed(fs) && !fs.runDir
    ensures CrashInvariant(Plan(fs, values), fs, false)
  {
  }

  ghost function Below(n: nat): (s: set<int>)
    ensures |s| == n
    ensures forall x :: x in s <==> 0 <= x < n
  {
    if n == 0 then {} else Below(n - 1) + {n - 1}
  }

  /** There are only twelve secret files to save. */
  lemma DistinctSecretsAreFew(secrets: seq<(Target, Bytes)>)
    requires forall i | 0 <= i < |secrets| :: secrets[i].0.Secret? && secrets[i].0.index < SECRET_COUNT
    requires forall i, j | 0 <= i < j < |secrets| :: secrets[i].0 != secrets[j].0
    ensures |secrets| <= SECRET_COUNT
  {
    var indices := IndexSet(secrets);
    SubsetSize(indices, Below(SECRET_COUNT));
  }

  ghost function IndexSet(secrets: seq<(Target, Bytes)>): (s: set<int>)
    requires forall i | 0 <= i < |secrets| :: secrets[i].0.Secret? && secrets[i].0.index < SECRET_COUNT
    requires forall i, j | 0 <= i < j < |secrets| :: secrets[i].0 != secrets[j].0
    ensures |s| == |secrets|
    ensures forall x | x in s :: 0 <= x < SECRET_COUNT && exists i | 0 <= i < |secrets| :: secrets[i].0 == Secret(x)
  {
    if |secrets| == 0 then {}
    else
      var last := secrets[|secrets| - 1].0.index;
      var rest := IndexSet(secrets[..|secrets| - 1]);
      assert secrets[|secrets| - 1].0 == Secret(last);
      rest + {last}
  }
}
