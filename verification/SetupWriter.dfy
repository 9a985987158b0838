/**
 The wizard's save and recovery, step by step. Whatever step the process stops
 at, and whatever steps report an error, the crash invariant holds; a recovery
 that reports success leaves all the new files or none of them.
 */
module SetupWriter {
  import opened Common
  import opened SetupDisk
  import opened SetupTransaction
  import opened SetupSteps

  class LocalSetupWriter {
    const disk: Disk
    const replaceExisting: bool
    /** The transaction the disk is in. */
    ghost var plan: Plan

    constructor (disk: Disk, replaceExisting: bool, ghost plan: Plan)
      ensures this.disk == disk && this.replaceExisting == replaceExisting && this.plan == plan
    {
      this.disk, this.replaceExisting, this.plan := disk, replaceExisting, plan;
    }

    ghost predicate Valid()
      reads this, disk
    {
      CrashInvariant(plan, disk.fs, disk.published)
    }

    // ---- Rolling back ------------------------------------------------------

    ghost predicate RollbackReady(staged: seq<StagedFile>)
      reads this, disk
    {
      var items := ItemsOnDisk(disk.fs);
      && Valid() && !disk.published
      && Run(Manifest) in disk.fs.files
      && staged <= items
      && forall j | |staged| <= j < |items| :: Restored(plan, disk.fs, items[j])
    }

    /** One round of the rollback loop, with the exceptions it catches as statuses. */
    method UndoItem(item: StagedFile) returns (st: Status)
      requires disk.alive && ItemShape(item)
      modifies disk
      ensures disk.alive <==> !st.Crashed?
      ensures disk.faults >= old(disk.faults)
      ensures st.Done? ==> disk.faults == old(disk.faults)
      ensures (disk.fs == old(disk.fs) && disk.published == old(disk.published))
              || (&& old(IsStagedAt(disk.fs, item))
                  && (item.rollback.Some? ==> item.rollback.value in old(disk.fs.files))
                  && disk.Reached(old(disk.fs), Undone(old(disk.fs), item), old(disk.published)))
      ensures st.Done? && old(IsStagedAt(disk.fs, item)) ==>
                && (item.rollback.Some? ==> item.rollback.value in old(disk.fs.files))
                && disk.fs == Undone(old(disk.fs), item)
      ensures old(Tracks(disk.fs, item) && CanUndo(disk.fs, item)) && disk.faults == old(disk.faults) ==>
                st.Done?
    {
      if item.existed {
        if item.destination !in disk.fs.files {
          return SetupFailed(FilesystemUnsafe);
        }
        var identity := disk.fs.files[item.destination];
        if identity == item.stagedIdentity {
          if item.rollback.value !in disk.fs.files {
            return OsError;
          }
          st := disk.Attempt(disk.fs.Replace(item.rollback.value, item.destination));
          if !st.Done? {
            return;
          }
          st := disk.Sync();
        } else if Some(identity) != item.originalIdentity {
          return OsError;
        } else {
          st := Done;
        }
      } else if item.destination in disk.fs.files {
        if disk.fs.files[item.destination] != item.stagedIdentity {
          return OsError;
        }
        st := disk.Attempt(disk.fs.Unlink(item.destination));
      } else {
        st := Done;
      }
    }

    lemma UndoneStepIsOpen(fs: Fs, items: seq<StagedFile>, k: int)
      requires Base(plan, fs) && Open(plan, fs, items) && 0 <= k < |items|
      ensures Tracks(fs, items[k]) && CanUndo(fs, items[k])
      ensures !IsStagedAt(fs, items[k]) ==> Restored(plan, fs, items[k])
      ensures IsStagedAt(fs, items[k]) ==>
                && (items[k].rollback.Some? ==> items[k].rollback.value in fs.files)
                && Base(plan, Undone(fs, items[k])) && Open(plan, Undone(fs, items[k]), items)
                && Restored(plan, Undone(fs, items[k]), items[k])
                && forall j | 0 <= j < |items| && j != k ::
                     Restored(plan, fs, items[j]) ==> Restored(plan, Undone(fs, items[k]), items[j])
    {
      assert MatchesAt(plan, fs, items, k) && Tracks(fs, items[k]) && CanUndo(fs, items[k]);
      if IsStagedAt(fs, items[k]) {
        UndoKeepsOpen(plan, fs, items, k);
      }
    }

    method Rollback(staged: seq<StagedFile>) returns (st: Status)
      requires disk.alive
      requires forall i | 0 <= i < |staged| :: ItemShape(staged[i])
      modifies disk
      ensures disk.alive <==> !st.Crashed?
      ensures disk.faults >= old(disk.faults)
      ensures st.Done? ==> disk.faults == old(disk.faults)
      ensures st.Done? || st.Crashed? || st == SetupFailed(RollbackFailed)
      ensures old(!TransactionItemsAreValid(disk.fs, staged)) ==> st == SetupFailed(RollbackFailed) && unchanged(disk)
      ensures old(exists item | item in staged :: !Intact(disk.fs, item)) ==>
                st == SetupFailed(RollbackFailed) && unchanged(disk)
      ensures old(RollbackReady(staged)) ==>
                && Valid() && !disk.published && Run(Manifest) in disk.fs.files
                && ItemsOnDisk(disk.fs) == old(ItemsOnDisk(disk.fs))
                && (st.Done? ==> Untouched(plan, disk.fs))
                && (disk.faults == old(disk.faults) ==> st.Done?)
    {
      ghost var ready := RollbackReady(staged);
      ghost var items := ItemsOnDisk(disk.fs);
      if ready {
        DescribedItemsAreValid(plan, disk.fs, items);
        assert forall item | item in staged :: item in items;
      }
      forall item | item in staged ensures ItemIsValid(disk.fs, item) <==> Intact(disk.fs, item) {
        ItemIsValidExactly(disk.fs, item);
      }
      if !TransactionItemsAreValid(disk.fs, staged) {
        return SetupFailed(RollbackFailed);
      }
      var failed;
      st, failed := UndoAll(staged, ready, items);
      if st.Crashed? {
        return;
      }
      var synced := disk.Sync();
      if synced.Crashed? {
        return synced;
      }
      if ready && !failed {
        AllRestoredIsUntouched(plan, disk.fs, items);
      }
      st := if failed || !synced.Done? then SetupFailed(RollbackFailed) else Done;
    }

    /** Undoes the items last to first, and goes on when one of them fails. */
    method UndoAll(staged: seq<StagedFile>, ghost ready: bool, ghost items: seq<StagedFile>)
      returns (st: Status, failed: bool)
      requires disk.alive
      requires forall i | 0 <= i < |staged| :: ItemShape(staged[i])
      requires ready ==>
                 && Base(plan, disk.fs) && Open(plan, disk.fs, items) && !disk.published
                 && staged <= items
                 && forall j | |staged| <= j < |items| :: Restored(plan, disk.fs, items[j])
      modifies disk
      ensures disk.alive <==> !st.Crashed?
      ensures disk.faults >= old(disk.faults)
      ensures disk.alive && !failed ==> disk.faults == old(disk.faults)
      ensures ready ==> Base(plan, disk.fs) && Open(plan, disk.fs, items) && !disk.published
      ensures ready && disk.alive && !failed ==> forall j | 0 <= j < |items| :: Restored(plan, disk.fs, items[j])
      ensures ready && (failed || st.Crashed?) ==> disk.faults > old(disk.faults)
    {
      failed := false;
      st := Done;
      var k := |staged|;
      while k > 0
        invariant 0 <= k <= |staged|
        invariant disk.alive && disk.faults >= old(disk.faults) && !st.Crashed?
        invariant !failed ==> disk.faults == old(disk.faults)
        invariant ready ==> Base(plan, disk.fs) && Open(plan, disk.fs, items) && !disk.published
        invariant ready && !failed ==> forall j | k <= j < |items| :: Restored(plan, disk.fs, items[j])
        invariant ready && failed ==> disk.faults > old(disk.faults)
      {
        k := k - 1;
        st := UndoNext(staged[k], ready, items, k);
        if st.Crashed? {
          return;
        }
        failed := failed || !st.Done?;
      }
    }

    method UndoNext(item: StagedFile, ghost ready: bool, ghost items: seq<StagedFile>, ghost k: nat)
      returns (st: Status)
      requires disk.alive && ItemShape(item)
      requires ready ==>
                 && Base(plan, disk.fs) && Open(plan, disk.fs, items) && !disk.published
                 && k < |items| && items[k] == item
      modifies disk
      ensures disk.alive <==> !st.Crashed?
      ensures disk.faults >= old(disk.faults)
      ensures st.Done? ==> disk.faults == old(disk.faults)
      ensures ready ==> Base(plan, disk.fs) && Open(plan, disk.fs, items) && !disk.published
      ensures ready && st.Done? ==> Restored(plan, disk.fs, item)
      ensures ready ==> forall j | 0 <= j < |items| && j != k ::
                Restored(plan, old(disk.fs), items[j]) ==> Restored(plan, disk.fs, items[j])
      ensures ready && !st.Done? ==> disk.faults > old(disk.faults)
    {
      if ready {
        UndoneStepIsOpen(disk.fs, items, k);
      }
      st := UndoItem(item);
    }

    // ---- Cleaning up --------------------------------------------------------

    ghost predicate CleanupReady(staged: seq<StagedFile>)
      reads this, disk
    {
      && Valid() && Settled(plan, disk.fs, disk.published)
      && (Run(Manifest) in disk.fs.files ==> staged == ItemsOnDisk(disk.fs))
    }

    /** Unlinks a path of the run directory, if it is there. */
    method RemoveEntry(path: Path, singleLink: bool) returns (st: Status)
      requires disk.alive && path.Run?
      modifies disk
      ensures disk.alive <==> !st.Crashed?
      ensures disk.faults >= old(disk.faults)
      ensures st.Done? ==> disk.faults == old(disk.faults)
      ensures old(disk.CutIn()) == Some(0) && !singleLink && path in old(disk.fs).files ==>
                disk.CutOff(old(disk.ahead), st) && disk.fs == old(disk.fs).Unlink(path)
      ensures disk.fs == old(disk.fs) || disk.fs == old(disk.fs).Unlink(path)
      ensures st.Done? ==> disk.fs == old(disk.fs).Unlink(path)
      ensures disk.published == old(disk.published)
              || (disk.published && Run(Committed) in old(disk.fs).files)
      ensures (&& disk.faults == old(disk.faults)
               && (singleLink && path in old(disk.fs).files ==>
                     old(disk.fs).LinkCount(old(disk.fs).files[path]) == 1))
              ==> st.Done?
    {
      if path !in disk.fs.files {
        assert disk.fs.Unlink(path).files == disk.fs.files;
        return Done;
      }
      if singleLink && disk.fs.LinkCount(disk.fs.files[path]) != 1 {
        return SetupFailed(FilesystemUnsafe);
      }
      st := disk.Attempt(disk.fs.Unlink(path));
    }

    /** A removal during cleanup keeps the invariant and the outcome. */
    method RemoveSettled(path: Path, singleLink: bool) returns (st: Status)
      requires disk.alive && path.Run?
      modifies disk
      ensures disk.alive <==> !st.Crashed?
      ensures disk.faults >= old(disk.faults)
      ensures st.Done? ==> disk.faults == old(disk.faults)
      ensures old(disk.CutIn()) == Some(0) && !singleLink && path in old(disk.fs).files ==>
                disk.CutOff(old(disk.ahead), st) && disk.fs == old(disk.fs).Unlink(path)
      ensures st.Done? || st.Crashed? || st == SetupFailed(RollbackFailed)
      ensures disk.fs == old(disk.fs) || disk.fs == old(disk.fs).Unlink(path)
      ensures st.Done? ==> disk.fs == old(disk.fs).Unlink(path)
      ensures old(&& Valid() && Settled(plan, disk.fs, disk.published)
                  && (Run(Manifest) in disk.fs.files ==> !(path.name in {Preparing, Committed}))
                  && (path.name == Manifest ==> NoArtifacts(disk.fs))) ==>
                && Valid() && Settled(plan, disk.fs, disk.published)
                && disk.published == old(disk.published)
                && (path.name != Manifest ==> ItemsOnDisk(disk.fs) == old(ItemsOnDisk(disk.fs)))
                && (disk.faults == old(disk.faults) && (singleLink ==> !IsArtifact(path)) ==> st.Done?)
    {
      ghost var ready := && Valid() && Settled(plan, disk.fs, disk.published)
                         && (Run(Manifest) in disk.fs.files ==> !(path.name in {Preparing, Committed}))
                         && (path.name == Manifest ==> NoArtifacts(disk.fs));
      ghost var before, wasPublished := disk.fs, disk.published;
      if ready {
        CrashUnlink(plan, before, wasPublished, path);
        if path in before.files && !IsArtifact(path) {
          MarkerHasSingleLink(before, path);
        }
        assert Run(Committed) in before.files ==> wasPublished;
      }
      var removed := RemoveEntry(path, singleLink);
      st := if removed.Done? || removed.Crashed? then removed else SetupFailed(RollbackFailed);
    }

    method RemoveDirectory() returns (st: Status)
      requires disk.alive
      modifies disk
      ensures disk.alive <==> !st.Crashed?
      ensures disk.faults >= old(disk.faults)
      ensures st.Done? ==> disk.faults == old(disk.faults)
      ensures OnlyEntriesRemoved(old(disk.fs), disk.fs)
      ensures st.Done? || st.Crashed? || st == SetupFailed(RollbackFailed)
      ensures st.Done? ==> !disk.fs.runDir
      ensures old(Valid()) ==>
                && Valid() && disk.published == old(disk.published)
                && (old(Settled(plan, disk.fs, disk.published)) ==> Settled(plan, disk.fs, disk.published))
      ensures old(forall p | p in disk.fs.files :: !p.Run?) && disk.faults == old(disk.faults) ==> st.Done?
      ensures old(exists p :: p in disk.fs.files && p.Run?) ==> st == SetupFailed(RollbackFailed) && unchanged(disk)
    {
      if exists p | p in disk.fs.files :: p.Run? {
        return SetupFailed(RollbackFailed);
      }
      ghost var before, wasPublished := disk.fs, disk.published;
      if Valid() {
        CrashRemoveDirectory(plan, before, wasPublished);
        var after := before.(runDir := false);
        assert after.Read(Run(Manifest)) == before.Read(Run(Manifest));
        assert CrashInvariant(plan, after, wasPublished);
        assert Draft(plan, after, wasPublished);
      }
      st := disk.Attempt(disk.fs.(runDir := false));
      if st.Done? {
        st := disk.Sync();
      }
      if st.OsError? {
        st := SetupFailed(RollbackFailed);
      }
    }

    lemma NoArtifactsAreLeft(fs: Fs, items: seq<StagedFile>)
      requires Logged(plan, fs, items)
      requires forall i | 0 <= i < |items| ::
                 items[i].temporary !in fs.files
                 && (items[i].rollback.Some? ==> items[i].rollback.value !in fs.files)
      ensures NoArtifacts(fs)
    {
      forall p | p in fs.files ensures !IsArtifact(p) {
        if p.Run? {
          assert EntryIsKnown(p, items) || p.name == Committed;
        }
      }
    }

    lemma LoggedDirectoryIsKnown(fs: Fs, published: bool)
      requires CrashInvariant(plan, fs, published) && Run(Manifest) in fs.files
      ensures TransactionItemsAreValid(fs, ItemsOnDisk(fs))
      ensures RunDirectoryEntriesAreKnown(fs, ItemsOnDisk(fs), published)
      ensures Run(Committed) in fs.files <==> published
      ensures LoadManifest(fs) == Some(ItemsOnDisk(fs))
      ensures Run(Preparing) in fs.files
    {
      var items := ItemsOnDisk(fs);
      DescribedItemsAreValid(plan, fs, items);
      MarkerHasSingleLink(fs, Run(Manifest));
      MarkerHasSingleLink(fs, Run(Preparing));
      if published {
        MarkerHasSingleLink(fs, Run(Committed));
        forall item | item in items
          ensures item.destination in fs.files && fs.files[item.destination] == item.stagedIdentity
        {
          var i :| 0 <= i < |items| && items[i] == item;
          assert IsStagedAt(fs, items[i]);
        }
      }
    }

    method RemoveItemArtifacts(item: StagedFile, ghost staged: seq<StagedFile>) returns (st: Status)
      requires disk.alive && ItemShape(item)
      modifies disk
      ensures disk.alive <==> !st.Crashed?
      ensures disk.faults >= old(disk.faults)
      ensures st.Done? ==> disk.faults == old(disk.faults)
      ensures st.Done? || st.Crashed? || st == SetupFailed(RollbackFailed)
      ensures OnlyEntriesRemoved(old(disk.fs), disk.fs)
      ensures st.Done? ==> item.temporary !in disk.fs.files
                           && (item.rollback.Some? ==> item.rollback.value !in disk.fs.files)
      ensures old(CleanupReady(staged)) ==>
                && CleanupReady(staged) && disk.published == old(disk.published)
                && (Run(Manifest) in disk.fs.files <==> Run(Manifest) in old(disk.fs).files)
      ensures (&& old(CleanupReady(staged) && Tracks(disk.fs, item))
               && disk.faults == old(disk.faults))
              ==> st.Done?
    {
      if item.temporary in disk.fs.files {
        if disk.fs.files[item.temporary] != item.stagedIdentity {
          return SetupFailed(RollbackFailed);
        }
        :- RemoveSettled(item.temporary, false);
      }
      if item.rollback.Some? && item.rollback.value in disk.fs.files {
        if Some(disk.fs.files[item.rollback.value]) != item.originalIdentity {
          return SetupFailed(RollbackFailed);
        }
        :- RemoveSettled(item.rollback.value, false);
      }
      st := Done;
    }

    lemma ItemsStayTracked(before: Fs, after: Fs, staged: seq<StagedFile>)
      requires Describes(plan, before, staged) && OnlyEntriesRemoved(before, after)
      ensures forall j | 0 <= j < |staged| :: Tracks(after, staged[j])
    {
      forall j | 0 <= j < |staged| ensures Tracks(after, staged[j]) {
        TracksShrunk(before, after, staged[j]);
      }
    }

    lemma OnlyPreparingIsLeft(before: Fs, after: Fs, staged: seq<StagedFile>)
      requires Staging(plan, before, staged, {}) && OnlyEntriesRemoved(before, after)
      requires forall j | 0 <= j < |staged| ::
                 staged[j].temporary !in after.files
                 && (staged[j].rollback.Some? ==> staged[j].rollback.value !in after.files)
      ensures Swept(after)
    {
      forall p | p in after.files && p.Run? ensures p.name == Preparing {
        assert p in before.files && (p.name == Preparing || IsArtifactOf(p, staged));
      }
    }

    /** Removes the artifacts of every item, in manifest order. */
    method RemoveArtifacts(staged: seq<StagedFile>) returns (st: Status)
      requires disk.alive
      requires forall i | 0 <= i < |staged| :: ItemShape(staged[i])
      modifies disk
      ensures disk.alive <==> !st.Crashed?
      ensures disk.faults >= old(disk.faults)
      ensures old(Staged(staged)) && disk.faults == old(disk.faults) ==> st.Done? && Swept(disk.fs)
      ensures st.Done? ==> disk.faults == old(disk.faults)
      ensures OnlyEntriesRemoved(old(disk.fs), disk.fs)
      ensures st.Done? || st.Crashed? || st == SetupFailed(RollbackFailed)
      ensures old(CleanupReady(staged)) ==>
                && CleanupReady(staged) && disk.published == old(disk.published)
                && (Run(Manifest) in disk.fs.files <==> Run(Manifest) in old(disk.fs).files)
                && (st.Done? && Run(Manifest) in disk.fs.files ==> NoArtifacts(disk.fs))
                && (disk.faults == old(disk.faults) && Run(Manifest) in disk.fs.files ==> st.Done?)
    {
      ghost var ready := CleanupReady(staged);
      ghost var logged := Run(Manifest) in disk.fs.files;
      ghost var draft := Staged(staged);
      ghost var before := disk.fs;
      var i := 0;
      while i < |staged|
        invariant 0 <= i <= |staged|
        invariant disk.alive && disk.faults == old(disk.faults)
        invariant OnlyEntriesRemoved(old(disk.fs), disk.fs)
        invariant ready ==> CleanupReady(staged) && disk.published == old(disk.published)
        invariant ready ==> (Run(Manifest) in disk.fs.files <==> logged)
        invariant draft ==> forall j | 0 <= j < |staged| :: Tracks(disk.fs, staged[j])
        invariant forall j | 0 <= j < i ::
                    staged[j].temporary !in disk.fs.files
                    && (staged[j].rollback.Some? ==> staged[j].rollback.value !in disk.fs.files)
      {
        if ready && logged {
          assert Logged(plan, disk.fs, staged);
          assert Tracks(disk.fs, staged[i]);
        }
        :- RemoveItemArtifacts(staged[i], staged);
        if draft {
          ItemsStayTracked(before, disk.fs, staged);
        }
        i := i + 1;
      }
      if ready && logged {
        NoArtifactsAreLeft(disk.fs, staged);
      }
      if draft {
        OnlyPreparingIsLeft(before, disk.fs, staged);
      }
      st := Done;
    }

    ghost predicate Removable()
      reads this, disk
    {
      && Valid() && Settled(plan, disk.fs, disk.published)
      && (Run(Manifest) in disk.fs.files ==> NoArtifacts(disk.fs))
    }

    method RemoveManifest() returns (st: Status)
      requires disk.alive
      modifies disk
      ensures disk.alive <==> !st.Crashed?
      ensures disk.faults >= old(disk.faults)
      ensures st.Done? ==> disk.faults == old(disk.faults)
      ensures st.Done? || st.Crashed? || st == SetupFailed(RollbackFailed)
      ensures OnlyEntriesRemoved(old(disk.fs), disk.fs)
      ensures st.Done? ==> Run(ManifestTemp) !in disk.fs.files && Run(CommittedTemp) !in disk.fs.files
                           && Run(Manifest) !in disk.fs.files
      ensures old(Removable()) ==>
                && Removable() && disk.published == old(disk.published)
                && (disk.faults == old(disk.faults) ==> st.Done?)
    {
      st := Done;
      :- RemoveSettled(Run(ManifestTemp), true);
      :- RemoveSettled(Run(CommittedTemp), true);
      if Run(Manifest) in disk.fs.files {
        :- RemoveSettled(Run(Manifest), true);
      }
    }

    /** COMMITTED is the last trace of the transaction to go, after the manifest. */
    method RemoveMarkers() returns (st: Status)
      requires disk.alive && Run(Manifest) !in disk.fs.files
      modifies disk
      ensures disk.alive <==> !st.Crashed?
      ensures disk.faults >= old(disk.faults)
      ensures st.Done? ==> disk.faults == old(disk.faults)
      ensures st.Done? || st.Crashed? || st == SetupFailed(RollbackFailed)
      ensures OnlyEntriesRemoved(old(disk.fs), disk.fs)
      ensures st.Done? ==> Run(Committed) !in disk.fs.files && Run(PreparingTemp) !in disk.fs.files
                           && Run(Preparing) !in disk.fs.files
      ensures old(Removable()) ==>
                && Removable() && disk.published == old(disk.published)
                && (disk.faults == old(disk.faults) ==> st.Done?)
    {
      st := Done;
      :- RemoveSettled(Run(Committed), true);
      :- RemoveSettled(Run(PreparingTemp), true);
      :- RemoveSettled(Run(Preparing), true);
    }

    lemma NothingIsLeft(before: Fs, published: bool, after: Fs)
      requires CrashInvariant(plan, before, published) && Run(Manifest) in before.files
      requires NoArtifacts(before)
      requires forall p | p in after.files :: p in before.files
      requires forall name | name in {Manifest, ManifestTemp, CommittedTemp, Committed, PreparingTemp, Preparing} ::
                 Run(name) !in after.files
      ensures forall p | p in after.files :: !p.Run?
    {
      forall p | p in after.files ensures !p.Run? {
        assert p in before.files;
        assert Logged(plan, before, ItemsOnDisk(before));
      }
    }

    method Cleanup(staged: seq<StagedFile>, committed: bool) returns (st: Status)
      requires disk.alive
      requires forall i | 0 <= i < |staged| :: ItemShape(staged[i])
      modifies disk
      ensures disk.alive <==> !st.Crashed?
      ensures disk.faults >= old(disk.faults)
      ensures old(Run(Preparing) !in disk.fs.files) ==> !st.Done? && unchanged(disk)
      ensures old(Staged(staged)) && !committed && disk.faults == old(disk.faults) ==> st.Done?
      ensures st.Done? ==> disk.faults == old(disk.faults)
      ensures OnlyEntriesRemoved(old(disk.fs), disk.fs)
      ensures st.Done? || st.Crashed? || st == SetupFailed(RollbackFailed)
      ensures st.Done? ==> !disk.fs.runDir
      ensures old(!TransactionItemsAreValid(disk.fs, staged)) ==> !st.Done? && unchanged(disk)
      ensures old(CleanupReady(staged)) ==>
                && Valid() && Settled(plan, disk.fs, disk.published)
                && disk.published == old(disk.published)
      ensures (&& old(CleanupReady(staged) && Run(Manifest) in disk.fs.files && committed == disk.published)
               && disk.faults == old(disk.faults))
              ==> st.Done?
    {
      if !TransactionItemsAreValid(disk.fs, staged)
         || !RunDirectoryEntriesAreKnown(disk.fs, staged, committed) {
        if CleanupReady(staged) && Run(Manifest) in disk.fs.files && committed == disk.published {
          LoggedDirectoryIsKnown(disk.fs, disk.published);
        }
        if Staged(staged) {
          StagedDirectoryIsKnown(disk.fs, staged);
        }
        return SetupFailed(RollbackFailed);
      }
      :- RemoveArtifacts(staged);
      st := FinishCleanup();
    }

    /** A draft of which only PREPARING is left. */
    ghost predicate Swept(fs: Fs) {
      forall p | p in fs.files && p.Run? :: p.name == Preparing
    }

    lemma StagedDirectoryIsKnown(fs: Fs, staged: seq<StagedFile>)
      requires Staging(plan, fs, staged, {})
      ensures TransactionItemsAreValid(fs, staged) && RunDirectoryEntriesAreKnown(fs, staged, false)
    {
      DescribedItemsAreValid(plan, fs, staged);
      MarkerHasSingleLink(fs, Run(Preparing));
    }

    /** Manifest, markers and the directory itself, once the artifacts are gone. */
    method FinishCleanup() returns (st: Status)
      requires disk.alive
      modifies disk
      ensures disk.alive <==> !st.Crashed?
      ensures disk.faults >= old(disk.faults)
      ensures old(Removable() && Swept(disk.fs)) && disk.faults == old(disk.faults) ==> st.Done?
      ensures st.Done? ==> disk.faults == old(disk.faults)
      ensures OnlyEntriesRemoved(old(disk.fs), disk.fs)
      ensures st.Done? || st.Crashed? || st == SetupFailed(RollbackFailed)
      ensures st.Done? ==> !disk.fs.runDir
      ensures old(Removable()) ==>
                && Valid() && Settled(plan, disk.fs, disk.published)
                && disk.published == old(disk.published)
      ensures old(Removable() && Run(Manifest) in disk.fs.files) && disk.faults == old(disk.faults) ==> st.Done?
    {
      ghost var wasLogged := Removable() && Run(Manifest) in disk.fs.files;
      ghost var before, wasPublished := disk.fs, disk.published;
      :- RemoveManifest();
      :- RemoveMarkers();
      if wasLogged {
        NothingIsLeft(before, wasPublished, disk.fs);
      }
      assert Swept(before) ==> NoRunEntries(disk.fs);
      st := RemoveDirectory();
    }

    // ---- Recovery -----------------------------------------------------------

    method RecoverRunWithoutManifest() returns (st: Status)
      requires disk.alive && Run(Manifest) !in disk.fs.files
      modifies disk
      ensures disk.alive <==> !st.Crashed?
      ensures disk.faults >= old(disk.faults)
      ensures st.Done? ==> disk.faults == old(disk.faults)
      ensures OnlyEntriesRemoved(old(disk.fs), disk.fs)
      ensures st.Done? || st.Crashed? || st == SetupFailed(RollbackFailed)
      ensures st.Done? ==> !disk.fs.runDir
      ensures old(Valid()) ==> Valid() && disk.published == old(disk.published)
      ensures old(Valid()) && disk.faults == old(disk.faults) ==> (st.Done? <==> Recoverable(old(disk.fs)))
      ensures old(Valid() && !Recoverable(disk.fs)) ==> st == SetupFailed(RollbackFailed) && unchanged(disk)
      // Removing PREPARING before the rest, and no further, leaves what no recovery accepts.
      ensures (&& old(Valid() && Littered(disk.fs)) && old(disk.CutIn()) == Some(0)
               && disk.listedFirst == Preparing)
              ==> disk.CutOff(old(disk.ahead), st) && disk.fs == old(disk.fs).Unlink(Run(Preparing))
    {
      var children := set p | p in disk.fs.files && p.Run?;
      if children == {} {
        forall p | p in disk.fs.files ensures !p.Run? {
          assert p !in children;
        }
        st := RemoveDirectory();
        return;
      }
      ghost var someChild :| someChild in children;
      var owned := ChildrenAreOwned(children);
      if !owned {
        return SetupFailed(RollbackFailed);
      }
      st := RemoveChildren(children);
      if st.Done? {
        st := RemoveDirectory();
      }
    }

    /** PREPARING must be valid and every child one that the wizard may have left. */
    method ChildrenAreOwned(children: set<Path>) returns (owned: bool)
      requires children == set p | p in disk.fs.files && p.Run?
      requires Run(Manifest) !in disk.fs.files
      ensures owned ==> Run(Preparing) in disk.fs.files && forall p | p in children :: p.name != Manifest
      ensures Valid() ==> (owned <==> Run(Preparing) in disk.fs.files)
    {
      if Valid() {
        DraftChildrenAreOwned(disk.fs, disk.published);
        if Run(Preparing) in disk.fs.files {
          MarkerHasSingleLink(disk.fs, Run(Preparing));
        }
      }
      var hasCommitted := Run(Committed) in disk.fs.files;
      owned := PreparingMarkerIsValid(disk.fs) && forall p | p in children :: ChildIsOwned(disk.fs, p, hasCommitted);
    }

    /** The unlink loop, in whatever order the directory lists its entries. */
    method RemoveChildren(children: set<Path>) returns (st: Status)
      requires disk.alive && Run(Manifest) !in disk.fs.files
      requires children == set p | p in disk.fs.files && p.Run?
      modifies disk
      ensures disk.alive <==> !st.Crashed?
      ensures disk.faults >= old(disk.faults)
      ensures st.Done? ==> disk.faults == old(disk.faults)
      ensures OnlyEntriesRemoved(old(disk.fs), disk.fs)
      ensures st.Done? || st.Crashed? || st == SetupFailed(RollbackFailed)
      ensures st.Done? ==> forall p | p in disk.fs.files :: !p.Run?
      ensures old(Valid()) ==> Valid() && disk.published == old(disk.published)
      ensures old(Valid()) && disk.faults == old(disk.faults) ==> st.Done?
      ensures old(disk.CutIn()) == Some(0) && disk.listedFirst == Preparing && Run(Preparing) in children ==>
                disk.CutOff(old(disk.ahead), st) && disk.fs == old(disk.fs).Unlink(Run(Preparing))
    {
      st := Done;
      ghost var ready := Valid();
      ghost var stranded := disk.CutIn() == Some(0) && disk.listedFirst == Preparing && Run(Preparing) in children;
      var remaining := children;
      while remaining != {}
        invariant disk.alive && disk.faults == old(disk.faults) && st.Done?
        invariant OnlyEntriesRemoved(old(disk.fs), disk.fs)
        invariant forall p | p in remaining :: p.Run? && p.name != Manifest
        invariant forall p | p in disk.fs.files && p.Run? :: p in remaining
        invariant Run(Manifest) !in disk.fs.files
        invariant ready ==> Valid() && disk.published == old(disk.published)
        invariant stranded ==> remaining == children && unchanged(disk)
        decreases remaining
      {
        var child := disk.NextListed(remaining);
        st := RemoveSettled(child, false);
        if !st.Done? {
          return;
        }
        remaining := remaining - {child};
      }
    }

    lemma DraftChildrenAreOwned(fs: Fs, published: bool)
      requires CrashInvariant(plan, fs, published) && Run(Manifest) !in fs.files
      ensures forall p | p in fs.files && p.Run? :: ChildIsOwned(fs, p, Run(Committed) in fs.files)
    {
      forall p | p in fs.files && p.Run? ensures ChildIsOwned(fs, p, Run(Committed) in fs.files) {
        if IsArtifact(p) {
          SingleLink(fs, p);
        } else {
          MarkerHasSingleLink(fs, p);
        }
      }
    }

    /**
     Start-up recovery. It never needs to know how far the interrupted process
     got; what it finds on disk decides.
     */
    method RecoverStaging() returns (st: Status)
      requires disk.alive
      modifies disk
      ensures disk.alive <==> !st.Crashed?
      ensures disk.faults >= old(disk.faults)
      ensures st.Done? ==> disk.faults == old(disk.faults)
      ensures !old(disk.fs.runDir) ==> st.Done? && unchanged(disk)
      ensures st.Done? || st.Crashed? || st == SetupFailed(RollbackFailed)
      // Safety: an interrupted recovery leaves a state that recovery understands.
      ensures old(Valid()) ==> Valid() && disk.published == old(disk.published)
      // A successful recovery has removed the run directory.
      ensures st.Done? ==> !disk.fs.runDir
      // Completeness: without further faults it succeeds exactly when PREPARING survives.
      ensures old(Valid()) && disk.faults == old(disk.faults) ==>
                (st.Done? <==> Recoverable(old(disk.fs)))
      // Refusal: what no transaction leaves behind stops it before any change.
      ensures old(disk.fs.runDir && LoadManifest(disk.fs).Some?
                  && Suspect(disk.fs, LoadManifest(disk.fs).value)) ==>
                st == SetupFailed(RollbackFailed) && unchanged(disk)
      // Whatever the disk holds, only a rollback writes to destinations.
      ensures old(Run(Manifest) !in disk.fs.files || Run(Committed) in disk.fs.files || LoadManifest(disk.fs).None?) ==>
                OnlyEntriesRemoved(old(disk.fs), disk.fs)
      // An unrecoverable state is refused, and stays as it is.
      ensures old(Valid() && !Recoverable(disk.fs)) ==> st == SetupFailed(RollbackFailed) && unchanged(disk)
      // Removing PREPARING before the rest, and no further, leaves what no recovery accepts.
      ensures (&& old(Valid() && Littered(disk.fs)) && old(disk.CutIn()) == Some(0)
               && disk.listedFirst == Preparing)
              ==> disk.CutOff(old(disk.ahead), st) && disk.fs == old(disk.fs).Unlink(Run(Preparing))
    {
      if !disk.fs.runDir {
        return Done;
      }
      if Run(Manifest) !in disk.fs.files {
        st := RecoverRunWithoutManifest();
        return;
      }
      ghost var ready := Valid();
      if ready {
        LoggedDirectoryIsKnown(disk.fs, disk.published);
      }
      var loaded := LoadManifest(disk.fs);
      if loaded.None? {
        return SetupFailed(RollbackFailed);
      }
      var staged := loaded.value;
      ChecksRefuseExactlySuspects(disk.fs, staged);
      if Run(Committed) in disk.fs.files {
        if ready {
          SealedIsInstalled(plan, disk.fs, staged);
        }
        if !RunDirectoryEntriesAreKnown(disk.fs, staged, true) {
          return SetupFailed(RollbackFailed);
        }
        st := Cleanup(staged, true);
        return;
      }
      if !RunDirectoryEntriesAreKnown(disk.fs, staged, false) {
        return SetupFailed(RollbackFailed);
      }
      st := Rollback(staged);
      if !st.Done? {
        return;
      }
      st := Cleanup(staged, false);
    }

    // ---- Staging ------------------------------------------------------------

    ghost predicate Drafting()
      reads this, disk
    {
      Valid() && !disk.published && Run(Manifest) !in disk.fs.files && disk.fs.runDir
    }

    ghost predicate Staged(items: seq<StagedFile>)
      reads this, disk
    {
      Staging(plan, disk.fs, items, {}) && !disk.published
    }

    /** `contextlib.suppress(OSError)` around an unlink while only a draft exists. */
    method SuppressedUnlink(path: Path) returns (crashed: bool)
      requires disk.alive && path.Run? && Drafting()
      modifies disk
      ensures disk.alive <==> !crashed
      ensures disk.faults >= old(disk.faults)
      ensures disk.faults == old(disk.faults) ==> !crashed && disk.fs == old(disk.fs).Unlink(path)
      ensures Drafting()
    {
      DraftUnlink(plan, disk.fs, false, path);
      var st := RemoveEntry(path, false);
      crashed := st.Crashed?;
    }

    method WritePreparingMarker() returns (st: Status)
      requires disk.alive && Drafting()
      requires forall p | p in disk.fs.files :: !p.Run?
      modifies disk
      ensures disk.alive <==> !st.Crashed?
      ensures disk.faults >= old(disk.faults)
      ensures st.Done? ==> disk.faults == old(disk.faults)
      ensures disk.alive && disk.faults == old(disk.faults) + 1 ==>
                && st.OsError?
                && if TakesEffect(old(disk.ahead), 4) then Staged([]) else NoRunEntries(disk.fs)
      ensures old(disk.CutIn()) == Some(0) ==>
                disk.CutOff(old(disk.ahead), st) && disk.fs == old(disk.fs).Create(Run(PreparingTemp))
      ensures disk.Spent(old(disk.ahead), 7, st)
      ensures Drafting()
      ensures st.Done? ==> Staged([])
      ensures disk.faults == old(disk.faults) ==> st.Done?
    {
      st := TryPreparingMarker();
      if !st.Done? && !st.Crashed? {
        if TakesEffect(old(disk.ahead), 4) {
          StageUnlink(plan, disk.fs, [], {}, Run(PreparingTemp));
        }
        var crashed := SuppressedUnlink(Run(PreparingTemp));
        if crashed {
          st := Crashed;
        }
      }
    }

    method TryPreparingMarker() returns (st: Status)
      requires disk.alive && Drafting()
      requires forall p | p in disk.fs.files :: !p.Run?
      modifies disk
      ensures disk.alive <==> !st.Crashed?
      ensures disk.faults >= old(disk.faults)
      ensures disk.faults == old(disk.faults) + (if st.Done? then 0 else 1)
      ensures disk.alive && !st.Done? ==> st.OsError?
      ensures !st.Done? ==>
                if TakesEffect(old(disk.ahead), 4) then Staging(plan, disk.fs, [], {})
                else forall p | p in disk.fs.files && p.Run? :: p == Run(PreparingTemp)
      ensures old(disk.CutIn()) == Some(0) ==>
                disk.CutOff(old(disk.ahead), st) && disk.fs == old(disk.fs).Create(Run(PreparingTemp))
      ensures disk.Spent(old(disk.ahead), 7, st)
      ensures Drafting()
      ensures st.Done? ==> Staged([])
      ensures disk.faults == old(disk.faults) ==> st.Done?
    {
      st := Done;
      :- CreatePreparingTemp();
      st := RenamePreparingTemp();
    }

    method RenamePreparingTemp() returns (st: Status)
      requires disk.alive && Drafting()
      requires Run(PreparingTemp) in disk.fs.files && disk.fs.Read(Run(PreparingTemp)) == PreparingMark
      requires forall p | p in disk.fs.files && p.Run? :: p == Run(PreparingTemp)
      modifies disk
      ensures disk.alive <==> !st.Crashed?
      ensures disk.faults >= old(disk.faults)
      ensures disk.faults == old(disk.faults) + (if st.Done? then 0 else 1)
      ensures disk.alive && !st.Done? ==> st.OsError?
      ensures !st.Done? ==>
                if TakesEffect(old(disk.ahead), 0) then Staging(plan, disk.fs, [], {}) else disk.fs == old(disk.fs)
      ensures disk.Spent(old(disk.ahead), 3, st)
      ensures Drafting()
      ensures st.Done? ==> Staged([])
      ensures disk.faults == old(disk.faults) ==> st.Done?
    {
      PublishPreparing(disk.fs);
      :- disk.Attempt(disk.fs.Replace(Run(PreparingTemp), Run(Preparing)));
      :- disk.Sync();
      st := disk.Sync();
    }

    method CreatePreparingTemp() returns (st: Status)
      requires disk.alive && Drafting()
      requires forall p | p in disk.fs.files :: !p.Run?
      modifies disk
      ensures disk.alive <==> !st.Crashed?
      ensures disk.faults >= old(disk.faults)
      ensures disk.faults == old(disk.faults) + (if st.Done? then 0 else 1)
      ensures disk.alive && !st.Done? ==> st.OsError?
      ensures forall p | p in disk.fs.files && p.Run? :: p == Run(PreparingTemp)
      ensures old(disk.CutIn()) == Some(0) ==>
                disk.CutOff(old(disk.ahead), st) && disk.fs == old(disk.fs).Create(Run(PreparingTemp))
      ensures disk.Spent(old(disk.ahead), 4, st)
      ensures Drafting()
      ensures st.Done? ==>
                && Run(PreparingTemp) in disk.fs.files && disk.fs.Read(Run(PreparingTemp)) == PreparingMark
                && forall p | p in disk.fs.files && p.Run? :: p == Run(PreparingTemp)
      ensures disk.faults == old(disk.faults) ==> st.Done?
    {
      var temporary := Run(PreparingTemp);
      DraftCreate(plan, disk.fs, temporary);
      :- disk.Attempt(disk.fs.Create(temporary));
      :- disk.Sync();
      DraftFill(plan, disk.fs, temporary, PreparingMark);
      :- disk.Attempt(disk.fs.Fill(temporary, PreparingMark));
      st := disk.Sync();
    }

    lemma PublishPreparing(fs: Fs)
      requires Base(plan, fs) && Draft(plan, fs, false) && fs.runDir
      requires forall p | p in fs.files && p.Run? :: p == Run(PreparingTemp)
      requires Run(PreparingTemp) in fs.files && fs.Read(Run(PreparingTemp)) == PreparingMark
      ensures Staging(plan, fs.Replace(Run(PreparingTemp), Run(Preparing)), [], {})
    {
      var after := fs.Replace(Run(PreparingTemp), Run(Preparing));
      RenameMarker(plan, fs, [], Run(PreparingTemp), Run(Preparing));
      forall p: Path | p.Destination? ensures SameAt(plan, after, p) {
        assert SameAt(plan, fs, p);
      }
    }

    /** `secrets.token_hex`: an identifier no file of the run directory uses. */
    method FreshToken() returns (id: nat)
      ensures Run(Temporary(id)) !in disk.fs.files && Run(SetupDisk.Rollback(id)) !in disk.fs.files
    {
      id := 0;
      var unseen := disk.fs.files.Keys;
      while Run(Temporary(id)) in disk.fs.files || Run(SetupDisk.Rollback(id)) in disk.fs.files
        invariant unseen <= disk.fs.files.Keys
        invariant forall p | p in disk.fs.files && IsArtifact(p) && p.name.id >= id :: p in unseen
        decreases unseen
      {
        unseen := unseen - {Run(Temporary(id)), Run(SetupDisk.Rollback(id))};
        id := id + 1;
      }
    }

    /** Hard-links the original so that the commit can be undone. */
    method LinkRollback(destination: Path, rollback: Path, ghost items: seq<StagedFile>)
      returns (st: Status, identity: Inode)
      requires disk.alive && Staged(items)
      requires destination.Destination?
      requires rollback.Run? && rollback.name.Rollback? && rollback !in disk.fs.files
      modifies disk
      ensures disk.alive <==> !st.Crashed?
      ensures disk.faults >= old(disk.faults)
      ensures st.Done? ==> disk.faults == old(disk.faults)
      ensures disk.faults <= old(disk.faults) + 1
      ensures disk.alive && disk.faults > old(disk.faults) ==> st.OsError?
      ensures Staging(plan, disk.fs, items, {rollback})
      ensures (&& old(disk.CutIn()) == Some(0)
               && destination in old(disk.fs).files
               && old(disk.fs).LinkCount(old(disk.fs).files[destination]) == 1)
              ==> disk.CutOff(old(disk.ahead), st) && disk.fs == old(disk.fs).Link(destination, rollback)
      ensures Drafting()
      ensures st.Done? ==>
                && Staging(plan, disk.fs, items, {rollback})
                && destination in old(disk.fs).files
                && disk.fs == old(disk.fs).Link(destination, rollback)
                && identity == disk.fs.files[destination]
      ensures (&& disk.faults == old(disk.faults)
               && destination in old(disk.fs).files
               && old(disk.fs).LinkCount(old(disk.fs).files[destination]) == 1)
              ==> st.Done?
    {
      identity := 0;
      if destination !in disk.fs.files || disk.fs.LinkCount(disk.fs.files[destination]) != 1 {
        st := SetupFailed(FilesystemUnsafe);
        return;
      }
      identity := disk.fs.files[destination];
      StagedNamesAreTaken(disk.fs, items, rollback);
      StageLink(plan, disk.fs, items, destination, rollback);
      SingleLink(disk.fs, destination);
      :- disk.Attempt(disk.fs.Link(destination, rollback));
      LinkCountOfPair(disk.fs, identity, destination, rollback);
      if disk.fs.files[destination] != identity || disk.fs.files[rollback] != identity
         || disk.fs.LinkCount(identity) != 2 {
        st := SetupFailed(FilesystemUnsafe);
        return;
      }
      st := Done;
    }

    method WriteTemporary(temporary: Path, content: Bytes, ghost items: seq<StagedFile>, ghost extra: set<Path>)
      returns (st: Status)
      requires disk.alive && Staging(plan, disk.fs, items, extra) && !disk.published
      requires temporary.Run? && temporary.name.Temporary? && temporary !in disk.fs.files
      requires NotNamedBy(temporary, items)
      modifies disk
      ensures disk.alive <==> !st.Crashed?
      ensures disk.faults >= old(disk.faults)
      ensures forall p | p in disk.fs.files :: p in old(disk.fs).files || p == temporary
      ensures st.Done? ==> disk.faults == old(disk.faults)
      ensures disk.faults <= old(disk.faults) + 1
      ensures disk.alive && disk.faults > old(disk.faults) ==> st.OsError?
      ensures Staging(plan, disk.fs, items, extra + {temporary})
      ensures old(disk.CutIn()) == Some(0) ==>
                disk.CutOff(old(disk.ahead), st) && disk.fs == old(disk.fs).Create(temporary)
      ensures Drafting()
      ensures st.Done? ==>
                && Staging(plan, disk.fs, items, extra + {temporary})
                && temporary in disk.fs.files && disk.fs.Read(temporary) == Text(content)
                && disk.fs.files == old(disk.fs).files[temporary := disk.fs.files[temporary]]
      ensures disk.faults == old(disk.faults) ==> st.Done?
    {
      StageCreate(plan, disk.fs, items, extra, temporary);
      :- disk.Attempt(disk.fs.Create(temporary));
      :- disk.Sync();
      StageFill(plan, disk.fs, items, extra + {temporary}, temporary, Text(content));
      :- disk.Attempt(disk.fs.Fill(temporary, Text(content)));
      :- disk.Sync();
      SingleLink(disk.fs, temporary);
      if disk.fs.LinkCount(disk.fs.files[temporary]) != 1 {
        st := SetupFailed(FilesystemUnsafe);
        return;
      }
      st := Done;
    }

    /** The try block of `_stage_file`. */
    method TryStageFile(destination: Path, temporary: Path, rollback: Path, content: Bytes,
                        expectedExisted: bool, ghost items: seq<StagedFile>)
      returns (st: Status, item: StagedFile)
      requires disk.alive && Staged(items)
      requires |items| < |plan.values|
      requires forall i, j | 0 <= i < j < |plan.values| :: plan.values[i].0 != plan.values[j].0
      requires destination == Destination(plan.values[|items|].0) && content == plan.values[|items|].1
      requires destination.target.Secret? ==> destination.target.index < SECRET_COUNT
      requires temporary.Run? && temporary.name.Temporary? && temporary !in disk.fs.files
      requires rollback.Run? && rollback.name.Rollback? && rollback !in disk.fs.files
      modifies disk
      ensures disk.alive <==> !st.Crashed?
      ensures disk.faults >= old(disk.faults)
      ensures !expectedExisted && !st.Done? ==> rollback !in disk.fs.files
      ensures st.Done? ==> disk.faults == old(disk.faults)
      ensures disk.faults <= old(disk.faults) + 1
      ensures disk.alive && disk.faults > old(disk.faults) ==> st.OsError?
      ensures !st.Done? ==> Staging(plan, disk.fs, items, {temporary, rollback})
      ensures (&& old(disk.CutIn()) == Some(0)
               && (expectedExisted <==> destination in old(disk.fs).files)
               && (expectedExisted ==> old(disk.fs).LinkCount(old(disk.fs).files[destination]) == 1))
              ==> disk.CutOff(old(disk.ahead), st) && Littered(disk.fs)
      ensures Drafting()
      ensures st.Done? ==> Staged(items + [item])
      ensures (&& disk.faults == old(disk.faults)
               && (expectedExisted <==> destination in old(disk.fs).files)
               && (expectedExisted ==> old(disk.fs).LinkCount(old(disk.fs).files[destination]) == 1))
              ==> st.Done?
    {
      item := StagedFile(destination, temporary, None, false, None, 0);
      StagedNamesAreTaken(disk.fs, items, temporary);
      StagedNamesAreTaken(disk.fs, items, rollback);
      var original: Option<Inode>;
      ghost var extra: set<Path>;
      st, original, extra := KeepOriginal(destination, rollback, expectedExisted, items);
      if !st.Done? {
        return;
      }
      item := StagedFile(destination, temporary, if expectedExisted then Some(rollback) else None,
                         expectedExisted, original, 0);
      st, item := WriteNewFile(item, content, items, extra);
    }

    /** Writes the temporary of an item whose original, if any, has its rollback link. */
    method WriteNewFile(draft: StagedFile, content: Bytes, ghost items: seq<StagedFile>, ghost extra: set<Path>)
      returns (st: Status, item: StagedFile)
      requires disk.alive && Staging(plan, disk.fs, items, extra) && !disk.published
      requires |items| < |plan.values|
      requires forall i, j | 0 <= i < j < |plan.values| :: plan.values[i].0 != plan.values[j].0
      requires ItemShape(draft) && draft.destination == Destination(plan.values[|items|].0)
      requires content == plan.values[|items|].1
      requires draft.temporary !in disk.fs.files && NotNamedBy(draft.temporary, items)
      requires draft.rollback.Some? ==> NotNamedBy(draft.rollback.value, items)
      requires draft.existed <==> draft.destination in disk.fs.files
      requires draft.existed ==>
                 && draft.originalIdentity == Some(disk.fs.files[draft.destination])
                 && draft.rollback.value in disk.fs.files
                 && disk.fs.files[draft.rollback.value] == disk.fs.files[draft.destination]
      requires extra == if draft.existed then {draft.rollback.value} else {}
      modifies disk
      ensures disk.alive <==> !st.Crashed?
      ensures disk.faults >= old(disk.faults)
      ensures forall p | p in disk.fs.files :: p in old(disk.fs).files || p == draft.temporary
      ensures st.Done? ==> disk.faults == old(disk.faults)
      ensures disk.faults <= old(disk.faults) + 1
      ensures disk.alive && disk.faults > old(disk.faults) ==> st.OsError?
      ensures !st.Done? ==> Staging(plan, disk.fs, items, extra + {draft.temporary})
      ensures old(disk.CutIn()) == Some(0) ==>
                disk.CutOff(old(disk.ahead), st) && disk.fs == old(disk.fs).Create(draft.temporary)
      ensures Drafting()
      ensures st.Done? ==> Staged(items + [item])
      ensures disk.faults == old(disk.faults) ==> st.Done?
    {
      item := draft;
      st := WriteTemporary(draft.temporary, content, items, extra);
      if st.Done? {
        item := draft.(stagedIdentity := disk.fs.files[draft.temporary]);
        StageItem(plan, disk.fs, items, item, extra + {draft.temporary});
      }
    }

    /** The rollback link of an existing destination; a destination that should be new must not exist. */
    method KeepOriginal(destination: Path, rollback: Path, expectedExisted: bool, ghost items: seq<StagedFile>)
      returns (st: Status, original: Option<Inode>, ghost extra: set<Path>)
      requires disk.alive && Staged(items)
      requires destination.Destination?
      requires rollback.Run? && rollback.name.Rollback? && rollback !in disk.fs.files
      modifies disk
      ensures disk.alive <==> !st.Crashed?
      ensures disk.faults >= old(disk.faults)
      ensures !expectedExisted ==> disk.fs == old(disk.fs)
      ensures st.Done? ==> disk.faults == old(disk.faults)
      ensures disk.faults <= old(disk.faults) + 1
      ensures disk.alive && disk.faults > old(disk.faults) ==> st.OsError?
      ensures Staging(plan, disk.fs, items, {rollback})
      ensures Drafting()
      ensures extra == if expectedExisted then {rollback} else {}
      ensures st.Done? ==>
                && Staging(plan, disk.fs, items, extra)
                && (expectedExisted <==> destination in old(disk.fs).files)
                && disk.fs.files == (if expectedExisted
                                     then old(disk.fs).files[rollback := old(disk.fs).files[destination]]
                                     else old(disk.fs).files)
                && original == if expectedExisted then Some(old(disk.fs).files[destination]) else None
      ensures !expectedExisted && destination !in old(disk.fs).files ==> st.Done? && unchanged(disk)
      ensures (&& old(disk.CutIn()) == Some(0) && expectedExisted
               && destination in old(disk.fs).files
               && old(disk.fs).LinkCount(old(disk.fs).files[destination]) == 1)
              ==> disk.CutOff(old(disk.ahead), st) && Littered(disk.fs)
      ensures (&& disk.faults == old(disk.faults)
               && (expectedExisted <==> destination in old(disk.fs).files)
               && (expectedExisted ==> old(disk.fs).LinkCount(old(disk.fs).files[destination]) == 1))
              ==> st.Done?
    {
      original := None;
      extra := if expectedExisted then {rollback} else {};
      st := Done;
      if expectedExisted {
        var identity: Inode;
        st, identity := LinkRollback(destination, rollback, items);
        original := Some(identity);
        assert st.Crashed? && rollback in disk.fs.files ==> IsArtifact(rollback);
      } else if destination in disk.fs.files {
        st := SetupFailed(FilesystemUnsafe);
      }
    }

    lemma StagedNamesAreTaken(fs: Fs, items: seq<StagedFile>, p: Path)
      requires Staging(plan, fs, items, {}) && p !in fs.files
      ensures NotNamedBy(p, items)
    {
      forall i | 0 <= i < |items| ensures p != items[i].temporary && Some(p) != items[i].rollback {
        assert Pending(plan, fs, items[i]) && Tracks(fs, items[i]);
      }
    }

    method StageFile(destination: Path, content: Bytes, expectedExisted: bool, ghost items: seq<StagedFile>)
      returns (st: Status, item: StagedFile)
      requires disk.alive && Staged(items)
      requires |items| < |plan.values|
      requires forall i, j | 0 <= i < j < |plan.values| :: plan.values[i].0 != plan.values[j].0
      requires destination == Destination(plan.values[|items|].0) && content == plan.values[|items|].1
      requires destination.target.Secret? ==> destination.target.index < SECRET_COUNT
      modifies disk
      ensures disk.alive <==> !st.Crashed?
      ensures disk.faults >= old(disk.faults)
      ensures st.Done? ==> disk.faults == old(disk.faults)
      ensures (&& disk.alive && disk.faults == old(disk.faults) + 1
               && (expectedExisted <==> destination in old(disk.fs).files)
               && (expectedExisted ==> old(disk.fs).LinkCount(old(disk.fs).files[destination]) == 1))
              ==> st.OsError? && Staged(items)
      ensures (&& old(disk.CutIn()) == Some(0)
               && (expectedExisted <==> destination in old(disk.fs).files)
               && (expectedExisted ==> old(disk.fs).LinkCount(old(disk.fs).files[destination]) == 1))
              ==> disk.CutOff(old(disk.ahead), st) && Littered(disk.fs)
      ensures Drafting()
      ensures st.Done? ==> Staged(items + [item])
      ensures (&& disk.faults == old(disk.faults)
               && (expectedExisted <==> destination in old(disk.fs).files)
               && (expectedExisted ==> old(disk.fs).LinkCount(old(disk.fs).files[destination]) == 1))
              ==> st.Done?
    {
      var id := FreshToken();
      var temporary, rollback := Run(Temporary(id)), Run(SetupDisk.Rollback(id));
      StagedNamesAreTaken(disk.fs, items, temporary);
      StagedNamesAreTaken(disk.fs, items, rollback);
      st, item := TryStageFile(destination, temporary, rollback, content, expectedExisted, items);
      if !st.Done? && !st.Crashed? {
        var crashed := TakeBack(temporary, rollback, expectedExisted, items);
        if crashed {
          st := Crashed;
        }
      }
    }

    lemma TakenBackIsStaged(fs: Fs, items: seq<StagedFile>, temporary: Path, rollback: Path)
      requires Staging(plan, fs, items, {temporary, rollback})
      requires temporary.Run? && temporary.name.Temporary? && NotNamedBy(temporary, items)
      requires rollback.Run? && rollback.name.Rollback? && NotNamedBy(rollback, items)
      ensures Staging(plan, fs.Unlink(temporary).Unlink(rollback), items, {})
    {
      StageUnlink(plan, fs, items, {temporary, rollback}, temporary);
      assert {temporary, rollback} - {temporary} == {rollback};
      StageUnlink(plan, fs.Unlink(temporary), items, {rollback}, rollback);
      assert {rollback} - {rollback} == {};
    }

    lemma UnlinkingNothing(fs: Fs, p: Path)
      requires p !in fs.files
      ensures fs.Unlink(p) == fs
    {
      assert fs.Unlink(p).files == fs.files;
    }

    /** Unlinks what a failed `_stage_file` has left. */
    method TakeBack(temporary: Path, rollback: Path, expectedExisted: bool, ghost items: seq<StagedFile>)
      returns (crashed: bool)
      requires disk.alive && !disk.published && Staging(plan, disk.fs, items, {temporary, rollback})
      requires temporary.Run? && temporary.name.Temporary? && NotNamedBy(temporary, items)
      requires rollback.Run? && rollback.name.Rollback? && NotNamedBy(rollback, items)
      requires !expectedExisted ==> rollback !in disk.fs.files
      modifies disk
      ensures disk.alive <==> !crashed
      ensures disk.faults >= old(disk.faults)
      ensures Drafting()
      ensures disk.faults == old(disk.faults) ==> !crashed && Staged(items)
    {
      TakenBackIsStaged(disk.fs, items, temporary, rollback);
      if rollback !in disk.fs.files {
        UnlinkingNothing(disk.fs.Unlink(temporary), rollback);
      }
      crashed := SuppressedUnlink(temporary);
      if !crashed && expectedExisted {
        crashed := SuppressedUnlink(rollback);
      }
    }

    method WriteManifest(staged: seq<StagedFile>) returns (st: Status)
      requires disk.alive && Staged(staged)
      requires |staged| == |plan.values| && 1 <= |staged| <= SECRET_COUNT + 1
      modifies disk
      ensures disk.alive <==> !st.Crashed?
      ensures disk.faults >= old(disk.faults)
      ensures st.Done? ==> disk.faults == old(disk.faults)
      ensures disk.alive && disk.faults == old(disk.faults) + 1 ==>
                st.OsError? && (Run(Manifest) !in disk.fs.files ==> Staged(staged))
      ensures Valid() && !disk.published && Untouched(plan, disk.fs)
      ensures Run(Manifest) in disk.fs.files ==> ItemsOnDisk(disk.fs) == staged
      ensures st.Done? ==>
                && Run(Manifest) in disk.fs.files && Run(CommittedTemp) !in disk.fs.files
                && forall i | 0 <= i < |staged| :: Pending(plan, disk.fs, staged[i])
      ensures disk.faults == old(disk.faults) ==> st.Done?
    {
      ManifestNamesAreFree(disk.fs, staged);
      st := TryWriteManifest(staged);
      if !st.Done? && !st.Crashed? && Run(ManifestTemp) in disk.fs.files {
        StageUnlink(plan, disk.fs, staged, {Run(ManifestTemp)}, Run(ManifestTemp));
        assert {Run(ManifestTemp)} - {Run(ManifestTemp)} == {};
        var crashed := SuppressedUnlink(Run(ManifestTemp));
        if crashed {
          st := Crashed;
        }
      }
    }

    method TryWriteManifest(staged: seq<StagedFile>) returns (st: Status)
      requires disk.alive && Staged(staged)
      requires |staged| == |plan.values| && 1 <= |staged| <= SECRET_COUNT + 1
      modifies disk
      ensures disk.alive <==> !st.Crashed?
      ensures disk.faults >= old(disk.faults)
      ensures disk.faults == old(disk.faults) + (if st.Done? then 0 else 1)
      ensures disk.alive && !st.Done? ==> st.OsError?
      ensures Run(Manifest) !in disk.fs.files ==> Staging(plan, disk.fs, staged, {Run(ManifestTemp)})
      ensures Valid() && !disk.published && Untouched(plan, disk.fs)
      ensures Run(Manifest) in disk.fs.files ==> ItemsOnDisk(disk.fs) == staged && Run(ManifestTemp) !in disk.fs.files
      ensures Run(Manifest) !in disk.fs.files ==> Drafting()
      ensures st.Done? ==>
                && Run(Manifest) in disk.fs.files && Run(CommittedTemp) !in disk.fs.files
                && forall i | 0 <= i < |staged| :: Pending(plan, disk.fs, staged[i])
      ensures disk.faults == old(disk.faults) ==> st.Done?
    {
      var temporary, manifest := Run(ManifestTemp), Run(Manifest);
      ManifestNamesAreFree(disk.fs, staged);
      StageCreate(plan, disk.fs, staged, {}, temporary);
      assert {} + {temporary} == {temporary};
      :- disk.Attempt(disk.fs.Create(temporary));
      :- disk.Sync();
      StageFill(plan, disk.fs, staged, {temporary}, temporary, ManifestOf(staged));
      :- disk.Attempt(disk.fs.Fill(temporary, ManifestOf(staged)));
      :- disk.Sync();
      PublishManifest(plan, disk.fs, staged);
      :- disk.Attempt(disk.fs.Replace(temporary, manifest));
      :- disk.Sync();
      st := disk.Sync();
    }

    lemma ManifestNamesAreFree(fs: Fs, staged: seq<StagedFile>)
      requires Staging(plan, fs, staged, {})
      ensures Run(ManifestTemp) !in fs.files && Run(CommittedTemp) !in fs.files
      ensures NotNamedBy(Run(ManifestTemp), staged)
    {
      forall i | 0 <= i < |staged| ensures ItemShape(staged[i]) {
        assert Tracks(fs, staged[i]);
      }
    }

    /** Stages every file of the plan; on any error nothing of it is installed. */
    method StageAll(secrets: seq<(Target, Bytes)>, envBytes: Bytes, envWasMissing: bool)
      returns (st: Status, staged: seq<StagedFile>)
      requires disk.alive && Valid() && !disk.published && !disk.fs.runDir
      requires plan == Plan(disk.fs, secrets + [(Env, envBytes)])
      requires forall i | 0 <= i < |secrets| :: secrets[i].0.Secret? && secrets[i].0.index < SECRET_COUNT
      requires forall i, j | 0 <= i < j < |secrets| :: secrets[i].0 != secrets[j].0
      requires envWasMissing <==> Destination(Env) !in disk.fs.files
      modifies disk
      ensures disk.alive <==> !st.Crashed?
      ensures disk.faults >= old(disk.faults)
      ensures st.Done? ==> disk.faults == old(disk.faults) && TakesEffect(old(disk.ahead), 6)
      // One error: everything is taken back, but for an empty directory when PREPARING was not there yet.
      ensures disk.alive && disk.faults == old(disk.faults) + 1 ==>
                if TakesEffect(old(disk.ahead), 6) then st == SetupFailed(WriteFailed) && !disk.fs.runDir
                else NoRunEntries(disk.fs) && (st.OsError? || st == SetupFailed(WriteFailed))
      ensures old(disk.CutIn()) == Some(2) ==>
                && disk.CutOff(old(disk.ahead), st)
                && disk.fs == old(disk.fs).(runDir := true).Create(Run(PreparingTemp))
      ensures old(disk.CutIn()) == Some(9) ==> disk.CutOff(old(disk.ahead), st) && Littered(disk.fs)
      ensures Valid() && !disk.published && Untouched(plan, disk.fs)
      ensures st.Done? ==>
                && Run(Manifest) in disk.fs.files && ItemsOnDisk(disk.fs) == staged
                && Run(CommittedTemp) !in disk.fs.files
                && forall i | 0 <= i < |staged| :: Pending(plan, disk.fs, staged[i])
      ensures disk.faults == old(disk.faults) ==> st.Done?
    {
      staged := [];
      MakeRunDirectory(plan, disk.fs);
      DraftIsUntouched();
      :- disk.Attempt(disk.fs.(runDir := true));
      :- disk.Sync();
      st, staged := TryStageAll(secrets, envBytes, envWasMissing);
      if !st.Done? && !st.Crashed? {
        var cleaned := Cleanup(staged, false);
        if cleaned.Crashed? {
          st := Crashed;
        } else if st.OsError? {
          st := SetupFailed(WriteFailed);
        }
      }
    }

    lemma DraftIsUntouched()
      requires CrashInvariant(plan, plan.before, false) && !plan.before.runDir
      ensures Untouched(plan, plan.before) && Untouched(plan, plan.before.(runDir := true))
    {
      forall p: Path | p.Destination? ensures SameAt(plan, plan.before.(runDir := true), p) {
      }
    }

    /** The try block of `_stage_all`. */
    method TryStageAll(secrets: seq<(Target, Bytes)>, envBytes: Bytes, envWasMissing: bool)
      returns (st: Status, staged: seq<StagedFile>)
      requires disk.alive && Drafting()
      requires forall p | p in disk.fs.files :: !p.Run?
      requires plan.values == secrets + [(Env, envBytes)]
      requires forall i | 0 <= i < |secrets| :: secrets[i].0.Secret? && secrets[i].0.index < SECRET_COUNT
      requires forall i, j | 0 <= i < j < |secrets| :: secrets[i].0 != secrets[j].0
      requires envWasMissing <==> Destination(Env) !in plan.before.files
      modifies disk
      ensures disk.alive <==> !st.Crashed?
      ensures disk.faults >= old(disk.faults)
      ensures st.Done? ==> disk.faults == old(disk.faults) && TakesEffect(old(disk.ahead), 4)
      ensures disk.alive && disk.faults == old(disk.faults) + 1 ==>
                && st.OsError?
                && if !TakesEffect(old(disk.ahead), 4) then staged == [] && NoRunEntries(disk.fs)
                   else Run(Manifest) in disk.fs.files || Staged(staged)
      ensures old(disk.CutIn()) == Some(0) ==>
                disk.CutOff(old(disk.ahead), st) && disk.fs == old(disk.fs).Create(Run(PreparingTemp))
      ensures old(disk.CutIn()) == Some(7) ==> disk.CutOff(old(disk.ahead), st) && Littered(disk.fs)
      ensures Valid() && !disk.published && Untouched(plan, disk.fs)
      ensures forall i | 0 <= i < |staged| :: ItemShape(staged[i])
      ensures Run(Manifest) in disk.fs.files ==> ItemsOnDisk(disk.fs) == staged
      ensures st.Done? ==>
                && Run(Manifest) in disk.fs.files && Run(CommittedTemp) !in disk.fs.files
                && forall i | 0 <= i < |staged| :: Pending(plan, disk.fs, staged[i])
      ensures disk.faults == old(disk.faults) ==> st.Done?
    {
      staged := [];
      st := WritePreparingMarker();
      if !st.Done? {
        return;
      }
      DistinctSecretsAreFew(secrets);
      st, staged := StageSecrets(secrets);
      if !st.Done? {
        return;
      }
      st, staged := StageLast(staged, envBytes, envWasMissing);
    }

    /** `.env` comes last; after it the manifest is written. */
    method StageLast(secrets: seq<StagedFile>, envBytes: Bytes, envWasMissing: bool)
      returns (st: Status, staged: seq<StagedFile>)
      requires disk.alive && Staged(secrets)
      requires |plan.values| == |secrets| + 1 <= SECRET_COUNT + 1
      requires forall i, j | 0 <= i < j < |plan.values| :: plan.values[i].0 != plan.values[j].0
      requires plan.values[|secrets|] == (Env, envBytes)
      requires forall i | 0 <= i < |secrets| :: ItemShape(secrets[i])
      requires envWasMissing <==> Destination(Env) !in plan.before.files
      modifies disk
      ensures disk.alive <==> !st.Crashed?
      ensures disk.faults >= old(disk.faults)
      ensures st.Done? ==> disk.faults == old(disk.faults)
      ensures disk.alive && disk.faults == old(disk.faults) + 1 ==>
                st.OsError? && (Run(Manifest) in disk.fs.files || Staged(staged))
      ensures old(disk.CutIn()) == Some(0) ==> disk.CutOff(old(disk.ahead), st) && Littered(disk.fs)
      ensures Valid() && !disk.published && Untouched(plan, disk.fs)
      ensures forall i | 0 <= i < |staged| :: ItemShape(staged[i])
      ensures Run(Manifest) in disk.fs.files ==> ItemsOnDisk(disk.fs) == staged
      ensures st.Done? ==>
                && Run(Manifest) in disk.fs.files && Run(CommittedTemp) !in disk.fs.files
                && forall i | 0 <= i < |staged| :: Pending(plan, disk.fs, staged[i])
      ensures disk.faults == old(disk.faults) ==> st.Done?
    {
      assert SameAt(plan, disk.fs, Destination(Env));
      st, staged := StageNext(secrets, Env, envBytes, !envWasMissing);
      if !st.Done? {
        return;
      }
      st := WriteManifest(staged);
    }

    method StageSecrets(secrets: seq<(Target, Bytes)>) returns (st: Status, staged: seq<StagedFile>)
      requires disk.alive && Staged([])
      requires secrets <= plan.values
      requires forall i | 0 <= i < |secrets| :: secrets[i].0.Secret? && secrets[i].0.index < SECRET_COUNT
      requires forall i, j | 0 <= i < j < |plan.values| :: plan.values[i].0 != plan.values[j].0
      modifies disk
      ensures disk.alive <==> !st.Crashed?
      ensures disk.faults >= old(disk.faults)
      ensures st.Done? ==> disk.faults == old(disk.faults)
      ensures disk.alive && disk.faults == old(disk.faults) + 1 ==> st.OsError? && Staged(staged)
      ensures old(disk.CutIn()) == Some(0) && secrets != [] ==> disk.CutOff(old(disk.ahead), st) && Littered(disk.fs)
      ensures secrets == [] ==> st.Done? && unchanged(disk)
      ensures Drafting()
      ensures forall i | 0 <= i < |staged| :: ItemShape(staged[i])
      ensures st.Done? ==> Staged(staged) && |staged| == |secrets|
      ensures disk.faults == old(disk.faults) ==> st.Done?
    {
      staged := [];
      st := Done;
      while |staged| < |secrets|
        invariant |staged| <= |secrets|
        invariant disk.alive && disk.faults == old(disk.faults) && st.Done?
        invariant Staged(staged)
        invariant old(disk.CutIn()) == Some(0) || secrets == [] ==> staged == [] && unchanged(disk)
        invariant forall i | 0 <= i < |staged| :: ItemShape(staged[i])
        decreases |secrets| - |staged|
      {
        var target, content := secrets[|staged|].0, secrets[|staged|].1;
        assert plan.values[|staged|] == secrets[|staged|];
        st, staged := StageNext(staged, target, content, Destination(target) in disk.fs.files);
        if !st.Done? {
          return;
        }
      }
    }

    /** Stages one more value of the plan. */
    method StageNext(staged: seq<StagedFile>, target: Target, content: Bytes, expectedExisted: bool)
      returns (st: Status, all: seq<StagedFile>)
      requires disk.alive && Staged(staged)
      requires |staged| < |plan.values|
      requires forall i, j | 0 <= i < j < |plan.values| :: plan.values[i].0 != plan.values[j].0
      requires plan.values[|staged|] == (target, content)
      requires target.Secret? ==> target.index < SECRET_COUNT
      requires expectedExisted <==> Destination(target) in disk.fs.files
      requires forall i | 0 <= i < |staged| :: ItemShape(staged[i])
      modifies disk
      ensures disk.alive <==> !st.Crashed?
      ensures disk.faults >= old(disk.faults)
      ensures st.Done? ==> disk.faults == old(disk.faults)
      ensures disk.alive && disk.faults == old(disk.faults) + 1 ==> st.OsError? && Staged(all)
      ensures old(disk.CutIn()) == Some(0) ==> disk.CutOff(old(disk.ahead), st) && Littered(disk.fs)
      ensures Drafting()
      ensures forall i | 0 <= i < |all| :: ItemShape(all[i])
      ensures st.Done? ==> Staged(all) && |all| == |staged| + 1
      ensures disk.faults == old(disk.faults) ==> st.Done?
    {
      all := staged;
      var item;
      if expectedExisted {
        forall i | 0 <= i < |staged| ensures staged[i].destination != Destination(target) {
          assert MatchesAt(plan, disk.fs, staged, i);
        }
        UnstagedDestinationHasOneLink(plan, disk.fs, staged, Destination(target));
      }
      st, item := StageFile(Destination(target), content, expectedExisted, staged);
      if st.Done? {
        all := staged + [item];
        assert Tracks(disk.fs, all[|staged|]);
      }
    }

    // ---- Committing ---------------------------------------------------------

    ghost predicate Committing(items: seq<StagedFile>, done: int)
      requires 0 <= done <= |items|
      reads this, disk
    {
      && Base(plan, disk.fs) && Open(plan, disk.fs, items) && !disk.published
      && Run(CommittedTemp) !in disk.fs.files
      && (forall j | 0 <= j < done :: IsStagedAt(disk.fs, items[j]))
      && (forall j | done <= j < |items| :: Pending(plan, disk.fs, items[j]))
    }

    /** `_commit` on item `k`; when it stops half-way the later items are still pending. */
    method Commit(item: StagedFile, ghost items: seq<StagedFile>, ghost k: nat) returns (st: Status)
      requires disk.alive
      requires k < |items| && items[k] == item && Committing(items, k)
      modifies disk
      ensures disk.alive <==> !st.Crashed?
      ensures disk.faults >= old(disk.faults)
      ensures st.Done? ==> disk.faults == old(disk.faults)
      ensures Base(plan, disk.fs) && Open(plan, disk.fs, items) && !disk.published
      ensures forall j | k < j < |items| :: Pending(plan, disk.fs, items[j])
      ensures st.Done? ==> Committing(items, k + 1)
      ensures disk.faults == old(disk.faults) ==> st.Done?
    {
      InstallKeepsOpen(plan, disk.fs, items, k);
      assert Tracks(disk.fs, item);
      if item.existed {
        :- disk.Attempt(disk.fs.Replace(item.temporary, item.destination));
      } else {
        :- disk.Attempt(disk.fs.Link(item.temporary, item.destination));
        :- DropTemporary(item, items, k);
      }
      st := disk.Sync();
    }

    /** After a new destination has been linked, its temporary name goes. */
    method DropTemporary(item: StagedFile, ghost items: seq<StagedFile>, ghost k: nat) returns (st: Status)
      requires disk.alive
      requires k < |items| && items[k] == item && Committing(items, k + 1) && item.temporary in disk.fs.files
      modifies disk
      ensures disk.alive <==> !st.Crashed?
      ensures disk.faults >= old(disk.faults)
      ensures st.Done? ==> disk.faults == old(disk.faults)
      ensures Committing(items, k + 1)
      ensures st.Done? || st.OsError? || st.Crashed?
      ensures disk.faults == old(disk.faults) ==> st.Done?
    {
      assert Tracks(disk.fs, item);
      forall j | k < j < |items| ensures items[j].temporary != item.temporary {
        DistinctOriginals(plan, disk.fs, items, k, j);
      }
      OpenUnlinkTemporary(plan, disk.fs, items, item.temporary);
      st := disk.Attempt(disk.fs.Unlink(item.temporary));
    }

    method MarkCommitted(staged: seq<StagedFile>) returns (st: Status)
      requires disk.alive && |staged| > 0
      requires Committing(staged, |staged|)
      modifies disk
      ensures disk.alive <==> !st.Crashed?
      ensures disk.faults >= old(disk.faults)
      ensures Base(plan, disk.fs) && Run(Manifest) in disk.fs.files && ItemsOnDisk(disk.fs) == staged
      ensures if disk.published then Sealed(plan, disk.fs, staged) else Open(plan, disk.fs, staged)
      ensures disk.alive ==> (st.Done? <==> disk.published)
      ensures disk.faults == old(disk.faults) ==> st.Done?
    {
      st := PublishMarker(staged);
      if st.Crashed? {
        return;
      }
      if disk.published {
        LoggedDirectoryIsKnown(disk.fs, true);
      }
      if !st.Done? {
        if CommittedMarkerIsValid(disk.fs) {
          return Done;
        }
        if Run(CommittedTemp) in disk.fs.files {
          OpenUnlinkTemporary(plan, disk.fs, staged, Run(CommittedTemp));
          var removed := RemoveEntry(Run(CommittedTemp), false);
          if removed.Crashed? {
            return removed;
          }
        }
        return;
      }
      var synced := disk.Sync();
      st := if synced.Crashed? then Crashed else Done;
    }

    method PublishMarker(staged: seq<StagedFile>) returns (st: Status)
      requires disk.alive
      requires Committing(staged, |staged|)
      modifies disk
      ensures disk.alive <==> !st.Crashed?
      ensures disk.faults >= old(disk.faults)
      ensures st.Done? || st.Crashed? || st.OsError?
      ensures Base(plan, disk.fs) && Run(Manifest) in disk.fs.files && ItemsOnDisk(disk.fs) == staged
      ensures if disk.published then Sealed(plan, disk.fs, staged) else Open(plan, disk.fs, staged)
      ensures st.Done? ==> disk.published
      ensures disk.faults == old(disk.faults) ==> st.Done?
    {
      var temporary, marker := Run(CommittedTemp), Run(SetupDisk.Committed);
      var digest := Digest(disk.fs.Read(Run(Manifest)));
      OpenCreate(plan, disk.fs, staged);
      :- disk.Attempt(disk.fs.Create(temporary));
      :- disk.Sync();
      OpenFill(plan, disk.fs, staged, digest);
      :- disk.Attempt(disk.fs.Fill(temporary, digest));
      :- disk.Sync();
      :- disk.Sync();
      PublishCommitted(plan, disk.fs, staged);
      st := disk.Attempt(disk.fs.Replace(temporary, marker));
    }

    /** The in-process undo of a failed save. */
    method RollbackAndRaise(attempted: nat, staged: seq<StagedFile>) returns (st: Status)
      requires disk.alive && attempted <= |staged|
      requires Base(plan, disk.fs) && Open(plan, disk.fs, staged) && !disk.published
      requires forall j | attempted <= j < |staged| :: Pending(plan, disk.fs, staged[j])
      modifies disk
      ensures disk.alive <==> !st.Crashed?
      ensures disk.faults >= old(disk.faults)
      // Undisturbed, it restores every destination and leaves nothing behind.
      ensures disk.faults == old(disk.faults) ==>
                st == SetupFailed(WriteFailed) && Untouched(plan, disk.fs) && !disk.fs.runDir
      ensures st == SetupFailed(RollbackFailed) ==> disk.faults > old(disk.faults)
      ensures st.Crashed? || st == SetupFailed(RollbackFailed) || st == SetupFailed(WriteFailed)
      ensures Valid() && !disk.published
      ensures st == SetupFailed(WriteFailed) ==> Untouched(plan, disk.fs)
    {
      DescribedItemsAreValid(plan, disk.fs, staged);
      if !TransactionItemsAreValid(disk.fs, staged) {
        return SetupFailed(RollbackFailed);
      }
      assert forall i | 0 <= i < |staged| :: Tracks(disk.fs, staged[i]);
      assert RollbackReady(staged[..attempted]) by {
        assert staged[..attempted] <= staged;
        forall j | attempted <= j < |staged| ensures Restored(plan, disk.fs, staged[j]) {
          assert Pending(plan, disk.fs, staged[j]);
        }
      }
      st := Rollback(staged[..attempted]);
      if !st.Done? {
        return;
      }
      var cleaned := Cleanup(staged, false);
      st := if cleaned.Crashed? then Crashed else SetupFailed(WriteFailed);
    }

    predicate MayBeWritten(target: Target)
      reads this, disk
    {
      && target.Secret? && target.index < SECRET_COUNT
      && (Destination(target) in disk.fs.files ==>
            replaceExisting && disk.fs.LinkCount(disk.fs.files[Destination(target)]) == 1)
    }

    /** Passes exactly when every target may be written and `.env` has no second name. */
    method ValidateDestinations(secrets: seq<(Target, Bytes)>) returns (st: Status)
      requires disk.alive
      ensures st.Done? || st == SetupFailed(FilesystemUnsafe) || st == SetupFailed(ExistingSecret)
      ensures st.Done? <==>
                && (forall i | 0 <= i < |secrets| :: MayBeWritten(secrets[i].0))
                && (Destination(Env) in disk.fs.files ==> disk.fs.LinkCount(disk.fs.files[Destination(Env)]) == 1)
    {
      for i := 0 to |secrets|
        invariant forall j | 0 <= j < i :: MayBeWritten(secrets[j].0)
      {
        var target := secrets[i].0;
        var path := Destination(target);
        if !target.Secret? || target.index >= SECRET_COUNT {
          return SetupFailed(FilesystemUnsafe);
        }
        if path in disk.fs.files && disk.fs.LinkCount(disk.fs.files[path]) != 1 {
          return SetupFailed(FilesystemUnsafe);
        }
        if path in disk.fs.files && !replaceExisting {
          return SetupFailed(ExistingSecret);
        }
      }
      var env := Destination(Env);
      if env in disk.fs.files && disk.fs.LinkCount(disk.fs.files[env]) != 1 {
        return SetupFailed(FilesystemUnsafe);
      }
      st := Done;
    }

    /** Only fixed secret files, and only new ones unless they may be replaced. */
    ghost predicate Permitted(secrets: seq<(Target, Bytes)>, fs: Fs) {
      && (forall i | 0 <= i < |secrets| :: secrets[i].0.Secret? && secrets[i].0.index < SECRET_COUNT)
      && (replaceExisting || forall i | 0 <= i < |secrets| :: Destination(secrets[i].0) !in fs.files)
    }

    /** Once recovery has succeeded, link counts never stop a save. */
    lemma LinkCountsPass(secrets: seq<(Target, Bytes)>)
      requires Valid() && !disk.fs.runDir
      requires Permitted(secrets, disk.fs)
      ensures forall i | 0 <= i < |secrets| :: MayBeWritten(secrets[i].0)
      ensures Destination(Env) in disk.fs.files ==> disk.fs.LinkCount(disk.fs.files[Destination(Env)]) == 1
    {
      forall i | 0 <= i < |secrets| ensures MayBeWritten(secrets[i].0) {
        if Destination(secrets[i].0) in disk.fs.files {
          SettledDestinationsHaveOneLink(disk.fs, Destination(secrets[i].0));
        }
      }
      if Destination(Env) in disk.fs.files {
        SettledDestinationsHaveOneLink(disk.fs, Destination(Env));
      }
    }

    /**
     One save. `began` tells whether it got past recovery and validation, and so
     whether `plan` is the new transaction or still the previous one.
     */
    method Save(secrets: seq<(Target, Bytes)>, envBytes: Bytes) returns (st: Status, ghost began: bool)
      requires disk.alive && Valid()
      requires forall i | 0 <= i < |secrets| :: secrets[i].0.Secret?
      requires forall i, j | 0 <= i < j < |secrets| :: secrets[i].0 != secrets[j].0
      modifies this`plan, disk
      ensures disk.alive <==> !st.Crashed?
      ensures disk.faults >= old(disk.faults)
      // One error, before COMMITTED is visible: no destination has changed, and nothing is left in the run
      // directory, which itself is gone if PREPARING had become visible.
      ensures began && disk.alive && disk.faults == old(disk.faults) + 1 && !disk.published ==>
                && Untouched(plan, disk.fs) && NoRunEntries(disk.fs)
                && (st.OsError? || st == SetupFailed(WriteFailed))
      ensures began && disk.alive && disk.faults == old(disk.faults) + 1 && !disk.published
              && old(!disk.fs.runDir && TakesEffect(disk.ahead, 6)) ==>
                st == SetupFailed(WriteFailed) && !disk.fs.runDir
      ensures began && st == SetupFailed(RollbackFailed) ==> disk.faults > old(disk.faults) + 1
      // Cut off at two early moments, it leaves a lone PREPARING.tmp, or PREPARING with an artifact.
      ensures old(!disk.fs.runDir && disk.CutIn() == Some(2)) && Permitted(secrets, old(disk.fs)) ==>
                && disk.CutOff(old(disk.ahead), st)
                && disk.fs == old(disk.fs).(runDir := true).Create(Run(PreparingTemp))
      ensures old(!disk.fs.runDir && disk.CutIn() == Some(9)) && Permitted(secrets, old(disk.fs)) ==>
                disk.CutOff(old(disk.ahead), st) && Littered(disk.fs)
      ensures Valid()
      ensures !began ==> plan == old(plan) && disk.published == old(disk.published) && !st.Done?
      ensures began ==> plan.values == secrets + [(Env, envBytes)]
      // Reporting success and having published COMMITTED are the same thing.
      ensures began && disk.alive ==> (st.Done? <==> disk.published)
      ensures st.Done? ==> Installed(plan, disk.fs)
      ensures began && st == SetupFailed(WriteFailed) ==> Untouched(plan, disk.fs)
      // Without faults a save that may replace the secrets succeeds and leaves nothing behind.
      ensures disk.faults == old(disk.faults) && old(!disk.fs.runDir) && Permitted(secrets, old(disk.fs)) ==>
                st.Done? && !disk.fs.runDir
    {
      began := false;
      st := RecoverStaging();
      if !st.Done? {
        return;
      }
      if Permitted(secrets, disk.fs) {
        LinkCountsPass(secrets);
      }
      st := ValidateDestinations(secrets);
      if !st.Done? {
        return;
      }
      began := true;
      st := Transact(secrets, envBytes);
    }

    /** The transaction proper: stage everything, commit, clean up. */
    method Transact(secrets: seq<(Target, Bytes)>, envBytes: Bytes) returns (st: Status)
      requires disk.alive && Valid() && !disk.fs.runDir
      requires forall i | 0 <= i < |secrets| :: secrets[i].0.Secret? && secrets[i].0.index < SECRET_COUNT
      requires forall i, j | 0 <= i < j < |secrets| :: secrets[i].0 != secrets[j].0
      modifies this`plan, disk
      ensures disk.alive <==> !st.Crashed?
      ensures disk.faults >= old(disk.faults)
      // One error, before COMMITTED is visible: no destination has changed, and nothing is left in the run
      // directory, which itself is gone if PREPARING had become visible.
      ensures disk.alive && disk.faults == old(disk.faults) + 1 && !disk.published ==>
                && Untouched(plan, disk.fs)
                && if TakesEffect(old(disk.ahead), 6) then st == SetupFailed(WriteFailed) && !disk.fs.runDir
                   else NoRunEntries(disk.fs) && (st.OsError? || st == SetupFailed(WriteFailed))
      ensures st == SetupFailed(RollbackFailed) ==> disk.faults > old(disk.faults) + 1
      ensures old(disk.CutIn()) == Some(2) ==>
                && disk.CutOff(old(disk.ahead), st)
                && disk.fs == old(disk.fs).(runDir := true).Create(Run(PreparingTemp))
      ensures old(disk.CutIn()) == Some(9) ==> disk.CutOff(old(disk.ahead), st) && Littered(disk.fs)
      ensures Valid() && plan.values == secrets + [(Env, envBytes)]
      ensures disk.alive ==> (st.Done? <==> disk.published)
      ensures st.Done? ==> Installed(plan, disk.fs)
      ensures st == SetupFailed(WriteFailed) ==> Untouched(plan, disk.fs)
      ensures disk.faults == old(disk.faults) ==> st.Done? && !disk.fs.runDir
    {
      var envWasMissing := Destination(Env) !in disk.fs.files;
      plan := Plan(disk.fs, secrets + [(Env, envBytes)]);
      disk.Begin();
      FreshPlan(disk.fs, plan.values);
      var staged: seq<StagedFile>;
      st, staged := StageAll(secrets, envBytes, envWasMissing);
      if !st.Done? {
        return;
      }
      st := CommitAndFinish(staged);
    }

    /** The part of `save` after staging. */
    method CommitAndFinish(staged: seq<StagedFile>) returns (st: Status)
      requires disk.alive && Valid() && !disk.published
      requires Run(Manifest) in disk.fs.files && ItemsOnDisk(disk.fs) == staged
      requires Committing(staged, 0)
      modifies disk
      ensures disk.alive <==> !st.Crashed?
      ensures disk.faults >= old(disk.faults)
      // One error, before COMMITTED is visible: every destination is restored and nothing is left.
      ensures disk.alive && disk.faults == old(disk.faults) + 1 && !disk.published ==>
                st == SetupFailed(WriteFailed) && Untouched(plan, disk.fs) && !disk.fs.runDir
      ensures st == SetupFailed(RollbackFailed) ==> disk.faults > old(disk.faults) + 1
      ensures Valid()
      ensures disk.alive ==> (st.Done? <==> disk.published)
      ensures st.Done? ==> Installed(plan, disk.fs)
      ensures st == SetupFailed(WriteFailed) ==> Untouched(plan, disk.fs)
      ensures disk.faults == old(disk.faults) ==> st.Done? && !disk.fs.runDir
    {
      var i := 0;
      while i < |staged|
        invariant 0 <= i <= |staged|
        invariant disk.alive && disk.faults == old(disk.faults)
        invariant Committing(staged, i)
      {
        st := Commit(staged[i], staged, i);
        if st.Crashed? {
          return;
        }
        if !st.Done? {
          st := RollbackAndRaise(i + 1, staged);
          return;
        }
        i := i + 1;
      }
      st := disk.Sync();
      if st.Crashed? {
        return;
      }
      if !st.Done? {
        st := RollbackAndRaise(|staged|, staged);
        return;
      }
      st := MarkCommitted(staged);
      if st.Crashed? {
        return;
      }
      if !st.Done? && !CommittedMarkerIsValid(disk.fs) {
        st := RollbackAndRaise(|staged|, staged);
        return;
      }
      SealedIsInstalled(plan, disk.fs, staged);
      st := Cleanup(staged, true);
      if !st.Crashed? {
        st := Done;
      }
    }

    // ---- Whole runs ----------------------------------------------------------

    /**
     A save that may be cut off anywhere, followed by any number of restarts,
     each of which may be cut off anywhere as well. As soon as one recovery
     reports success, every destination has its new content or every destination
     is untouched, and it is the former exactly when COMMITTED became visible.
     */
    method SaveThenRestart(secrets: seq<(Target, Bytes)>, envBytes: Bytes, restarts: nat)
      returns (recovered: bool, ghost began: bool)
      requires disk.alive && Valid()
      requires forall i | 0 <= i < |secrets| :: secrets[i].0.Secret?
      requires forall i, j | 0 <= i < j < |secrets| :: secrets[i].0 != secrets[j].0
      modifies this`plan, disk
      ensures Valid()
      ensures began ==> plan.values == secrets + [(Env, envBytes)]
      ensures recovered ==> !disk.fs.runDir
      ensures recovered && disk.published ==> Installed(plan, disk.fs)
      ensures recovered && !disk.published ==> Untouched(plan, disk.fs)
      ensures recovered ==> forall p | p in disk.fs.files :: disk.fs.LinkCount(disk.fs.files[p]) == 1
    {
      var st;
      st, began := Save(secrets, envBytes);
      recovered := false;
      for restart := 0 to restarts
        invariant Valid()
        invariant began ==> plan.values == secrets + [(Env, envBytes)]
        invariant recovered ==> !disk.fs.runDir
      {
        disk.Reboot();
        st := RecoverStaging();
        recovered := st.Done?;
      }
      if recovered {
        forall p | p in disk.fs.files ensures disk.fs.LinkCount(disk.fs.files[p]) == 1 {
          SettledDestinationsHaveOneLink(disk.fs, p);
        }
      }
    }

    /**
     A save that is cut off right after it has created PREPARING.tmp strands the
     wizard: every later start is refused, and nothing ever changes on disk.
     */
    method SaveCutOffBeforePreparing(secrets: seq<(Target, Bytes)>, envBytes: Bytes, restarts: nat)
      requires disk.alive && Valid() && !disk.fs.runDir && Permitted(secrets, disk.fs)
      requires forall i, j | 0 <= i < j < |secrets| :: secrets[i].0 != secrets[j].0
      requires disk.CutIn() == Some(2)
      modifies this`plan, disk
      ensures Valid() && !Recoverable(disk.fs)
      ensures disk.fs == old(disk.fs).(runDir := true).Create(Run(PreparingTemp))
    {
      var st;
      ghost var began;
      st, began := Save(secrets, envBytes);
      assert Run(PreparingTemp) in disk.fs.files;
      StayStranded(restarts);
    }

    /**
     So does a save that is cut off after PREPARING and its first artifact, when the
     recovery is cut off as well, right after it has removed PREPARING first.
     */
    method RecoveryCutOffAfterPreparing(secrets: seq<(Target, Bytes)>, envBytes: Bytes, restarts: nat)
      requires disk.alive && Valid() && !disk.fs.runDir && Permitted(secrets, disk.fs)
      requires forall i, j | 0 <= i < j < |secrets| :: secrets[i].0 != secrets[j].0
      requires disk.CutIn() == Some(9) && |disk.ahead| > 1 && disk.ahead[1] == Fault(0, true, true)
      requires disk.listedFirst == Preparing
      modifies this`plan, disk
      ensures Valid() && !Recoverable(disk.fs) && Run(Preparing) !in disk.fs.files
    {
      var st;
      ghost var began;
      st, began := Save(secrets, envBytes);
      disk.Reboot();
      ghost var littered := disk.fs;
      st := RecoverStaging();
      ghost var artifact :| artifact in littered.files && IsArtifact(artifact);
      assert artifact in disk.fs.files;
      StayStranded(restarts);
    }

    /** Any number of restarts, all of them refused. */
    method StayStranded(restarts: nat)
      requires Valid() && !Recoverable(disk.fs)
      modifies disk
      ensures Valid() && disk.fs == old(disk.fs)
    {
      for restart := 0 to restarts
        invariant Valid() && disk.fs == old(disk.fs)
      {
        disk.Reboot();
        var st := RecoverStaging();
        assert st == SetupFailed(RollbackFailed);
      }
    }
  }

  /** At no moment does a destination hold anything but its old inode or its whole new content. */
  lemma DestinationsAreNeverTorn(plan: Plan, fs: Fs, published: bool, p: Path)
    requires CrashInvariant(plan, fs, published) && p.Destination?
    ensures
      || SameAt(plan, fs, p)
      || exists i | 0 <= i < |plan.values| ::
           p == Destination(plan.values[i].0) && p in fs.files && fs.Read(p) == Text(plan.values[i].1)
  {
    if Planned(plan, p) {
      var i :| 0 <= i < |plan.values| && p == Destination(plan.values[i].0);
      if Run(Manifest) !in fs.files {
        assert Draft(plan, fs, published);
      } else {
        var items := ItemsOnDisk(fs);
        assert Logged(plan, fs, items);
        assert MatchesAt(plan, fs, items, i) && Tracks(fs, items[i]);
      }
    }
  }

  /** A run directory holding only PREPARING.tmp is a state recovery cannot repair. */
  lemma LonePreparingTempIsNotRecoverable(before: Fs, values: seq<(Target, Bytes)>)
    requires WellFormed(before) && !before.runDir
    ensures
      var stuck := before.(runDir := true).Create(Run(PreparingTemp));
      CrashInvariant(Plan(before, values), stuck, false) && !Recoverable(stuck)
  {
    var plan := Plan(before, values);
    FreshPlan(before, values);
    MakeRunDirectory(plan, before);
    DraftCreate(plan, before.(runDir := true), Run(PreparingTemp));
    assert Run(PreparingTemp) in before.(runDir := true).Create(Run(PreparingTemp)).files;
  }
}
