/**
 The part of the file system that the local setup wizard works on: thirteen
 destinations (twelve secret files and `.env`) and the entries of one staging
 run directory. A path names an inode, several paths may name the same inode
 (hard links), and an inode holds content.

 Every system call is one step that an adversary may interrupt: it can succeed,
 report an OSError (having taken effect or not), or be the last thing the
 process ever does.
 */
module SetupDisk {
  import opened Common

  type Inode = nat
  type Bytes = string

  datatype Target = Secret(index: nat) | Env

  datatype Name =
    | Temporary(id: nat)
    | Rollback(id: nat)
    | Manifest
    | ManifestTemp
    | Committed
    | CommittedTemp
    | Preparing
    | PreparingTemp
    | Other(id: nat)

  datatype Path = Destination(target: Target) | Run(name: Name)

  datatype StagedFile = StagedFile(
    destination: Path,
    temporary: Path,
    rollback: Option<Path>,
    existed: bool,
    originalIdentity: Option<Inode>,
    stagedIdentity: Inode)

  /** `Digest` stands for SHA-256, taken to be injective. */
  datatype Content =
    | Partial
    | Text(bytes: Bytes)
    | ManifestOf(items: seq<StagedFile>)
    | Digest(of: Content)
    | PreparingMark

  datatype Fs = Fs(files: map<Path, Inode>, content: map<Inode, Content>, next: Inode, runDir: bool) {

    /** Content reached through a path; an unreadable file reads as `Partial`. */
    function Read(p: Path): Content {
      if p in files && files[p] in content then content[files[p]] else Partial
    }

    function Links(i: Inode): set<Path> {
      set p | p in files && files[p] == i
    }

    function LinkCount(i: Inode): nat {
      |Links(i)|
    }

    function Create(p: Path): Fs {
      this.(files := files[p := next], content := content[next := Partial], next := next + 1)
    }

    function Fill(p: Path, c: Content): Fs
      requires p in files
    {
      this.(content := content[files[p] := c])
    }

    function Link(source: Path, target: Path): Fs
      requires source in files
    {
      this.(files := files[target := files[source]])
    }

    function Replace(source: Path, target: Path): Fs
      requires source in files
    {
      this.(files := files[target := files[source]] - {source})
    }

    function Unlink(p: Path): Fs {
      this.(files := files - {p})
    }
  }

  datatype Code = FilesystemUnsafe | ExistingSecret | RollbackFailed | WriteFailed

  datatype Status = Done | OsError | SetupFailed(code: Code) | Crashed {
    predicate IsFailure() {
      !Done?
    }

    function PropagateFailure(): Status
      requires IsFailure()
    {
      this
    }
  }

  /**
   One interruption: after `quiet` undisturbed steps, a step is cut off or reports
   an error, having taken effect or not.
   */
  datatype Fault = Fault(quiet: nat, cut: bool, effective: bool)

  predicate Undisturbed(ahead: seq<Fault>, steps: nat) {
    ahead == [] || ahead[0].quiet >= steps
  }

  function After(ahead: seq<Fault>, steps: nat): seq<Fault>
    requires Undisturbed(ahead, steps)
  {
    if ahead == [] then [] else [ahead[0].(quiet := ahead[0].quiet - steps)] + ahead[1..]
  }

  /** The step after so many others takes effect. */
  predicate TakesEffect(ahead: seq<Fault>, steps: nat) {
    Undisturbed(ahead, steps + 1) || (ahead[0].quiet == steps && ahead[0].effective)
  }

  class Disk {
    var fs: Fs
    /** The process is running; after a crash no primitive may be called. */
    var alive: bool
    /** What the adversary is going to do; anything at all. */
    var ahead: seq<Fault>
    /** The entry that listing the run directory shows first, if it is there. */
    const listedFirst: Name
    /** Whether COMMITTED has been visible since the transaction began. */
    ghost var published: bool
    /** Number of steps that were interrupted or reported an error. */
    ghost var faults: nat

    constructor (initial: Fs, ahead: seq<Fault>, listedFirst: Name)
      ensures fs == initial && alive && faults == 0 && !published
      ensures this.ahead == ahead && this.listedFirst == listedFirst
    {
      fs, alive, published, faults := initial, true, false, 0;
      this.ahead, this.listedFirst := ahead, listedFirst;
    }

    ghost predicate Reached(before: Fs, after: Fs, wasPublished: bool)
      reads this
    {
      fs == after && published == (wasPublished || Run(Committed) in after.files)
    }

    /** The number of undisturbed steps before the process is cut off right after a step, if that is next. */
    function CutIn(): Option<nat>
      reads this
    {
      if ahead != [] && ahead[0].cut && ahead[0].effective then Some(ahead[0].quiet) else None
    }

    /** The adversary's choice for one step. */
    method Outcome() returns (st: Status, effective: bool)
      modifies this`ahead
      ensures st.Done? || st.OsError? || st.Crashed?
      ensures st.Done? ==> effective
      ensures Spent(old(ahead), 1, st)
      ensures !st.Done? ==> ahead == old(ahead)[1..] && effective == old(ahead)[0].effective
      ensures !st.Done? ==> (st.Crashed? <==> old(ahead)[0].cut)
    {
      if ahead == [] {
        return Done, true;
      }
      var next := ahead[0];
      if next.quiet > 0 {
        ahead := ahead[0 := next.(quiet := next.quiet - 1)];
        return Done, true;
      }
      ahead := ahead[1..];
      return if next.cut then Crashed else OsError, next.effective;
    }

    /** One interruptible step from the current state to `after`. */
    method Attempt(after: Fs) returns (st: Status)
      requires alive
      modifies this
      ensures st.Done? || st.OsError? || st.Crashed?
      ensures alive <==> !st.Crashed?
      ensures st.Done? ==> faults == old(faults) && Reached(old(fs), after, old(published))
      ensures !st.Done? ==> faults == old(faults) + 1
      ensures !st.Done? ==>
                || Reached(old(fs), after, old(published))
                || (fs == old(fs) && published == old(published))
      ensures Spent(old(ahead), 1, st)
      ensures !st.Done? && old(ahead)[0].effective ==> Reached(old(fs), after, old(published))
      ensures !st.Done? && !old(ahead)[0].effective ==> fs == old(fs) && published == old(published)
      ensures old(CutIn()) == Some(0) ==> CutOff(old(ahead), st)
    {
      var effective: bool;
      st, effective := Outcome();
      if effective {
        fs := after;
        published := published || Run(Committed) in after.files;
      }
      if !st.Done? {
        faults := faults + 1;
      }
      alive := !st.Crashed?;
    }

    /** chmod or fsync: changes nothing the wizard later looks at. */
    method Sync() returns (st: Status)
      requires alive
      modifies this
      ensures st.Done? || st.OsError? || st.Crashed?
      ensures alive <==> !st.Crashed?
      ensures st.Done? <==> faults == old(faults)
      ensures faults == if st.Done? then old(faults) else old(faults) + 1
      ensures fs == old(fs) && published == old(published)
      ensures Spent(old(ahead), 1, st)
    {
      var effective: bool;
      st, effective := Outcome();
      if !st.Done? {
        faults := faults + 1;
      }
      alive := !st.Crashed?;
    }

    /** A method of this many steps: either all were undisturbed, or the next fault hit one of them. */
    ghost predicate Spent(was: seq<Fault>, steps: nat, st: Status)
      reads this
    {
      if st.Done? then Undisturbed(was, steps) && ahead == After(was, steps)
      else was != [] && was[0].quiet < steps
    }

    /** The process was cut off by the fault that was next. */
    ghost predicate CutOff(was: seq<Fault>, st: Status)
      reads this
    {
      st.Crashed? && was != [] && ahead == was[1..]
    }

    /** Lists one of the entries that are left, in the order of the directory. */
    method NextListed(left: set<Path>) returns (p: Path)
      requires left != {}
      ensures p in left
      ensures Run(listedFirst) in left ==> p == Run(listedFirst)
    {
      if Run(listedFirst) in left {
        return Run(listedFirst);
      }
      p :| p in left;
    }

    ghost method Begin()
      modifies this`published
      ensures !published
    {
      published := false;
    }

    method Reboot()
      modifies this`alive
      ensures alive
    {
      alive := true;
    }
  }
}
