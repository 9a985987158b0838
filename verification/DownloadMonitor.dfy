/** The monitor walks over all download jobs in batches, behind a keyset cursor. */
module DownloadMonitors {
  import opened Common

  /** What jobs are ordered by: time of creation, then identifier. */
  datatype Job = Job(createdAt: int, id: string) {
    predicate After(other: Job) {
      createdAt > other.createdAt || (createdAt == other.createdAt && StringLess(other.id, id))
    }
  }

  ghost predicate IsTable(jobs: seq<Job>) {
    forall i, j | 0 <= i < j < |jobs| :: jobs[j].After(jobs[i])
  }

  predicate Selected(job: Job, cursor: Option<Job>) {
    cursor.None? || job.After(cursor.value)
  }

  /** The position of the first job behind the cursor. */
  function Position(jobs: seq<Job>, cursor: Option<Job>): (n: nat)
    ensures n <= |jobs|
    ensures forall i | 0 <= i < n :: !Selected(jobs[i], cursor)
    ensures n < |jobs| ==> Selected(jobs[n], cursor)
  {
    if jobs == [] || Selected(jobs[0], cursor) then 0 else 1 + Position(jobs[1..], cursor)
  }

  lemma AfterIsTransitive(a: Job, b: Job, c: Job)
    requires b.After(a) && c.After(b)
    ensures c.After(a)
  {
    if StringLess(a.id, b.id) && StringLess(b.id, c.id) {
      StringLessIsTransitive(a.id, b.id, c.id);
    }
  }

  /** In the table, everything from that position on is behind the cursor. */
  lemma RestIsSelected(jobs: seq<Job>, cursor: Option<Job>)
    requires IsTable(jobs)
    ensures forall i | Position(jobs, cursor) <= i < |jobs| :: Selected(jobs[i], cursor)
  {
    var n := Position(jobs, cursor);
    forall i | n <= i < |jobs| ensures Selected(jobs[i], cursor) {
      if cursor.Some? && i > n {
        AfterIsTransitive(cursor.value, jobs[n], jobs[i]);
      }
    }
  }

  /** With the cursor on a job, the next position follows that job. */
  lemma PositionOfJob(jobs: seq<Job>, k: nat)
    requires IsTable(jobs) && k < |jobs|
    ensures Position(jobs, Some(jobs[k])) == k + 1
  {
    var n := Position(jobs, Some(jobs[k]));
    if n < k {
      AfterIsTransitive(jobs[k], jobs[n], jobs[k]);
    }
    StringsAreOrdered(jobs[k].id, jobs[k].id);
  }

  // ---- Runs as intervals of positions -------------------------------------------------

  function Min(a: int, b: int): int {
    if a < b then a else b
  }

  /** Where a run starts: at the cursor, or at the beginning when nothing is left. */
  function From(position: nat, n: nat): nat
    requires position <= n
  {
    if position == n then 0 else position
  }

  function To(position: nat, n: nat, batch: nat): (r: nat)
    requires position <= n
    ensures r <= n
  {
    Min(From(position, n) + batch, n)
  }

  /** Where the cursor stands after some runs. */
  function PositionAfter(position: nat, n: nat, batch: nat, runs: nat): (r: nat)
    requires position <= n
    ensures r <= n
    decreases runs
  {
    if runs == 0 then position else PositionAfter(To(position, n, batch), n, batch, runs - 1)
  }

  /** Job k is observed by one of the next runs. */
  predicate Observed(position: nat, n: nat, batch: nat, runs: nat, k: nat)
    requires position <= n
    decreases runs
  {
    runs > 0
    && (From(position, n) <= k < To(position, n, batch)
        || Observed(To(position, n, batch), n, batch, runs - 1, k))
  }

  function Ceil(a: nat, b: nat): nat
    requires b > 0
  {
    (a + b - 1) / b
  }

  /** One batch less. */
  lemma CeilStep(a: nat, b: nat)
    requires b > 0
    ensures a > b ==> Ceil(a, b) == Ceil(a - b, b) + 1
    ensures 0 < a <= b ==> Ceil(a, b) == 1
    ensures a == 0 ==> Ceil(a, b) == 0
  {
    if a > b {
      assert a + b - 1 == (a - 1) + b;
      DivideStep(a - 1, b);
    } else if a > 0 {
      DivideStep(a - 1, b);
    }
  }

  lemma DivideStep(x: nat, b: nat)
    requires b > 0
    ensures (x + b) / b == x / b + 1
    ensures x < b ==> x / b == 0
  {
    var q := x / b;
    assert q * b <= x < q * b + b;
    assert (q + 1) * b == q * b + b;
    var p := (x + b) / b;
    assert p * b <= x + b < p * b + b;
    if p > q + 1 {
      Multiply(q + 2, p, b);
    } else if p < q + 1 {
      Multiply(p + 1, q + 1, b);
    }
    if x < b && q > 0 {
      Multiply(1, q, b);
    }
  }

  lemma Multiply(x: int, y: int, b: int)
    requires x <= y && b > 0
    ensures x * b <= y * b
  {
    assert y * b - x * b == (y - x) * b;
  }

  /** Splitting a range costs at most one more batch. */
  lemma {:induction false} CeilSplits(x: nat, y: nat, b: nat)
    requires b > 0
    ensures Ceil(x, b) + Ceil(y, b) <= Ceil(x + y, b) + 1
    decreases x
  {
    CeilStep(x, b);
    CeilStep(x + y, b);
    if x > b {
      CeilSplits(x - b, y, b);
      assert x + y - b == x - b + y;
    } else if x > 0 && y > 0 {
      if x + y > b {
        CeilGrows(y, x + y, b);
      } else {
        CeilStep(y, b);
      }
    }
  }

  lemma CeilGrows(x: nat, y: nat, b: nat)
    requires b > 0 && x <= y
    ensures Ceil(x, b) <= Ceil(y, b)
  {
    var p, q := (x + b - 1) / b, (y + b - 1) / b;
    assert p * b <= x + b - 1;
    assert y + b - 1 < q * b + b;
    if p > q {
      Multiply(q + 1, p, b);
    }
  }

  /** A job ahead of the cursor is reached by going on. */
  lemma {:induction false} AheadIsObserved(position: nat, n: nat, batch: nat, runs: nat, k: nat)
    requires batch > 0 && position <= k < n
    requires runs >= Ceil(k + 1 - position, batch)
    ensures Observed(position, n, batch, runs, k)
    decreases runs
  {
    CeilStep(k + 1 - position, batch);
    if k >= To(position, n, batch) {
      AheadIsObserved(To(position, n, batch), n, batch, runs - 1, k);
    }
  }

  /** A job behind the cursor is reached by going to the end and starting over. */
  lemma {:induction false} BehindIsObserved(position: nat, n: nat, batch: nat, runs: nat, k: nat)
    requires batch > 0 && k < position <= n
    requires runs >= Ceil(n - position, batch) + Ceil(k + 1, batch)
    ensures Observed(position, n, batch, runs, k)
    decreases runs
  {
    CeilStep(n - position, batch);
    CeilStep(k + 1, batch);
    if position == n {
      if k >= To(position, n, batch) {
        AheadIsObserved(To(position, n, batch), n, batch, runs - 1, k);
      }
    } else {
      BehindIsObserved(To(position, n, batch), n, batch, runs - 1, k);
    }
  }

  /**
   Wherever the cursor stands, ceil(n / batch) + 1 runs observe every job.
   */
  lemma EveryJobIsObserved(position: nat, n: nat, batch: nat, k: nat)
    requires batch > 0 && position <= n && k < n
    ensures Observed(position, n, batch, Ceil(n, batch) + 1, k)
  {
    if position <= k {
      CeilGrows(k + 1 - position, n, batch);
      AheadIsObserved(position, n, batch, Ceil(n, batch) + 1, k);
    } else {
      CeilGrows(k + 1, position, batch);
      CeilSplits(n - position, position, batch);
      BehindIsObserved(position, n, batch, Ceil(n, batch) + 1, k);
    }
  }

  /** Until the cursor wraps, no run comes back to a job that was observed before. */
  lemma {:induction false} NotTwiceBetweenWraps(position: nat, n: nat, batch: nat, runs: nat, k: nat)
    requires position <= n && k < position
    requires forall r | 0 <= r < runs :: PositionAfter(position, n, batch, r) < n
    ensures !Observed(position, n, batch, runs, k)
    decreases runs
  {
    if runs > 0 {
      assert PositionAfter(position, n, batch, 0) < n;
      var next := To(position, n, batch);
      forall r | 0 <= r < runs - 1 ensures PositionAfter(next, n, batch, r) < n {
        assert PositionAfter(position, n, batch, r + 1) < n;
      }
      NotTwiceBetweenWraps(next, n, batch, runs - 1, k);
    }
  }

  /** Every job is observed wherever the cursor stands at first. */
  ghost predicate RunsSuffice(n: nat, batch: nat, runs: nat) {
    forall position, k | 0 <= position <= n && 0 <= k < n :: Observed(position, n, batch, runs, k)
  }

  /** Where one batch is left over a single job, splitting a range costs nothing. */
  lemma {:induction false} CeilSplitsEvenly(x: nat, y: nat, b: nat)
    requires b > 0 && y > 0 && (x + y - 1) % b == 0
    ensures Ceil(x, b) + Ceil(y, b) <= Ceil(x + y, b)
    decreases x
  {
    CeilStep(x, b);
    CeilStep(x + y, b);
    if x > b {
      RemainderStep(x - b + y - 1, b);
      CeilSplitsEvenly(x - b, y, b);
      assert x + y - b == x - b + y;
    } else if x > 0 {
      CeilOfOneMore(x + y - 1, b);
      CeilGrows(y, x + y - 1, b);
    }
  }

  lemma RemainderStep(x: nat, b: nat)
    requires b > 0
    ensures (x + b) % b == x % b
  {
    DivideStep(x, b);
    assert (x / b + 1) * b == x / b * b + b;
  }

  lemma CeilOfOneMore(x: nat, b: nat)
    requires b > 0 && x % b == 0
    ensures Ceil(x + 1, b) == Ceil(x, b) + 1
  {
    var q := x / b;
    assert (q - 1) * b == q * b - b;
    CeilIs(x, b, q);
    CeilIs(x + 1, b, q + 1);
  }

  lemma CeilOfMore(x: nat, b: nat)
    requires b > 0 && x % b != 0
    ensures Ceil(x + 1, b) == Ceil(x, b)
  {
    var q := x / b;
    assert (q + 1) * b == q * b + b;
    CeilIs(x, b, q + 1);
    CeilIs(x + 1, b, q + 1);
  }

  lemma CeilIs(x: nat, b: nat, c: nat)
    requires b > 0 && (c - 1) * b < x <= c * b
    ensures Ceil(x, b) == c
  {
    assert (c - 1) * b == c * b - b;
    QuotientIs(x + b - 1, b, c);
  }

  lemma QuotientIs(x: nat, b: nat, q: nat)
    requires b > 0 && q * b <= x < q * b + b
    ensures x / b == q
  {
    var p := x / b;
    var rest := x - q * b;
    assert p * b <= x < p * b + b;
    if p > q {
      Multiply(q + 1, p, b);
    } else if p < q {
      Multiply(p + 1, q, b);
    }
  }

  /** Until the end is reached, every run moves the cursor one batch on. */
  lemma {:induction false} StillUnderway(position: nat, n: nat, batch: nat, runs: nat)
    requires batch > 0 && position < n && runs < Ceil(n - position, batch)
    ensures PositionAfter(position, n, batch, runs) < n
    decreases runs
  {
    CeilStep(n - position, batch);
    if runs > 0 {
      StillUnderway(To(position, n, batch), n, batch, runs - 1);
    }
  }

  /**
   One run fewer is enough, wherever the cursor stands, exactly when the last batch
   of a pass over all the jobs is a single job, or there is no job at all.
   */
  lemma OneRunFewerSuffices(n: nat, batch: nat)
    requires batch > 0
    ensures RunsSuffice(n, batch, Ceil(n, batch)) <==> n == 0 || (n - 1) % batch == 0
  {
    if n > 0 && (n - 1) % batch == 0 {
      forall position: nat, k: nat | position <= n && k < n
        ensures Observed(position, n, batch, Ceil(n, batch), k)
      {
        EvenPassObserves(position, n, batch, k);
      }
    } else if n > 0 {
      UnevenPassMisses(n, batch);
    }
  }

  lemma EvenPassObserves(position: nat, n: nat, batch: nat, k: nat)
    requires batch > 0 && position <= n && k < n && (n - 1) % batch == 0
    ensures Observed(position, n, batch, Ceil(n, batch), k)
  {
    if position <= k {
      CeilGrows(k + 1 - position, n, batch);
      AheadIsObserved(position, n, batch, Ceil(n, batch), k);
    } else {
      CeilGrows(k + 1, position, batch);
      CeilSplitsEvenly(n - position, position, batch);
      BehindIsObserved(position, n, batch, Ceil(n, batch), k);
    }
  }

  /** With the cursor on the first job, a pass that is one run too short misses that job. */
  lemma UnevenPassMisses(n: nat, batch: nat)
    requires batch > 0 && n > 0 && (n - 1) % batch != 0
    ensures n > 1 && !Observed(1, n, batch, Ceil(n, batch), 0)
  {
    CeilOfMore(n - 1, batch);
    forall r | 0 <= r < Ceil(n, batch) ensures PositionAfter(1, n, batch, r) < n {
      StillUnderway(1, n, batch, r);
    }
    NotTwiceBetweenWraps(1, n, batch, Ceil(n, batch), 0);
  }

  // ---- The monitor -----------------------------------------------------------------------

  class DownloadMonitor {
    const batch: nat
    var cursor: Option<Job>

    constructor (batch: nat)
      requires batch > 0
      ensures this.batch == batch && cursor.None?
    {
      this.batch, cursor := batch, None;
    }

    /** The first jobs behind the cursor, in order. */
    method NextJobs(jobs: seq<Job>) returns (next: seq<Job>)
      requires IsTable(jobs)
      ensures next == jobs[Position(jobs, cursor)..Min(Position(jobs, cursor) + batch, |jobs|)]
      ensures forall job | job in next :: Selected(job, cursor)
    {
      RestIsSelected(jobs, cursor);
      var from := Position(jobs, cursor);
      next := jobs[from..Min(from + batch, |jobs|)];
    }

    /** One successful run: the jobs it observes, and where it leaves the cursor. */
    method RunOnce(jobs: seq<Job>) returns (observed: seq<Job>)
      requires IsTable(jobs) && batch > 0
      modifies this
      ensures
        var position := old(Position(jobs, cursor));
        && observed == jobs[From(position, |jobs|)..To(position, |jobs|, batch)]
        && Position(jobs, cursor) == To(position, |jobs|, batch)
      ensures jobs != [] ==> observed != []
    {
      observed := NextJobs(jobs);
      if observed == [] {
        cursor := None;
        NothingIsBeforeTheStart(jobs);
        observed := NextJobs(jobs);
      }
      if observed == [] {
        return;
      }
      var last := observed[|observed| - 1];
      assert last == jobs[To(old(Position(jobs, cursor)), |jobs|, batch) - 1];
      PositionOfJob(jobs, To(old(Position(jobs, cursor)), |jobs|, batch) - 1);
      cursor := Some(last);
    }

    lemma NothingIsBeforeTheStart(jobs: seq<Job>)
      ensures Position(jobs, None) == 0
    {
    }

    lemma SliceHolds(jobs: seq<Job>, from: nat, to: nat)
      requires from <= to <= |jobs|
      ensures forall k | from <= k < to :: jobs[k] in jobs[from..to]
    {
      forall k | from <= k < to ensures jobs[k] in jobs[from..to] {
        assert jobs[from..to][k - from] == jobs[k];
      }
    }

    /** Over a fixed set of jobs, ceil(n / batch) + 1 consecutive successful runs observe all of them. */
    method RunUntilAllObserved(jobs: seq<Job>) returns (observed: set<Job>, runs: nat)
      requires IsTable(jobs) && batch > 0
      modifies this
      ensures runs == Ceil(|jobs|, batch) + 1
      ensures forall job :: job in observed <==> job in jobs
    {
      observed, runs := {}, 0;
      ghost var start := Position(jobs, cursor);
      while runs < Ceil(|jobs|, batch) + 1
        invariant runs <= Ceil(|jobs|, batch) + 1
        invariant forall job | job in observed :: job in jobs
        invariant forall k | 0 <= k < |jobs| ::
                    Observed(start, |jobs|, batch, Ceil(|jobs|, batch) + 1, k) ==>
                      jobs[k] in observed
                      || Observed(Position(jobs, cursor), |jobs|, batch, Ceil(|jobs|, batch) + 1 - runs, k)
      {
        ghost var position := Position(jobs, cursor);
        var now := RunOnce(jobs);
        SliceHolds(jobs, From(position, |jobs|), To(position, |jobs|, batch));
        observed := observed + set job | job in now;
        runs := runs + 1;
      }
      forall k | 0 <= k < |jobs| ensures jobs[k] in observed {
        EveryJobIsObserved(start, |jobs|, batch, k);
      }
    }
  }
}
