/**
 The automation policy: immutable revisions in a hash chain, a head that points at
 the last one, and publication by compare-and-swap on the revision number.
 */
module PolicyChain {
  import opened Common

  type Id = nat
  type Hash = string
  type Json = string

  datatype Mode = Disabled | Manual | AutoIfEligible

  /** What an administrator decides in one revision. */
  datatype Choices = Choices(
    identityMode: Mode, torrentSelectionMode: Mode, approvalMode: Mode, executionMode: Mode,
    rules: Json, acknowledgements: Json)

  /** What the hash of a revision covers. */
  datatype Payload = Payload(number: int, choices: Choices, previous: Option<Hash>)

  datatype Revision = Revision(number: int, choices: Choices, previous: Option<Hash>, policyHash: Hash) {
    function Hashed(): Payload {
      Payload(number, choices, previous)
    }
  }

  datatype Head = Head(current: Id, version: int)

  type Hasher = Payload -> Hash

  ghost predicate Injective(hash: Hasher) {
    forall p, q :: hash(p) == hash(q) ==> p == q
  }

  type Table = map<Id, Revision>

  /** The constraints of the table: numbers start at one and are unique, and only the first has no predecessor. */
  ghost predicate TableConstraints(t: Table) {
    && (forall id | id in t :: t[id].number >= 1 && (t[id].number == 1 <==> t[id].previous.None?))
    && (forall a, b | a in t && b in t && t[a].number == t[b].number :: a == b)
  }

  ghost predicate HasNumber(t: Table, n: int) {
    exists id :: id in t && t[id].number == n
  }

  ghost function ByNumber(t: Table, n: int): (id: Id)
    requires HasNumber(t, n)
    ensures id in t && t[id].number == n
  {
    var id :| id in t && t[id].number == n;
    id
  }

  /** From this row down to the first, every hash is right and every link fits. */
  ghost predicate ChainHolds(t: Table, hash: Hasher, r: Revision)
    decreases r.number
  {
    && r.number >= 1
    && hash(r.Hashed()) == r.policyHash
    && if r.number == 1 then r.previous.None?
       else
         && HasNumber(t, r.number - 1)
         && r.previous == Some(t[ByNumber(t, r.number - 1)].policyHash)
         && ChainHolds(t, hash, t[ByNumber(t, r.number - 1)])
  }

  // ---- The chain commits to history -----------------------------------------------------

  /**
   Whatever was done to two stores: if a revision verifies in each and the two have
   the same hash, then the stores agree on number, choices, predecessor and hash of
   every revision up to it.
   */
  lemma {:induction false} HashCommitsToHistory(s: Table, t: Table, hash: Hasher, a: Revision, b: Revision, n: int)
    requires Injective(hash)
    requires ChainHolds(s, hash, a) && ChainHolds(t, hash, b)
    requires a.policyHash == b.policyHash
    requires 1 <= n <= a.number
    ensures a == b
    ensures n < a.number ==> HasNumber(s, n) && HasNumber(t, n) && s[ByNumber(s, n)] == t[ByNumber(t, n)]
    decreases a.number
  {
    assert a.Hashed() == b.Hashed();
    if n < a.number - 1 {
      HashCommitsToHistory(s, t, hash, s[ByNumber(s, a.number - 1)], t[ByNumber(t, a.number - 1)], n);
    } else if n < a.number {
      var x, y := s[ByNumber(s, n)], t[ByNumber(t, n)];
      assert hash(x.Hashed()) == hash(y.Hashed());
    }
  }

  /** More rows do not disturb a chain that holds. */
  lemma {:induction false} MoreRowsKeepChain(s: Table, t: Table, hash: Hasher, r: Revision)
    requires ChainHolds(s, hash, r)
    requires TableConstraints(t) && forall id | id in s :: id in t && t[id] == s[id]
    ensures ChainHolds(t, hash, r)
    decreases r.number
  {
    if r.number > 1 {
      var id := ByNumber(s, r.number - 1);
      assert id in t && t[id].number == r.number - 1;
      MoreRowsKeepChain(s, t, hash, s[id]);
    }
  }

  // ---- The head guard --------------------------------------------------------------------

  /** `guard_automation_policy_head_update` does not raise. */
  predicate HeadUpdateAllowed(t: Table, before: Head, after: Head) {
    && after.version != before.version && after.current != before.current
    && after.version == before.version + 1
    && before.current in t && after.current in t
    && t[after.current].number == after.version
    && t[after.current].previous == Some(t[before.current].policyHash)
  }

  datatype Error = ChainInvalid | Tampered | HeadInvalid | RevisionConflict | AcknowledgementRequired

  /** The rows are exactly the revisions 1 to the version of the head, and they form a chain. */
  ghost predicate Chained(t: Table, head: Head, hash: Hasher) {
    && TableConstraints(t)
    && head.current in t
    && t[head.current].number == head.version
    && ChainHolds(t, hash, t[head.current])
    && (forall id | id in t :: t[id].number <= head.version)
  }

  function NextRevision(t: Table, head: Head, choices: Choices, hash: Hasher): Revision
    requires head.current in t
  {
    var payload := Payload(t[head.current].number + 1, choices, Some(t[head.current].policyHash));
    Revision(payload.number, choices, payload.previous, hash(payload))
  }

  /** Publishing appends to the chain, satisfies every constraint, and is accepted by the head guard. */
  lemma AppendKeepsChain(t: Table, head: Head, choices: Choices, hash: Hasher, newId: Id)
    requires Injective(hash) && Chained(t, head, hash) && newId !in t
    ensures
      var after := t[newId := NextRevision(t, head, choices, hash)];
      && Chained(after, Head(newId, head.version + 1), hash)
      && HeadUpdateAllowed(after, head, Head(newId, head.version + 1))
      && (forall other | other in t :: after[other].policyHash != after[newId].policyHash)
  {
    var next := NextRevision(t, head, choices, hash);
    var after := t[newId := next];
    NextFitsTable(t, head, next, hash, newId);
    NextIsChained(t, head, next, hash, newId);
    forall other | other in t ensures after[other].policyHash != next.policyHash {
      RowsOfChainAreHashed(after, hash, next, other);
    }
  }

  lemma NextFitsTable(t: Table, head: Head, next: Revision, hash: Hasher, newId: Id)
    requires Chained(t, head, hash) && newId !in t
    requires next.number == head.version + 1 && next.previous.Some?
    ensures TableConstraints(t[newId := next])
  {
    assert t[head.current].number >= 1;
  }

  lemma NextIsChained(t: Table, head: Head, next: Revision, hash: Hasher, newId: Id)
    requires Chained(t, head, hash) && newId !in t && TableConstraints(t[newId := next])
    requires next.number == head.version + 1 && next.previous == Some(t[head.current].policyHash)
    requires hash(next.Hashed()) == next.policyHash
    ensures ChainHolds(t[newId := next], hash, next)
  {
    var after := t[newId := next];
    MoreRowsKeepChain(t, after, hash, t[head.current]);
    assert after[head.current].number == head.version;
    assert ByNumber(after, head.version) == head.current;
  }

  // ---- The service -------------------------------------------------------------------------

  class PolicyStore {
    const hash: Hasher
    const defaults: Choices
    var revisions: Table
    var head: Option<Head>

    constructor (hash: Hasher, defaults: Choices)
      requires Injective(hash)
      ensures this.hash == hash && this.defaults == defaults
      ensures Valid() && head.None?
    {
      this.hash, this.defaults := hash, defaults;
      revisions, head := map[], None;
    }

    /** What the database itself guarantees. */
    ghost predicate Stored()
      reads this
    {
      TableConstraints(revisions) && if head.None? then revisions == map[] else head.value.current in revisions
    }

    ghost predicate Valid()
      reads this
    {
      Stored() && Injective(hash) && (head.Some? ==> Chained(revisions, head.value, hash))
    }

    /** The row with a revision number, if there is one. */
    method Select(n: int) returns (r: Option<Id>)
      requires TableConstraints(revisions)
      ensures r.Some? <==> HasNumber(revisions, n)
      ensures r.Some? ==> r.value == ByNumber(revisions, n)
    {
      if id :| id in revisions && revisions[id].number == n {
        return Some(id);
      }
      return None;
    }

    /**
     `verify_policy_revision`, on any table that meets its constraints, however its
     rows were tampered with: it stops, and succeeds exactly when the chain holds.
     */
    method VerifyPolicyRevision(id: Id) returns (r: Result<(), Error>)
      requires TableConstraints(revisions) && id in revisions
      ensures r.Ok? <==> ChainHolds(revisions, hash, revisions[id])
    {
      var current := id;
      var seen: set<Id> := {};
      while true
        invariant current in revisions && seen <= revisions.Keys
        invariant forall s | s in seen :: revisions[s].number > revisions[current].number
        invariant ChainHolds(revisions, hash, revisions[id]) <==> ChainHolds(revisions, hash, revisions[current])
        decreases revisions[current].number
      {
        if current in seen {
          return Err(ChainInvalid);
        }
        seen := seen + {current};
        var row := revisions[current];
        if hash(row.Hashed()) != row.policyHash {
          return Err(Tampered);
        }
        if row.number == 1 {
          if row.previous.Some? {
            return Err(ChainInvalid);
          }
          return Ok(());
        }
        var previous := Select(row.number - 1);
        if previous.None? || row.previous != Some(revisions[previous.value].policyHash) {
          return Err(ChainInvalid);
        }
        current := previous.value;
      }
    }

    /**
     `get_current_policy`, on any table: the policy is handed out exactly when its chain
     holds and the head agrees with it. `newId` identifies the default policy, if one has to be made.
     */
    method GetCurrentPolicy(newId: Id) returns (r: Result<Head, Error>)
      requires Stored() && newId !in revisions
      modifies this
      ensures Stored()
      ensures old(head).Some? ==> head == old(head) && revisions == old(revisions)
      ensures old(head).None? ==> r.Ok? && head == Some(Head(newId, 1)) && revisions.Keys == {newId}
                                  && revisions[newId].choices == defaults && Chained(revisions, head.value, hash)
      ensures r.Ok? <==>
                && ChainHolds(revisions, hash, revisions[head.value.current])
                && head.value.version == revisions[head.value.current].number
      ensures r.Ok? ==> head == Some(r.value)
    {
      if head.None? {
        var payload := Payload(1, defaults, None);
        revisions := revisions[newId := Revision(1, defaults, None, hash(payload))];
        assert revisions[newId].Hashed() == payload;
        head := Some(Head(newId, 1));
        return Ok(head.value);
      }
      var verified := VerifyPolicyRevision(head.value.current);
      if verified.Err? {
        return Err(verified.error);
      }
      if head.value.version != revisions[head.value.current].number {
        return Err(HeadInvalid);
      }
      return Ok(head.value);
    }

    /** `publish_policy_revision`; `acknowledged` stands for its check of the acknowledgements. */
    method Publish(base: int, choices: Choices, acknowledged: bool, newId: Id) returns (r: Result<Head, Error>)
      requires Valid() && head.Some? && newId !in revisions
      modifies this
      ensures Valid() && head.Some?
      ensures r.Ok? <==> acknowledged && base == old(head).value.version
      ensures r.Ok? ==> r.value == head.value
      ensures r.Ok? ==> Appended(old(revisions), old(head).value, choices, newId, revisions, head.value)
      ensures base != old(head).value.version ==> r == Err(RevisionConflict)
      ensures base == old(head).value.version && !acknowledged ==> r == Err(AcknowledgementRequired)
      ensures r.Err? ==> head == old(head) && revisions == old(revisions)
    {
      var got := GetCurrentPolicy(newId);
      if base != revisions[got.value.current].number {
        return Err(RevisionConflict);
      }
      if !acknowledged {
        return Err(AcknowledgementRequired);
      }
      InsertRevision(choices, newId);
      return Ok(head.value);
    }

    method InsertRevision(choices: Choices, newId: Id)
      requires Valid() && head.Some? && newId !in revisions
      modifies this
      ensures Valid() && head.Some?
      ensures Appended(old(revisions), old(head).value, choices, newId, revisions, head.value)
    {
      AppendKeepsChain(revisions, head.value, choices, hash, newId);
      var current := revisions[head.value.current];
      var payload := Payload(current.number + 1, choices, Some(current.policyHash));
      revisions := revisions[newId := Revision(payload.number, choices, payload.previous, hash(payload))];
      head := Some(Head(newId, head.value.version + 1));
    }

    /** One new row on top, with a hash of its own, and a head the guard accepts. */
    ghost predicate Appended(before: Table, last: Head, choices: Choices, newId: Id, after: Table, next: Head) {
      && last.current in before && newId !in before
      && newId in after && after == before[newId := after[newId]]
      && after[newId].choices == choices
      && after[newId].number == last.version + 1
      && after[newId].previous == Some(before[last.current].policyHash)
      && after[newId].policyHash == hash(after[newId].Hashed())
      && next == Head(newId, last.version + 1)
      && HeadUpdateAllowed(after, last, next)
      && (forall other | other in before :: after[other].policyHash != after[newId].policyHash)
    }

    /**
     Any number of administrators publish on the revision they all read. When it is
     still current, exactly one of those with valid acknowledgements succeeds: the
     first. When it is not, none does, and nothing changes.
     */
    method PublishAll(base: int, requests: seq<Request>) returns (won: seq<nat>)
      requires Valid() && head.Some?
      requires forall i, j | 0 <= i < j < |requests| :: requests[i].newId != requests[j].newId
      requires forall i | 0 <= i < |requests| :: requests[i].newId !in revisions
      modifies this
      ensures Valid() && head.Some?
      ensures won == if base == old(head).value.version then FirstAcknowledged(requests) else []
      ensures won == [] ==> head == old(head) && revisions == old(revisions)
      ensures won != [] ==>
                Appended(old(revisions), old(head).value, requests[won[0]].choices, requests[won[0]].newId,
                         revisions, head.value)
    {
      won := [];
      for i := 0 to |requests|
        invariant Valid() && head.Some?
        invariant won == if base == old(head).value.version then FirstAcknowledged(requests[..i]) else []
        invariant won == [] ==> head == old(head) && revisions == old(revisions)
        invariant won != [] ==>
                    Appended(old(revisions), old(head).value, requests[won[0]].choices, requests[won[0]].newId,
                             revisions, head.value)
      {
        FirstOfOneMore(requests, i);
        var published := Publish(base, requests[i].choices, requests[i].acknowledged, requests[i].newId);
        if published.Ok? {
          won := won + [i];
        }
      }
      assert requests[..|requests|] == requests;
    }
  }

  datatype Request = Request(choices: Choices, acknowledged: bool, newId: Id)

  /** The position of the first request with valid acknowledgements, alone, if there is one. */
  function FirstAcknowledged(requests: seq<Request>): (r: seq<nat>)
    ensures |r| <= 1
    ensures r == [] <==> forall i | 0 <= i < |requests| :: !requests[i].acknowledged
    ensures r != [] ==> r[0] < |requests| && requests[r[0]].acknowledged
                        && forall i | 0 <= i < r[0] :: !requests[i].acknowledged
  {
    if requests == [] then []
    else
      var n := |requests| - 1;
      var before := FirstAcknowledged(requests[..n]);
      if before != [] then before else if requests[n].acknowledged then [n] else []
  }

  lemma FirstOfOneMore(requests: seq<Request>, n: nat)
    requires n < |requests|
    ensures FirstAcknowledged(requests[..n + 1]) ==
            if FirstAcknowledged(requests[..n]) == [] && requests[n].acknowledged then [n]
            else FirstAcknowledged(requests[..n])
  {
    assert requests[..n + 1][..n] == requests[..n];
  }

  /** In a chain without gaps, every row below is hashed, and so differs from the row on top. */
  lemma {:induction false} RowsOfChainAreHashed(t: Table, hash: Hasher, r: Revision, other: Id)
    requires Injective(hash) && TableConstraints(t) && ChainHolds(t, hash, r)
    requires other in t && t[other].number < r.number
    ensures hash(t[other].Hashed()) == t[other].policyHash
    ensures t[other].policyHash != r.policyHash
    decreases r.number
  {
    var below := ByNumber(t, r.number - 1);
    if t[other].number == r.number - 1 {
      assert other == below;
    } else {
      RowsOfChainAreHashed(t, hash, t[below], other);
    }
    assert t[other].Hashed() != r.Hashed();
  }
}
