/**
 * The storage contract that vakt/cache.py is written against: `add`, `get`,
 * `get_all`, `find_for_inquiry`, `update` and `delete`. The backends that
 * implement it (vakt/storage/memory.py and the I/O half of
 * vakt/storage/mongo.py) are not part of this model; a `Store` is one
 * in-memory backend that keeps policies in insertion order, slices pages out
 * of that order, and can be told to fail any call with a given error.
 */
module Storages {
  import opened Wrappers
  import opened Entities
  import Documents

  /** The storage errors the callers tell apart. */
  datatype StorageError =
    | PolicyExists(uid: Uid)
    | PolicyUpdate(uid: Uid)
    | PolicyCreation(uid: Uid)
    | PolicyDeletion(uid: Uid)
    | InvalidPagination
    | Backend(reason: string)

  /** The storage calls, so that a backend can be set to fail one of them. */
  datatype Call = AddCall | GetCall | GetAllCall | FindCall | UpdateCall | DeleteCall

  /** The error each failing call raises; calls not in the map behave normally. */
  type Faults = map<Call, StorageError>

  /** A backend's pre-filter for `find_for_inquiry` (it may return more than the checker will match). */
  type Selector = (Inquiry, Option<Checker>, Policy) -> bool

  ghost predicate UniqueUids(ps: seq<Policy>) {
    forall i, j :: 0 <= i < j < |ps| ==> ps[i].uid != ps[j].uid
  }

  predicate HasUid(ps: seq<Policy>, uid: Uid) {
    exists i :: 0 <= i < |ps| && ps[i].uid == uid
  }

  /** The stored policy with this uid (the first one, should there be several). */
  function Lookup(ps: seq<Policy>, uid: Uid): (r: Option<Policy>)
    ensures r.Some? <==> HasUid(ps, uid)
    ensures r.Some? ==> r.value in ps && r.value.uid == uid
    ensures r.Some? && UniqueUids(ps) ==> forall i :: 0 <= i < |ps| && ps[i].uid == uid ==> ps[i] == r.value
  {
    if ps == [] then None
    else if ps[0].uid == uid then Some(ps[0])
    else Lookup(ps[1..], uid)
  }

  /** The page `ps[offset:offset + limit]` of Python slicing. */
  function Page(ps: seq<Policy>, limit: nat, offset: nat): (r: seq<Policy>)
    ensures |r| <= limit
    ensures r == [] <==> (limit == 0 || offset >= |ps|)
    ensures forall i :: 0 <= i < |r| ==> offset + i < |ps| && r[i] == ps[offset + i]
    ensures offset + limit <= |ps| ==> |r| == limit
    ensures offset <= |ps| < offset + limit ==> |r| == |ps| - offset
  {
    if offset >= |ps| then [] else ps[offset..if offset + limit <= |ps| then offset + limit else |ps|]
  }

  /** The policies in stored order that the selector lets through. */
  function Selected(ps: seq<Policy>, selects: Selector, inquiry: Inquiry, checker: Option<Checker>): (r: seq<Policy>)
    ensures |r| <= |ps|
    ensures forall p :: p in r <==> p in ps && selects(inquiry, checker, p)
  {
    if ps == [] then []
    else (if selects(inquiry, checker, ps[0]) then [ps[0]] else []) + Selected(ps[1..], selects, inquiry, checker)
  }

  /** The policies with the one whose uid is `p.uid` replaced by `p`, in place. */
  function Replaced(ps: seq<Policy>, p: Policy): (r: seq<Policy>)
    ensures |r| == |ps|
    ensures forall i :: 0 <= i < |ps| ==> r[i].uid == ps[i].uid
    ensures forall i :: 0 <= i < |ps| ==> r[i] == (if ps[i].uid == p.uid then p else ps[i])
  {
    if ps == [] then [] else [if ps[0].uid == p.uid then p else ps[0]] + Replaced(ps[1..], p)
  }

  /** The policies without the ones whose uid is `uid`, others in the same order. */
  function Removed(ps: seq<Policy>, uid: Uid): (r: seq<Policy>)
    ensures |r| <= |ps|
    ensures forall q :: q in r <==> q in ps && q.uid != uid
  {
    if ps == [] then [] else (if ps[0].uid == uid then [] else [ps[0]]) + Removed(ps[1..], uid)
  }

  /** `add(p)`: new state and outcome. */
  function AddOutcome(faults: Faults, ps: seq<Policy>, p: Policy): (r: (Result<(), StorageError>, seq<Policy>))
    ensures AddCall in faults ==> r == (Err(faults[AddCall]), ps)
    ensures AddCall !in faults && HasUid(ps, p.uid) ==> r == (Err(PolicyExists(p.uid)), ps)
    ensures AddCall !in faults && !HasUid(ps, p.uid) ==> r == (Ok(()), ps + [p])
  {
    if AddCall in faults then (Err(faults[AddCall]), ps)
    else if HasUid(ps, p.uid) then (Err(PolicyExists(p.uid)), ps)
    else (Ok(()), ps + [p])
  }

  /** `get(uid)`: the policy, `None` when absent. */
  function GetOutcome(faults: Faults, ps: seq<Policy>, uid: Uid): (r: Result<Option<Policy>, StorageError>)
    ensures GetCall in faults ==> r == Err(faults[GetCall])
    ensures GetCall !in faults ==> r == Ok(Lookup(ps, uid))
  {
    if GetCall in faults then Err(faults[GetCall]) else Ok(Lookup(ps, uid))
  }

  /** `get_all(limit, offset)`: a page, refusing a limit that is not positive or a negative offset. */
  function GetAllOutcome(faults: Faults, ps: seq<Policy>, limit: int, offset: int): (r: Result<seq<Policy>, StorageError>)
    ensures GetAllCall in faults ==> r == Err(faults[GetAllCall])
    ensures GetAllCall !in faults && (limit <= 0 || offset < 0) ==> r == Err(InvalidPagination)
    ensures GetAllCall !in faults && limit > 0 && offset >= 0 ==> r == Ok(Page(ps, limit, offset))
  {
    if GetAllCall in faults then Err(faults[GetAllCall])
    else if limit <= 0 || offset < 0 then Err(InvalidPagination)
    else Ok(Page(ps, limit, offset))
  }

  /** `find_for_inquiry(inquiry, checker)`: the pre-filtered candidates. */
  function FindOutcome(faults: Faults, ps: seq<Policy>, selects: Selector, inquiry: Inquiry, checker: Option<Checker>)
    : (r: Result<seq<Policy>, StorageError>)
    ensures FindCall in faults ==> r == Err(faults[FindCall])
    ensures FindCall !in faults ==> r == Ok(Selected(ps, selects, inquiry, checker))
  {
    if FindCall in faults then Err(faults[FindCall]) else Ok(Selected(ps, selects, inquiry, checker))
  }

  /** `update(p)`: replaces the stored policy with uid `p.uid`, refusing an absent uid. */
  function UpdateOutcome(faults: Faults, ps: seq<Policy>, p: Policy): (r: (Result<(), StorageError>, seq<Policy>))
    ensures UpdateCall in faults ==> r == (Err(faults[UpdateCall]), ps)
    ensures UpdateCall !in faults && !HasUid(ps, p.uid) ==> r == (Err(PolicyUpdate(p.uid)), ps)
    ensures UpdateCall !in faults && HasUid(ps, p.uid) ==> r == (Ok(()), Replaced(ps, p))
  {
    if UpdateCall in faults then (Err(faults[UpdateCall]), ps)
    else if !HasUid(ps, p.uid) then (Err(PolicyUpdate(p.uid)), ps)
    else (Ok(()), Replaced(ps, p))
  }

  /** `delete(uid)`: removes the policy; an absent uid is no error. */
  function DeleteOutcome(faults: Faults, ps: seq<Policy>, uid: Uid): (r: (Result<(), StorageError>, seq<Policy>))
    ensures DeleteCall in faults ==> r == (Err(faults[DeleteCall]), ps)
    ensures DeleteCall !in faults ==> r == (Ok(()), Removed(ps, uid))
  {
    if DeleteCall in faults then (Err(faults[DeleteCall]), ps) else (Ok(()), Removed(ps, uid))
  }

  // ----- what the operations promise -----

  /** A successful add, update or delete keeps uids unique. */
  lemma {:induction false} RemovedKeepsUnique(ps: seq<Policy>, uid: Uid)
    requires UniqueUids(ps)
    ensures UniqueUids(Removed(ps, uid))
    ensures !HasUid(Removed(ps, uid), uid)
  {
    if ps != [] {
      RemovedKeepsUnique(ps[1..], uid);
      var rest := Removed(ps[1..], uid);
      if ps[0].uid != uid {
        forall j | 0 <= j < |rest| ensures rest[j].uid != ps[0].uid {
          assert rest[j] in ps[1..];
        }
      }
    }
  }

  lemma OutcomesKeepUnique(faults: Faults, ps: seq<Policy>, p: Policy, uid: Uid)
    requires UniqueUids(ps)
    ensures UniqueUids(AddOutcome(faults, ps, p).1)
    ensures UniqueUids(UpdateOutcome(faults, ps, p).1)
    ensures UniqueUids(DeleteOutcome(faults, ps, uid).1)
  {
    RemovedKeepsUnique(ps, uid);
  }

  /** After a successful add the policy is found under its uid, and every other uid reads as before. */
  lemma AddThenGet(faults: Faults, ps: seq<Policy>, p: Policy, uid: Uid)
    requires AddOutcome(faults, ps, p).0.Ok?
    ensures Lookup(AddOutcome(faults, ps, p).1, p.uid) == Some(p)
    ensures uid != p.uid ==> Lookup(AddOutcome(faults, ps, p).1, uid) == Lookup(ps, uid)
  {
    LookupAppend(ps, p, p.uid);
    LookupAppend(ps, p, uid);
  }

  lemma {:induction false} LookupAppend(ps: seq<Policy>, p: Policy, uid: Uid)
    ensures Lookup(ps + [p], uid) == if HasUid(ps, uid) then Lookup(ps, uid) else if p.uid == uid then Some(p) else None
  {
    if ps != [] {
      assert (ps + [p])[1..] == ps[1..] + [p];
      LookupAppend(ps[1..], p, uid);
    }
  }

  /** After a successful update the new version is found, and every other uid reads as before. */
  lemma {:induction false} UpdateThenGet(ps: seq<Policy>, p: Policy, uid: Uid)
    requires HasUid(ps, p.uid)
    ensures Lookup(Replaced(ps, p), p.uid) == Some(p)
    ensures uid != p.uid ==> Lookup(Replaced(ps, p), uid) == Lookup(ps, uid)
  {
    if ps[0].uid != p.uid {
      UpdateThenGet(ps[1..], p, uid);
    } else if uid != p.uid {
      assert Replaced(ps, p)[1..] == Replaced(ps[1..], p);
      ReplacedKeepsOthers(ps[1..], p, uid);
    }
  }

  lemma {:induction false} ReplacedKeepsOthers(ps: seq<Policy>, p: Policy, uid: Uid)
    requires uid != p.uid
    ensures Lookup(Replaced(ps, p), uid) == Lookup(ps, uid)
  {
    if ps != [] {
      assert Replaced(ps, p)[1..] == Replaced(ps[1..], p);
      ReplacedKeepsOthers(ps[1..], p, uid);
    }
  }

  /** After a delete the uid is gone, and every other uid reads as before. */
  lemma {:induction false} DeleteThenGet(ps: seq<Policy>, uid: Uid, other: Uid)
    ensures Lookup(Removed(ps, uid), uid) == None
    ensures other != uid ==> Lookup(Removed(ps, uid), other) == Lookup(ps, other)
  {
    if ps != [] {
      DeleteThenGet(ps[1..], uid, other);
      var rest := Removed(ps[1..], uid);
      if ps[0].uid != uid {
        assert Removed(ps, uid) == [ps[0]] + rest;
        assert ([ps[0]] + rest)[1..] == rest;
      } else {
        assert Removed(ps, uid) == rest;
      }
    }
  }

  /** Consecutive pages of one size tile the stored order: page `k` starts where page `k - 1` ended. */
  lemma PagesTile(ps: seq<Policy>, limit: nat, offset: nat)
    requires limit > 0 && offset + limit <= |ps|
    ensures Page(ps, limit, offset) + Page(ps, limit, offset + limit) == Page(ps, 2 * limit, offset)
  {
    var n := offset + 2 * limit;
    var e := if n <= |ps| then n else |ps|;
    assert Page(ps, limit, offset) == ps[offset..offset + limit];
    if offset + limit < |ps| {
      assert Page(ps, limit, offset + limit) == ps[offset + limit..e];
    }
    assert Page(ps, 2 * limit, offset) == ps[offset..e];
    assert ps[offset..e] == ps[offset..offset + limit] + ps[offset + limit..e];
  }

  /** A ghost record of how many `get_all` calls a storage has served, so that a caller can be said not to page through it. */
  class ReadLog {
    ghost var pageReads: nat

    constructor ()
      ensures pageReads == 0
    {
      pageReads := 0;
    }
  }

  /** One storage backend: its policies in insertion order, the calls it fails, its pre-filter, its read log. */
  class Store {
    var policies: seq<Policy>
    const faults: Faults
    const selects: Selector
    const log: ReadLog

    ghost predicate Valid()
      reads this
    {
      UniqueUids(policies)
    }

    constructor (policies: seq<Policy>, faults: Faults, selects: Selector)
      requires UniqueUids(policies)
      ensures Valid()
      ensures this.policies == policies && this.faults == faults && this.selects == selects
      ensures fresh(log) && log.pageReads == 0
    {
      this.policies := policies;
      this.faults := faults;
      this.selects := selects;
      log := new ReadLog();
    }

    method Add(p: Policy) returns (r: Result<(), StorageError>)
      requires Valid()
      modifies this
      ensures Valid()
      ensures (r, policies) == AddOutcome(faults, old(policies), p)
    {
      var uid := p.uid;
      OutcomesKeepUnique(faults, policies, p, uid);
      r, policies := AddOutcome(faults, policies, p).0, AddOutcome(faults, policies, p).1;
    }

    method Get(uid: Uid) returns (r: Result<Option<Policy>, StorageError>)
      ensures r == GetOutcome(faults, policies, uid)
    {
      r := GetOutcome(faults, policies, uid);
    }

    method GetAll(limit: int, offset: int) returns (r: Result<seq<Policy>, StorageError>)
      modifies log
      ensures log.pageReads == old(log.pageReads) + 1
      ensures r == GetAllOutcome(faults, policies, limit, offset)
    {
      r := GetAllOutcome(faults, policies, limit, offset);
      log.pageReads := log.pageReads + 1;
    }

    method FindForInquiry(inquiry: Inquiry, checker: Option<Checker>) returns (r: Result<seq<Policy>, StorageError>)
      ensures r == FindOutcome(faults, policies, selects, inquiry, checker)
    {
      r := FindOutcome(faults, policies, selects, inquiry, checker);
    }

    method Update(p: Policy) returns (r: Result<(), StorageError>)
      requires Valid()
      modifies this
      ensures Valid()
      ensures (r, policies) == UpdateOutcome(faults, old(policies), p)
    {
      OutcomesKeepUnique(faults, policies, p, p.uid);
      r, policies := UpdateOutcome(faults, policies, p).0, UpdateOutcome(faults, policies, p).1;
    }

    method Delete(uid: Uid) returns (r: Result<(), StorageError>)
      requires Valid()
      modifies this
      ensures Valid()
      ensures (r, policies) == DeleteOutcome(faults, old(policies), uid)
    {
      var p := Policy(uid, Documents.JNull);
      OutcomesKeepUnique(faults, policies, p, uid);
      r, policies := DeleteOutcome(faults, policies, uid).0, DeleteOutcome(faults, policies, uid).1;
    }
  }
}
