/**
 * The two caches of vakt/cache.py.
 *
 * `EnfoldCache` puts a second storage in front of a primary one: writes go to
 * the primary and then to the cache, reads try the cache first and fall back
 * to the primary when the cache's answer is falsy (`None` or an empty list).
 * `GuardCache` memoizes the primary's `find_for_inquiry` per (inquiry,
 * checker) pair behind a `stale` flag that its owner clears.
 */
module Cache {
  import opened Wrappers
  import opened Entities
  import opened Storages
  import Memo

  /** The page size of the warm-up. */
  const WarmUpBatch: nat := 10000

  // ----- EnfoldCache: the specification of each operation on the two tiers -----

  /** `cache.add(p)` for each policy of a page in turn, stopping at the first error. */
  function AddEach(faults: Faults, ps: seq<Policy>, batch: seq<Policy>): (r: (Result<(), StorageError>, seq<Policy>))
    ensures ps <= r.1
    ensures forall q :: q in r.1[|ps|..] ==> q in batch
    decreases |batch|
  {
    if batch == [] then (Ok(()), ps)
    else
      var before := AddEach(faults, ps, batch[..|batch| - 1]);
      if before.0.Err? then before
      else
        var last := AddOutcome(faults, before.1, batch[|batch| - 1]);
        assert last.1 == before.1 || last.1[|ps|..] == before.1[|ps|..] + [batch[|batch| - 1]];
        last
  }

  /**
   * The warm-up loop: fetch `get_all(10000, offset)` from the primary, add
   * the page to the cache, and advance `offset` by `stride`, until a page is
   * empty. Yields the outcome and the cache's policies. The cache only grows,
   * and only by policies of the primary. As written the stride is 1
   * (vakt/cache.py:30); the evident intent is to advance by the page size
   * (see Findings in README).
   */
  function WarmUp(pf: Faults, pps: seq<Policy>, cf: Faults, cps: seq<Policy>, offset: nat, stride: nat)
    : (r: (Result<(), StorageError>, seq<Policy>))
    requires stride > 0
    decreases |pps| - offset
  {
    match GetAllOutcome(pf, pps, WarmUpBatch, offset)
    case Err(e) => (Err(e), cps)
    case Ok(page) =>
      if page == [] then (Ok(()), cps)
      else
        var added := AddEach(cf, cps, page);
        if added.0.Err? then added
        else WarmUp(pf, pps, cf, added.1, offset + stride, stride)
  }

  /** The warm-up only grows the cache: its old contents stay a prefix. */
  lemma {:induction false} WarmUpGrows(pf: Faults, pps: seq<Policy>, cf: Faults, cps: seq<Policy>, offset: nat, stride: nat)
    requires stride > 0
    ensures cps <= WarmUp(pf, pps, cf, cps, offset, stride).1
    decreases |pps| - offset
  {
    WarmUpStep(pf, pps, cf, cps, offset, stride);
    var got := GetAllOutcome(pf, pps, WarmUpBatch, offset);
    if got.Ok? && got.value != [] {
      var added := AddEach(cf, cps, got.value);
      if added.0.Ok? {
        WarmUpGrows(pf, pps, cf, added.1, offset + stride, stride);
      }
    }
  }

  /** Every policy the warm-up adds to the cache is one of the primary's. */
  lemma {:induction false} WarmUpAddsFromPrimary(pf: Faults, pps: seq<Policy>, cf: Faults, cps: seq<Policy>, offset: nat, stride: nat)
    requires stride > 0
    ensures forall i :: |cps| <= i < |WarmUp(pf, pps, cf, cps, offset, stride).1| ==> WarmUp(pf, pps, cf, cps, offset, stride).1[i] in pps
    decreases |pps| - offset
  {
    WarmUpGrows(pf, pps, cf, cps, offset, stride);
    WarmUpStep(pf, pps, cf, cps, offset, stride);
    var got := GetAllOutcome(pf, pps, WarmUpBatch, offset);
    if got.Ok? && got.value != [] {
      var added := AddEach(cf, cps, got.value);
      PageWithin(pps, WarmUpBatch, offset);
      if added.0.Ok? {
        WarmUpAddsFromPrimary(pf, pps, cf, added.1, offset + stride, stride);
        WarmUpGrows(pf, pps, cf, added.1, offset + stride, stride);
        var rest := WarmUp(pf, pps, cf, added.1, offset + stride, stride).1;
        forall i | |cps| <= i < |added.1|
          ensures rest[i] in pps
        {
          assert rest[i] == added.1[i] == added.1[|cps|..][i - |cps|];
        }
      }
    }
  }

  /** Every policy of a page is one of the storage's. */
  lemma PageWithin(ps: seq<Policy>, limit: nat, offset: nat)
    ensures forall q :: q in Page(ps, limit, offset) ==> q in ps
  {
    forall q | q in Page(ps, limit, offset)
      ensures q in ps
    {
      var i :| 0 <= i < |Page(ps, limit, offset)| && Page(ps, limit, offset)[i] == q;
      assert q == ps[offset + i];
    }
  }

  /** One unfolding of the warm-up, case by case. */
  lemma WarmUpStep(pf: Faults, pps: seq<Policy>, cf: Faults, cps: seq<Policy>, offset: nat, stride: nat)
    requires stride > 0
    ensures var got := GetAllOutcome(pf, pps, WarmUpBatch, offset);
      WarmUp(pf, pps, cf, cps, offset, stride) ==
      if got.Err? then (Err(got.error), cps)
      else if got.value == [] then (Ok(()), cps)
      else if AddEach(cf, cps, got.value).0.Err? then AddEach(cf, cps, got.value)
      else WarmUp(pf, pps, cf, AddEach(cf, cps, got.value).1, offset + stride, stride)
  {
  }

  /** `add`: the primary's `PolicyExists` is ignored; any other primary error leaves the cache alone. */
  function EnfoldAdd(pf: Faults, pps: seq<Policy>, cf: Faults, cps: seq<Policy>, p: Policy)
    : (r: (Result<(), StorageError>, seq<Policy>, seq<Policy>))
    ensures r.1 == pps || r.1 == pps + [p]
    ensures r.2 == cps || r.2 == cps + [p]
    ensures r.0.Ok? ==> r.2 == cps + [p]
    ensures r.0.Ok? && AddCall !in pf ==> HasUid(r.1, p.uid)
  {
    var first := AddOutcome(pf, pps, p);
    assert first.1 == pps + [p] ==> (pps + [p])[|pps|] == p;
    if first.0.Err? && !first.0.error.PolicyExists? then (first.0, first.1, cps)
    else var second := AddOutcome(cf, cps, p); (second.0, first.1, second.1)
  }

  /** `update`: the primary's `PolicyUpdate` and `PolicyCreation` are ignored. */
  function EnfoldUpdate(pf: Faults, pps: seq<Policy>, cf: Faults, cps: seq<Policy>, p: Policy)
    : (r: (Result<(), StorageError>, seq<Policy>, seq<Policy>))
    ensures r.1 == pps || r.1 == Replaced(pps, p)
    ensures r.2 == cps || r.2 == Replaced(cps, p)
    ensures r.0.Ok? ==> HasUid(cps, p.uid) && r.2 == Replaced(cps, p)
  {
    var first := UpdateOutcome(pf, pps, p);
    if first.0.Err? && !(first.0.error.PolicyUpdate? || first.0.error.PolicyCreation?) then (first.0, first.1, cps)
    else var second := UpdateOutcome(cf, cps, p); (second.0, first.1, second.1)
  }

  /** `delete`: the primary's `PolicyDeletion` is ignored. */
  function EnfoldDelete(pf: Faults, pps: seq<Policy>, cf: Faults, cps: seq<Policy>, uid: Uid)
    : (r: (Result<(), StorageError>, seq<Policy>, seq<Policy>))
    ensures r.1 == pps || r.1 == Removed(pps, uid)
    ensures r.2 == cps || r.2 == Removed(cps, uid)
    ensures r.0.Ok? ==> r.2 == Removed(cps, uid) && !HasUid(r.2, uid)
  {
    var first := DeleteOutcome(pf, pps, uid);
    if first.0.Err? && !first.0.error.PolicyDeletion? then (first.0, first.1, cps)
    else var second := DeleteOutcome(cf, cps, uid); (second.0, first.1, second.1)
  }

  /** `get`: the cache's policy if it has one, else the primary's answer. */
  function EnfoldGet(pf: Faults, pps: seq<Policy>, cf: Faults, cps: seq<Policy>, uid: Uid)
    : (r: Result<Option<Policy>, StorageError>)
    ensures r.Ok? && r.value.Some? ==> r.value.value.uid == uid && (r.value.value in cps || r.value.value in pps)
    ensures r.Ok? && r.value.Some? && HasUid(cps, uid) ==> r.value == Lookup(cps, uid)
    ensures r == Ok(None) ==> !HasUid(cps, uid) && !HasUid(pps, uid)
  {
    match GetOutcome(cf, cps, uid)
    case Err(e) => Err(e)
    case Ok(found) => if found.Some? then Ok(found) else GetOutcome(pf, pps, uid)
  }

  /** `get_all`: the cache's page if it is not empty, else the primary's page. */
  function EnfoldGetAll(pf: Faults, pps: seq<Policy>, cf: Faults, cps: seq<Policy>, limit: int, offset: int)
    : (r: Result<seq<Policy>, StorageError>)
    ensures r.Ok? ==> (limit > 0 && offset >= 0 && |r.value| <= limit &&
                       (r.value == Page(cps, limit, offset) || r.value == Page(pps, limit, offset)))
    ensures r == Ok([]) ==> Page(cps, limit, offset) == [] && Page(pps, limit, offset) == []
  {
    match GetAllOutcome(cf, cps, limit, offset)
    case Err(e) => Err(e)
    case Ok(page) => if page != [] then Ok(page) else GetAllOutcome(pf, pps, limit, offset)
  }

  /** `find_for_inquiry`: the cache's candidates if there are any, else the primary's. */
  function EnfoldFind(pf: Faults, pps: seq<Policy>, psel: Selector, cf: Faults, cps: seq<Policy>, csel: Selector,
                      inquiry: Inquiry, checker: Option<Checker>)
    : (r: Result<seq<Policy>, StorageError>)
    ensures r.Ok? ==> forall q :: q in r.value ==> q in cps || q in pps
    ensures r == Ok([]) ==> FindOutcome(cf, cps, csel, inquiry, checker) == Ok([]) &&
                            FindOutcome(pf, pps, psel, inquiry, checker) == Ok([])
  {
    match FindOutcome(cf, cps, csel, inquiry, checker)
    case Err(e) => Err(e)
    case Ok(found) => if found != [] then Ok(found) else FindOutcome(pf, pps, psel, inquiry, checker)
  }

  // ----- the warm-up -----

  /** Once a page's add fails, the rest of the page is not added. */
  lemma {:induction false} AddEachStopsAtError(faults: Faults, ps: seq<Policy>, batch: seq<Policy>, k: nat)
    requires k <= |batch| && AddEach(faults, ps, batch[..k]).0.Err?
    ensures AddEach(faults, ps, batch) == AddEach(faults, ps, batch[..k])
    decreases |batch|
  {
    if k < |batch| {
      var shorter := batch[..|batch| - 1];
      assert shorter[..k] == batch[..k];
      AddEachStopsAtError(faults, ps, shorter, k);
    } else {
      assert batch[..k] == batch;
    }
  }

  /** Adding policies whose uids are new and distinct appends them all. */
  lemma {:induction false} AddEachFresh(faults: Faults, ps: seq<Policy>, batch: seq<Policy>)
    requires AddCall !in faults && UniqueUids(ps + batch)
    ensures AddEach(faults, ps, batch) == (Ok(()), ps + batch)
    decreases |batch|
  {
    if batch != [] {
      var init := batch[..|batch| - 1];
      var last := batch[|batch| - 1];
      assert ps + batch == (ps + init) + [last];
      UniquePrefix(ps + init, [last]);
      AddEachFresh(faults, ps, init);
      assert batch[..|batch| - 1] == init;
      assert AddEach(faults, ps, batch) == AddOutcome(faults, ps + init, last);
      assert !HasUid(ps + init, last.uid) by {
        forall i | 0 <= i < |ps + init| ensures (ps + init)[i].uid != last.uid {
          assert (ps + batch)[i] == (ps + init)[i] && (ps + batch)[|ps + init|] == last;
        }
      }
    } else {
      assert ps + batch == ps;
    }
  }

  lemma UniquePrefix(ps: seq<Policy>, qs: seq<Policy>)
    requires UniqueUids(ps + qs)
    ensures UniqueUids(ps)
  {
    forall i, j | 0 <= i < j < |ps| ensures ps[i].uid != ps[j].uid {
      assert ps[i] == (ps + qs)[i] && ps[j] == (ps + qs)[j];
    }
  }

  /** A page whose first policy is already cached fails on that policy and adds nothing. */
  lemma {:induction false} AddEachFirstDuplicate(faults: Faults, ps: seq<Policy>, batch: seq<Policy>)
    requires AddCall !in faults && batch != [] && HasUid(ps, batch[0].uid)
    ensures AddEach(faults, ps, batch) == (Err(PolicyExists(batch[0].uid)), ps)
    decreases |batch|
  {
    var init := batch[..|batch| - 1];
    if init != [] {
      assert init[0] == batch[0];
      AddEachFirstDuplicate(faults, ps, init);
    } else {
      assert AddEach(faults, ps, init) == (Ok(()), ps);
    }
  }

  /**
   * The intended warm-up copies the whole primary into a cache that holds
   * none of its uids, in the primary's order.
   */
  lemma {:induction false} WarmUpByBatchCopiesPrimary(pf: Faults, pps: seq<Policy>, cf: Faults, cps: seq<Policy>, offset: nat)
    requires GetAllCall !in pf && AddCall !in cf
    requires offset <= |pps| && UniqueUids(cps + pps[offset..])
    ensures WarmUp(pf, pps, cf, cps, offset, WarmUpBatch) == (Ok(()), cps + pps[offset..])
    decreases |pps| - offset
  {
    var page := Page(pps, WarmUpBatch, offset);
    if page == [] {
      assert pps[offset..] == [];
      assert cps + [] == cps;
    } else {
      var next := if offset + WarmUpBatch <= |pps| then offset + WarmUpBatch else |pps|;
      assert page == pps[offset..next];
      assert pps[offset..] == page + pps[next..];
      assert cps + pps[offset..] == (cps + page) + pps[next..];
      UniquePrefix(cps + page, pps[next..]);
      AddEachFresh(cf, cps, page);
      if next == |pps| {
        assert Page(pps, WarmUpBatch, offset + WarmUpBatch) == [];
        assert pps[next..] == [];
        assert (cps + page) + [] == cps + page;
      } else {
        WarmUpByBatchCopiesPrimary(pf, pps, cf, cps + page, next);
      }
    }
  }

  /** Warming an empty cache with the intended loop leaves it equal to the primary. */
  lemma WarmUpByBatchFromEmpty(pf: Faults, pps: seq<Policy>, cf: Faults)
    requires GetAllCall !in pf && AddCall !in cf && UniqueUids(pps)
    ensures WarmUp(pf, pps, cf, [], 0, WarmUpBatch) == (Ok(()), pps)
  {
    assert [] + pps[0..] == pps;
    WarmUpByBatchCopiesPrimary(pf, pps, cf, [], 0);
  }

  /**
   * As written, the second page starts at the primary's second policy, which
   * the first page already put in the cache: with two or more policies the
   * warm-up ends in `PolicyExists` for that policy, the cache holding the
   * first page.
   */
  lemma WarmUpAsWrittenRejectsSecondPage(pf: Faults, pps: seq<Policy>, cf: Faults)
    requires GetAllCall !in pf && AddCall !in cf && UniqueUids(pps) && |pps| >= 2
    ensures WarmUp(pf, pps, cf, [], 0, 1) ==
      (Err(PolicyExists(pps[1].uid)), Page(pps, WarmUpBatch, 0))
  {
    var first := Page(pps, WarmUpBatch, 0);
    assert AddEach(cf, [], first) == (Ok(()), first) by {
      assert [] + first == first;
      assert first + pps[|first|..] == pps;
      UniquePrefix(first, pps[|first|..]);
      AddEachFresh(cf, [], first);
    }
    assert WarmUp(pf, pps, cf, first, 1, 1) == (Err(PolicyExists(pps[1].uid)), first) by {
      var second := Page(pps, WarmUpBatch, 1);
      assert second[0] == pps[1] && first[1] == pps[1];
      AddEachFirstDuplicate(cf, first, second);
    }
  }

  /** As written, the warm-up of an empty cache succeeds exactly when the primary holds at most one policy. */
  lemma WarmUpAsWrittenSucceedsIff(pf: Faults, pps: seq<Policy>, cf: Faults)
    requires GetAllCall !in pf && AddCall !in cf && UniqueUids(pps)
    ensures WarmUp(pf, pps, cf, [], 0, 1).0.Ok? <==> |pps| <= 1
    ensures |pps| <= 1 ==> WarmUp(pf, pps, cf, [], 0, 1).1 == pps
  {
    if |pps| >= 2 {
      WarmUpAsWrittenRejectsSecondPage(pf, pps, cf);
    } else if |pps| == 1 {
      assert AddEach(cf, [], pps) == (Ok(()), pps) by {
        assert [] + pps == pps;
        AddEachFresh(cf, [], pps);
      }
      assert WarmUp(pf, pps, cf, pps, 1, 1) == (Ok(()), pps) by {
        assert Page(pps, WarmUpBatch, 1) == [];
      }
      assert Page(pps, WarmUpBatch, 0) == pps;
    }
  }

  // ----- tier coherence -----

  /** Every policy the cache holds is the primary's policy under that uid. */
  ghost predicate Mirrors(cps: seq<Policy>, pps: seq<Policy>) {
    forall uid :: Lookup(cps, uid).Some? ==> Lookup(cps, uid) == Lookup(pps, uid)
  }

  /** While the cache mirrors the primary, `get` answers what the primary would. */
  lemma GetAgreesWhenMirrored(pf: Faults, pps: seq<Policy>, cf: Faults, cps: seq<Policy>, uid: Uid)
    requires GetCall !in pf && GetCall !in cf && Mirrors(cps, pps)
    ensures EnfoldGet(pf, pps, cf, cps, uid) == Ok(Lookup(pps, uid))
  {
  }

  /** Adding a policy the primary lacks, or already holds as is, keeps the cache a mirror. */
  lemma AddKeepsMirror(pf: Faults, pps: seq<Policy>, cf: Faults, cps: seq<Policy>, p: Policy)
    requires AddCall !in pf && AddCall !in cf && Mirrors(cps, pps)
    requires Lookup(pps, p.uid) == None || Lookup(pps, p.uid) == Some(p)
    ensures Mirrors(EnfoldAdd(pf, pps, cf, cps, p).2, EnfoldAdd(pf, pps, cf, cps, p).1)
  {
    var after := EnfoldAdd(pf, pps, cf, cps, p);
    forall uid | Lookup(after.2, uid).Some? ensures Lookup(after.2, uid) == Lookup(after.1, uid) {
      LookupAppend(pps, p, uid);
      LookupAppend(cps, p, uid);
    }
  }

  /**
   * Ignoring `PolicyExists` trusts the primary's copy: a new version of a
   * policy the primary already holds is cached while the primary keeps the
   * old one, and the tiers disagree.
   */
  lemma AddOverOlderVersionDiverges(pf: Faults, pps: seq<Policy>, cf: Faults, cps: seq<Policy>, p: Policy, q: Policy)
    requires AddCall !in pf && AddCall !in cf
    requires Lookup(pps, p.uid) == Some(q) && q != p && !HasUid(cps, p.uid)
    ensures EnfoldAdd(pf, pps, cf, cps, p).0 == Ok(())
    ensures Lookup(EnfoldAdd(pf, pps, cf, cps, p).1, p.uid) == Some(q)
    ensures Lookup(EnfoldAdd(pf, pps, cf, cps, p).2, p.uid) == Some(p)
  {
    LookupAppend(cps, p, p.uid);
  }

  /** Updating through both tiers keeps the cache a mirror. */
  lemma UpdateKeepsMirror(pf: Faults, pps: seq<Policy>, cf: Faults, cps: seq<Policy>, p: Policy)
    requires UpdateCall !in pf && UpdateCall !in cf && Mirrors(cps, pps)
    ensures Mirrors(EnfoldUpdate(pf, pps, cf, cps, p).2, EnfoldUpdate(pf, pps, cf, cps, p).1)
  {
    var after := EnfoldUpdate(pf, pps, cf, cps, p);
    forall uid | Lookup(after.2, uid).Some? ensures Lookup(after.2, uid) == Lookup(after.1, uid) {
      if HasUid(pps, p.uid) {
        UpdateThenGet(pps, p, uid);
      }
      if HasUid(cps, p.uid) {
        UpdateThenGet(cps, p, uid);
        assert Lookup(cps, p.uid).Some?;
      }
    }
  }

  /** Deleting through both tiers keeps the cache a mirror and the uid gone from both. */
  lemma DeleteKeepsMirror(pf: Faults, pps: seq<Policy>, cf: Faults, cps: seq<Policy>, uid: Uid)
    requires DeleteCall !in pf && DeleteCall !in cf && Mirrors(cps, pps)
    ensures Mirrors(EnfoldDelete(pf, pps, cf, cps, uid).2, EnfoldDelete(pf, pps, cf, cps, uid).1)
    ensures Lookup(EnfoldDelete(pf, pps, cf, cps, uid).1, uid) == None
    ensures Lookup(EnfoldDelete(pf, pps, cf, cps, uid).2, uid) == None
  {
    var after := EnfoldDelete(pf, pps, cf, cps, uid);
    forall other | Lookup(after.2, other).Some? ensures Lookup(after.2, other) == Lookup(after.1, other) {
      DeleteThenGet(pps, uid, other);
      DeleteThenGet(cps, uid, other);
    }
    DeleteThenGet(pps, uid, uid);
    DeleteThenGet(cps, uid, uid);
  }

  /** While the cache holds exactly the primary's policies, `get_all` and `find_for_inquiry` answer as the primary. */
  lemma ListsAgreeWhenEqual(pf: Faults, cf: Faults, ps: seq<Policy>, sel: Selector, limit: int, offset: int,
                            inquiry: Inquiry, checker: Option<Checker>)
    requires GetAllCall !in pf && GetAllCall !in cf && FindCall !in pf && FindCall !in cf
    ensures EnfoldGetAll(pf, ps, cf, ps, limit, offset) == GetAllOutcome(pf, ps, limit, offset)
    ensures EnfoldFind(pf, ps, sel, cf, ps, sel, inquiry, checker) == FindOutcome(pf, ps, sel, inquiry, checker)
  {
  }

  /** Reads fall back to the primary exactly when the cache's answer is empty. */
  lemma ReadsFallBackOnEmpty(pf: Faults, pps: seq<Policy>, cf: Faults, uid: Uid, limit: int, offset: int)
    requires GetCall !in cf && GetAllCall !in cf
    ensures EnfoldGet(pf, pps, cf, [], uid) == GetOutcome(pf, pps, uid)
    ensures EnfoldGetAll(pf, pps, cf, [], limit, offset) ==
      (if limit <= 0 || offset < 0 then Err(InvalidPagination) else GetAllOutcome(pf, pps, limit, offset))
  {
  }

  /** A primary error that is not ignored is the outcome, and the cache is untouched. */
  lemma WritesPropagateOtherPrimaryErrors(pf: Faults, pps: seq<Policy>, cf: Faults, cps: seq<Policy>, p: Policy, e: StorageError)
    requires !e.PolicyExists? && !e.PolicyUpdate? && !e.PolicyCreation? && !e.PolicyDeletion?
    ensures EnfoldAdd(pf[AddCall := e], pps, cf, cps, p) == (Err(e), pps, cps)
    ensures EnfoldUpdate(pf[UpdateCall := e], pps, cf, cps, p) == (Err(e), pps, cps)
    ensures EnfoldDelete(pf[DeleteCall := e], pps, cf, cps, p.uid) == (Err(e), pps, cps)
  {
  }

  /** The two-tier storage. */
  class EnfoldCache {
    const primary: Store
    const cache: Store

    ghost predicate Valid()
      reads this, primary, cache
    {
      primary != cache && primary.log != cache.log && primary.Valid() && cache.Valid()
    }

    /** The object itself, before any warm-up. */
    constructor (primary: Store, cache: Store)
      requires primary != cache
      ensures this.primary == primary && this.cache == cache
    {
      this.primary := primary;
      this.cache := cache;
    }

    method Add(p: Policy) returns (r: Result<(), StorageError>)
      requires Valid()
      modifies primary, cache
      ensures Valid()
      ensures (r, primary.policies, cache.policies) ==
        EnfoldAdd(primary.faults, old(primary.policies), cache.faults, old(cache.policies), p)
    {
      r := primary.Add(p);
      if r.Err? && !r.error.PolicyExists? {
        return;
      }
      r := cache.Add(p);
    }

    method Get(uid: Uid) returns (r: Result<Option<Policy>, StorageError>)
      requires Valid()
      ensures r == EnfoldGet(primary.faults, primary.policies, cache.faults, cache.policies, uid)
    {
      r := cache.Get(uid);
      if r.Err? || r.value.Some? {
        return;
      }
      r := primary.Get(uid);
    }

    method GetAll(limit: int, offset: int) returns (r: Result<seq<Policy>, StorageError>)
      requires Valid()
      modifies primary.log, cache.log
      ensures r == EnfoldGetAll(primary.faults, primary.policies, cache.faults, cache.policies, limit, offset)
      ensures cache.log.pageReads == old(cache.log.pageReads) + 1
      ensures primary.log.pageReads ==
        old(primary.log.pageReads) + (if GetAllOutcome(cache.faults, cache.policies, limit, offset) == Ok([]) then 1 else 0)
    {
      r := cache.GetAll(limit, offset);
      if r.Err? || r.value != [] {
        return;
      }
      r := primary.GetAll(limit, offset);
    }

    method FindForInquiry(inquiry: Inquiry, checker: Option<Checker>) returns (r: Result<seq<Policy>, StorageError>)
      requires Valid()
      ensures r == EnfoldFind(primary.faults, primary.policies, primary.selects,
                              cache.faults, cache.policies, cache.selects, inquiry, checker)
    {
      r := cache.FindForInquiry(inquiry, checker);
      if r.Err? || r.value != [] {
        return;
      }
      r := primary.FindForInquiry(inquiry, checker);
    }

    method Update(p: Policy) returns (r: Result<(), StorageError>)
      requires Valid()
      modifies primary, cache
      ensures Valid()
      ensures (r, primary.policies, cache.policies) ==
        EnfoldUpdate(primary.faults, old(primary.policies), cache.faults, old(cache.policies), p)
    {
      r := primary.Update(p);
      if r.Err? && !(r.error.PolicyUpdate? || r.error.PolicyCreation?) {
        return;
      }
      r := cache.Update(p);
    }

    method Delete(uid: Uid) returns (r: Result<(), StorageError>)
      requires Valid()
      modifies primary, cache
      ensures Valid()
      ensures (r, primary.policies, cache.policies) ==
        EnfoldDelete(primary.faults, old(primary.policies), cache.faults, old(cache.policies), uid)
    {
      r := primary.Delete(uid);
      if r.Err? && !r.error.PolicyDeletion? {
        return;
      }
      r := cache.Delete(uid);
    }
  }

  /** Adds a page to a storage policy by policy, stopping at the first error. */
  method AddAll(store: Store, policies: seq<Policy>) returns (r: Result<(), StorageError>)
    requires store.Valid()
    modifies store
    ensures store.Valid()
    ensures (r, store.policies) == AddEach(store.faults, old(store.policies), policies)
  {
    var j := 0;
    while j < |policies|
      invariant 0 <= j <= |policies| && store.Valid()
      invariant AddEach(store.faults, old(store.policies), policies[..j]) == (Ok(()), store.policies)
    {
      assert policies[..j + 1][..j] == policies[..j];
      var added := store.Add(policies[j]);
      if added.Err? {
        AddEachStopsAtError(store.faults, old(store.policies), policies, j + 1);
        return Err(added.error);
      }
      j := j + 1;
    }
    assert policies[..j] == policies;
    r := Ok(());
  }

  /**
   * One pass of the warm-up loop at `offset`: fetch the page and add it to
   * the cache. It says whether the loop stops here, with an error or on an
   * empty page, or goes on at the next offset.
   */
  method WarmUpRound(primary: Store, cache: Store, offset: nat, stride: nat) returns (stop: bool, r: Result<(), StorageError>)
    requires stride > 0 && primary != cache && primary.Valid() && cache.Valid()
    modifies primary.log, cache
    ensures cache.Valid()
    ensures stop ==> (r, cache.policies) == WarmUp(primary.faults, primary.policies, cache.faults, old(cache.policies), offset, stride)
    ensures !stop ==> offset < |primary.policies|
    ensures !stop ==> WarmUp(primary.faults, primary.policies, cache.faults, old(cache.policies), offset, stride) ==
                      WarmUp(primary.faults, primary.policies, cache.faults, cache.policies, offset + stride, stride)
  {
    var page := primary.GetAll(WarmUpBatch, offset);
    if page.Err? {
      return true, Err(page.error);
    }
    var policies := page.value;
    if policies == [] {
      return true, Ok(());
    }
    var added := AddAll(cache, policies);
    WarmUpNext(primary.faults, primary.policies, cache.faults, old(cache.policies), offset, stride);
    if added.Err? {
      return true, Err(added.error);
    }
    stop, r := false, Ok(());
  }

  /**
   * The `while True` warm-up of `EnfoldCache.__init__`: page through the
   * primary, adding each page to the cache, moving `offset` on by `stride`.
   * An error stops the loop and is the outcome, the cache keeping what was
   * added before it.
   */
  method WarmUpLoop(primary: Store, cache: Store, stride: nat) returns (r: Result<(), StorageError>)
    requires stride > 0 && primary != cache && primary.Valid() && cache.Valid()
    modifies primary.log, cache
    ensures cache.Valid()
    ensures (r, cache.policies) == WarmUp(primary.faults, primary.policies, cache.faults, old(cache.policies), 0, stride)
  {
    ghost var goal := WarmUp(primary.faults, primary.policies, cache.faults, cache.policies, 0, stride);
    var offset: nat := 0;
    while true
      invariant cache.Valid()
      invariant goal == WarmUp(primary.faults, primary.policies, cache.faults, cache.policies, offset, stride)
      decreases |primary.policies| - offset
    {
      var stop, outcome := WarmUpRound(primary, cache, offset, stride);
      if stop {
        return outcome;
      }
      offset := offset + stride;
    }
  }

  /** One round of the warm-up: a non-empty page is added, then the loop goes on at the next offset. */
  lemma WarmUpNext(pf: Faults, pps: seq<Policy>, cf: Faults, cps: seq<Policy>, offset: nat, stride: nat)
    requires stride > 0 && GetAllCall !in pf && Page(pps, WarmUpBatch, offset) != []
    ensures var added := AddEach(cf, cps, Page(pps, WarmUpBatch, offset));
      WarmUp(pf, pps, cf, cps, offset, stride) ==
      if added.0.Err? then added else WarmUp(pf, pps, cf, added.1, offset + stride, stride)
  {
  }

  /**
   * `EnfoldCache(storage, cache, init)` as written: with `init`, the warm-up
   * runs with the offset advanced by one, and an error it raises is the
   * outcome. Warming an empty cache from a primary with two or more policies
   * therefore fails on the second policy.
   */
  method Open(primary: Store, cache: Store, init: bool) returns (r: Result<EnfoldCache, StorageError>)
    requires primary != cache && primary.log != cache.log && primary.Valid() && cache.Valid()
    modifies primary.log, cache
    ensures cache.Valid()
    ensures !init ==> r.Ok? && cache.policies == old(cache.policies)
    ensures !init ==> primary.log.pageReads == old(primary.log.pageReads)
    ensures init ==> (r.Ok? <==> WarmUp(primary.faults, primary.policies, cache.faults, old(cache.policies), 0, 1).0.Ok?)
    ensures init ==> cache.policies == WarmUp(primary.faults, primary.policies, cache.faults, old(cache.policies), 0, 1).1
    ensures init && r.Err? ==> Err(r.error) == WarmUp(primary.faults, primary.policies, cache.faults, old(cache.policies), 0, 1).0
    ensures init && GetAllCall !in primary.faults && AddCall !in cache.faults &&
            old(cache.policies) == [] && UniqueUids(primary.policies) ==>
            (r.Ok? <==> |primary.policies| <= 1) &&
            (|primary.policies| >= 2 ==> r.Err? && r.error == PolicyExists(primary.policies[1].uid))
    ensures r.Ok? ==> fresh(r.value) && r.value.primary == primary && r.value.cache == cache && r.value.Valid()
  {
    var c := new EnfoldCache(primary, cache);
    if init {
      if GetAllCall !in primary.faults && AddCall !in cache.faults && cache.policies == [] && UniqueUids(primary.policies) {
        WarmUpAsWrittenSucceedsIff(primary.faults, primary.policies, cache.faults);
        if |primary.policies| >= 2 {
          WarmUpAsWrittenRejectsSecondPage(primary.faults, primary.policies, cache.faults);
        }
      }
      var warmed := WarmUpLoop(primary, cache, 1);
      if warmed.Err? {
        return Err(warmed.error);
      }
    }
    r := Ok(c);
  }

  /**
   * The constructor as evidently intended: the warm-up advances the offset
   * by the page size. With no faults and uids unique across both tiers, the
   * cache ends as its old contents followed by every primary policy.
   */
  method OpenByBatch(primary: Store, cache: Store, init: bool) returns (r: Result<EnfoldCache, StorageError>)
    requires primary != cache && primary.log != cache.log && primary.Valid() && cache.Valid()
    modifies primary.log, cache
    ensures cache.Valid()
    ensures !init ==> r.Ok? && cache.policies == old(cache.policies)
    ensures !init ==> primary.log.pageReads == old(primary.log.pageReads)
    ensures init ==> (r.Ok? <==> WarmUp(primary.faults, primary.policies, cache.faults, old(cache.policies), 0, WarmUpBatch).0.Ok?)
    ensures init ==> cache.policies == WarmUp(primary.faults, primary.policies, cache.faults, old(cache.policies), 0, WarmUpBatch).1
    ensures init && r.Err? ==> Err(r.error) == WarmUp(primary.faults, primary.policies, cache.faults, old(cache.policies), 0, WarmUpBatch).0
    ensures init && GetAllCall !in primary.faults && AddCall !in cache.faults &&
            UniqueUids(old(cache.policies) + primary.policies) ==>
            r.Ok? && cache.policies == old(cache.policies) + primary.policies
    ensures r.Ok? ==> fresh(r.value) && r.value.primary == primary && r.value.cache == cache && r.value.Valid()
  {
    var c := new EnfoldCache(primary, cache);
    if init {
      if GetAllCall !in primary.faults && AddCall !in cache.faults && UniqueUids(cache.policies + primary.policies) {
        assert primary.policies[0..] == primary.policies;
        WarmUpByBatchCopiesPrimary(primary.faults, primary.policies, cache.faults, cache.policies, 0);
      }
      var warmed := WarmUpLoop(primary, cache, WarmUpBatch);
      if warmed.Err? {
        return Err(warmed.error);
      }
    }
    r := Ok(c);
  }

  // ----- GuardCache -----

  /** What `GuardCache.get` returns: `False` while stale, otherwise the candidate policies. */
  datatype Served = NotServed | Served(policies: seq<Policy>)

  /** A storage outcome as `GuardCache.get` passes it on. */
  function AsServed(outcome: Result<seq<Policy>, StorageError>): (r: Result<Served, StorageError>)
    ensures outcome.Ok? <==> r.Ok?
    ensures outcome.Ok? ==> r.value == Served(outcome.value)
    ensures outcome.Err? ==> r.error == outcome.error
  {
    match outcome
    case Ok(ps) => Ok(Served(ps))
    case Err(e) => Err(e)
  }

  /** The default `maxsize` of a `GuardCache`. */
  const DefaultGuardCacheSize: int := 1024

  class GuardCache {
    const storage: Store
    var stale: bool
    const memo: Memo.LruMemo<(Inquiry, Option<Checker>), seq<Policy>>
    /** How many times `find_for_inquiry` has been called on the storage. */
    ghost var storageCalls: nat

    ghost predicate Valid()
      reads this, memo
    {
      memo.Valid()
    }

    /** Every remembered answer is what the storage answers now. */
    ghost predicate Sound()
      reads this, memo, storage
    {
      forall k :: k in memo.table ==> FindOutcome(storage.faults, storage.policies, storage.selects, k.0, k.1) == Ok(memo.table[k])
    }

    constructor (storage: Store, maxsize: Option<int>)
      ensures Valid() && Sound()
      ensures this.storage == storage && stale && fresh(memo)
      ensures memo.maxsize == maxsize && memo.table == map[] && storageCalls == 0
    {
      this.storage := storage;
      stale := true;
      memo := new Memo.LruMemo(maxsize);
      storageCalls := 0;
    }

    method Get(inquiry: Inquiry, checker: Option<Checker>) returns (r: Result<Served, StorageError>)
      requires Valid()
      modifies this, memo
      ensures Valid() && stale == old(stale)
      ensures old(stale) ==> r == Ok(NotServed) && memo.table == old(memo.table) && storageCalls == old(storageCalls)
      ensures !old(stale) && (inquiry, checker) in old(memo.table) ==>
        r == Ok(Served(old(memo.table)[(inquiry, checker)])) && memo.table == old(memo.table) &&
        storageCalls == old(storageCalls)
      ensures !old(stale) && (inquiry, checker) !in old(memo.table) ==>
        r == AsServed(FindOutcome(storage.faults, storage.policies, storage.selects, inquiry, checker)) &&
        storageCalls == old(storageCalls) + 1
      ensures r.Err? ==> memo.table == old(memo.table)
      ensures !old(stale) && r.Ok? && memo.Capacity() != Some(0) ==>
        (inquiry, checker) in memo.table && r == Ok(Served(memo.table[(inquiry, checker)]))
      ensures !old(stale) && (inquiry, checker) !in old(memo.table) && r.Ok? &&
              (memo.Capacity().None? || |old(memo.table)| < memo.Capacity().value) ==>
        memo.table == old(memo.table)[(inquiry, checker) := r.value.policies]
      ensures forall k :: k in memo.table && k != (inquiry, checker) ==> k in old(memo.table) && memo.table[k] == old(memo.table)[k]
      ensures old(Sound()) ==> Sound()
      ensures !old(stale) && old(Sound()) ==>
        r == AsServed(FindOutcome(storage.faults, storage.policies, storage.selects, inquiry, checker))
    {
      if stale {
        return Ok(NotServed);
      }
      var key := (inquiry, checker);
      var hit := memo.Lookup(key);
      if hit.Some? {
        return Ok(Served(hit.value));
      }
      var found := storage.FindForInquiry(inquiry, checker);
      storageCalls := storageCalls + 1;
      if found.Err? {
        return Err(found.error);
      }
      memo.Remember(key, found.value);
      r := Ok(Served(found.value));
    }
  }

  /** `GuardCache(storage)` with the default `maxsize`. */
  method NewGuardCache(storage: Store) returns (g: GuardCache)
    ensures fresh(g) && fresh(g.memo) && g.storage == storage && g.stale
    ensures g.memo.maxsize == Some(DefaultGuardCacheSize) && g.memo.table == map[] && g.Valid() && g.Sound()
  {
    g := new GuardCache(storage, Some(DefaultGuardCacheSize));
  }

  /** The distinct pairs of a run of lookups. */
  ghost function Pairs(keys: seq<(Inquiry, Option<Checker>)>): set<(Inquiry, Option<Checker>)>
    decreases |keys|
  {
    if keys == [] then {} else Pairs(keys[..|keys| - 1]) + {keys[|keys| - 1]}
  }

  lemma {:induction false} PairsAreKeys(keys: seq<(Inquiry, Option<Checker>)>)
    ensures forall i :: 0 <= i < |keys| ==> keys[i] in Pairs(keys)
    ensures forall k :: k in Pairs(keys) ==> k in keys
    decreases |keys|
  {
    if keys != [] {
      var init := keys[..|keys| - 1];
      PairsAreKeys(init);
      assert forall i :: 0 <= i < |init| ==> init[i] == keys[i];
    }
  }

  /** Taking one more element of a sequence appends it; kept apart so the run's loop stays cheap. */
  lemma TakeSnoc<T>(s: seq<T>, i: nat)
    requires i < |s|
    ensures s[..i + 1] == s[..i] + [s[i]]
  {
  }

  /** Adding one key to a union adds it to its second part; kept apart so a lookup step stays cheap. */
  lemma UnionStep<T>(a: set<T>, b: set<T>, c: set<T>, k: T)
    requires a == b + c
    ensures a + {k} == b + (c + {k})
  {
  }

  lemma PairsStep(keys: seq<(Inquiry, Option<Checker>)>, i: nat)
    requires i < |keys|
    ensures Pairs(keys[..i + 1]) == Pairs(keys[..i]) + {keys[i]}
  {
    assert keys[..i + 1][..i] == keys[..i];
  }

  lemma PairsPrefix(keys: seq<(Inquiry, Option<Checker>)>, i: nat)
    requires i < |keys|
    ensures Pairs(keys[..i]) <= Pairs(keys) && keys[i] in Pairs(keys)
  {
    PairsAreKeys(keys);
    PairsAreKeys(keys[..i]);
    forall k | k in Pairs(keys[..i]) ensures k in Pairs(keys) {
      var j :| 0 <= j < i && keys[..i][j] == k;
      assert keys[j] == k;
    }
  }

  /** A pair not yet remembered still fits while every pair of the run fits. */
  lemma RoomForNext<T>(known: set<T>, seen: set<T>, all: set<T>, k: T, cap: nat)
    requires seen <= all && k in all && k !in known + seen && |known + all| <= cap
    ensures |known + seen| < cap
  {
    var grown := known + seen + {k};
    assert grown <= known + all;
    assert known + all == grown + (known + all - grown);
    assert |grown| == |known + seen| + 1;
  }

  /** The new pairs of a run grow by one exactly when the next pair is neither known nor seen. */
  lemma CallsStep<T>(known: set<T>, seen: set<T>, k: T)
    ensures k in known + seen ==> (seen + {k}) - known == seen - known
    ensures k !in known + seen ==> |(seen + {k}) - known| == |seen - known| + 1
  {
    if k !in known + seen {
      assert (seen + {k}) - known == (seen - known) + {k};
    }
  }

  /** One lookup of a pair that is remembered already or that fits: the storage's answer, and the pair remembered. */
  method LookupWithin(g: GuardCache, key: (Inquiry, Option<Checker>)) returns (r: Result<Served, StorageError>)
    requires g.Valid() && g.Sound() && !g.stale && FindCall !in g.storage.faults
    requires key in g.memo.table || g.memo.Capacity().None? || |g.memo.table| < g.memo.Capacity().value
    modifies g, g.memo
    ensures g.Valid() && g.Sound() && !g.stale && g.storage.policies == old(g.storage.policies)
    ensures r == AsServed(FindOutcome(g.storage.faults, g.storage.policies, g.storage.selects, key.0, key.1))
    ensures g.memo.table.Keys == old(g.memo.table.Keys) + {key}
    ensures g.storageCalls == old(g.storageCalls) + (if key in old(g.memo.table) then 0 else 1)
  {
    r := g.Get(key.0, key.1);
  }

  /** The `i`-th lookup of a run: the storage's answer, the pair remembered, a call only for a new pair. */
  method LookupStep(g: GuardCache, keys: seq<(Inquiry, Option<Checker>)>, i: nat, ghost known: set<(Inquiry, Option<Checker>)>)
    returns (r: Result<Served, StorageError>)
    requires i < |keys| && g.Valid() && g.Sound() && !g.stale && FindCall !in g.storage.faults
    requires g.memo.Capacity().None? || |known + Pairs(keys)| <= g.memo.Capacity().value
    requires g.memo.table.Keys == known + Pairs(keys[..i])
    modifies g, g.memo
    ensures g.Valid() && g.Sound() && !g.stale && g.storage.policies == old(g.storage.policies)
    ensures r == AsServed(FindOutcome(g.storage.faults, g.storage.policies, g.storage.selects, keys[i].0, keys[i].1))
    ensures g.memo.table.Keys == known + Pairs(keys[..i + 1])
    ensures g.storageCalls + |Pairs(keys[..i]) - known| == old(g.storageCalls) + |Pairs(keys[..i + 1]) - known|
  {
    var seen := Pairs(keys[..i]);
    assert keys[i] in g.memo.table || g.memo.Capacity().None? || |g.memo.table| < g.memo.Capacity().value by {
      if keys[i] !in g.memo.table && g.memo.Capacity().Some? {
        PairsPrefix(keys, i);
        RoomForNext(known, seen, Pairs(keys), keys[i], g.memo.Capacity().value);
      }
    }
    PairsStep(keys, i);
    CallsStep(known, seen, keys[i]);
    ghost var before := g.memo.table.Keys;
    r := LookupWithin(g, keys[i]);
    UnionStep(before, known, seen, keys[i]);
  }

  /**
   * A run of lookups on a guard cache that is not stale, over a storage that
   * does not fail, and that fits in `maxsize` together with what is already
   * remembered: every answer is the storage's, every pair ends up remembered,
   * and the storage is called once per pair not remembered before, so a
   * repeated pair never costs a second call.
   */
  method LookupRun(g: GuardCache, keys: seq<(Inquiry, Option<Checker>)>) returns (rs: seq<Result<Served, StorageError>>)
    requires g.Valid() && g.Sound() && !g.stale && FindCall !in g.storage.faults
    requires g.memo.Capacity().None? || |g.memo.table.Keys + Pairs(keys)| <= g.memo.Capacity().value
    modifies g, g.memo
    ensures g.Valid() && g.Sound() && !g.stale
    ensures |rs| == |keys|
    ensures forall i :: 0 <= i < |keys| ==>
      rs[i] == AsServed(FindOutcome(g.storage.faults, g.storage.policies, g.storage.selects, keys[i].0, keys[i].1))
    ensures g.memo.table.Keys == old(g.memo.table.Keys) + Pairs(keys)
    ensures g.storageCalls == old(g.storageCalls) + |Pairs(keys) - old(g.memo.table.Keys)|
  {
    ghost var known := g.memo.table.Keys;
    ghost var faults, stored, selects := g.storage.faults, g.storage.policies, g.storage.selects;
    ghost var answers := seq(|keys|, j requires 0 <= j < |keys| =>
      AsServed(FindOutcome(faults, stored, selects, keys[j].0, keys[j].1)));
    rs := [];
    var i := 0;
    while i < |keys|
      invariant 0 <= i <= |keys| && rs == answers[..i]
      invariant g.Valid() && g.Sound() && !g.stale && g.storage.policies == stored
      invariant g.memo.table.Keys == known + Pairs(keys[..i])
      invariant g.storageCalls == old(g.storageCalls) + |Pairs(keys[..i]) - known|
    {
      var r := LookupStep(g, keys, i, known);
      assert rs + [r] == answers[..i + 1] by {
        assert r == answers[i];
        TakeSnoc(answers, i);
      }
      rs := rs + [r];
      i := i + 1;
    }
    assert keys[..i] == keys;
  }

  /** A repeated lookup of the same pair is answered from the memo, calling the storage at most once in all. */
  method RepeatedLookup(g: GuardCache, inquiry: Inquiry, checker: Option<Checker>)
    returns (first: Result<Served, StorageError>, second: Result<Served, StorageError>)
    requires g.Valid() && g.Sound() && !g.stale && g.memo.Capacity() != Some(0)
    modifies g, g.memo
    ensures g.Valid() && g.Sound()
    ensures first == second
    ensures first == AsServed(FindOutcome(g.storage.faults, g.storage.policies, g.storage.selects, inquiry, checker))
    ensures first.Ok? ==> g.storageCalls <= old(g.storageCalls) + 1
  {
    first := g.Get(inquiry, checker);
    second := g.Get(inquiry, checker);
  }
}
