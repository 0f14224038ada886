/** Setting the lock of many branches in one transaction, with a result for each branch. */
module Locking {
  import opened Wrappers
  import opened Names
  import opened Metadata
  import opened MetadataTx

  datatype CommitResult = Written | Conflict | Broken

  /** A write to the records, by this process or by others: what it found and what it left. */
  datatype Write = Write(ours: bool, found: Store, left: Store)

  /** Each write found what the one before it left. */
  ghost predicate Chained(start: Store, writes: seq<Write>, end: Store) {
    if writes == [] then start == end
    else writes[|writes| - 1].left == end && Chained(start, writes[..|writes| - 1], writes[|writes| - 1].found)
  }

  lemma ChainedAppend(start: Store, writes: seq<Write>, w: Write)
    requires Chained(start, writes, w.found)
    ensures Chained(start, writes + [w], w.left)
  {
    assert (writes + [w])[..|writes|] == writes;
  }

  /** The metadata records as one process sees them while others write too. */
  class SharedStore {
    const calm: bool // no other process writes, and every read and commit goes through
    var records: Store
    ghost var writes: seq<Write>

    constructor (records: Store, calm: bool)
      ensures this.records == records && this.calm == calm && writes == []
    {
      this.records, this.calm, writes := records, calm, [];
    }

    /** Reads records and their versions, perhaps stale ones; any of them may be unreadable. */
    method ReadMetadata(names: seq<string>) returns (read: Versions, failed: set<string>)
      ensures read.Keys == Elems(names) - failed && failed <= Elems(names)
      ensures calm ==> failed == {} && forall b :: b in read ==> read[b] == Version(records, b)
    {
      if calm { return map b | b in Elems(names) :: Version(records, b), {}; }
      var versions: Versions := *;
      failed := *;
      failed := failed * Elems(names);
      read := map b | b in Elems(names) - failed :: if b in versions then versions[b] else None;
    }

    /** Writes every staged record if each is still at the version it was read at, and otherwise none. */
    method Commit(staged: Store, read: Versions) returns (r: CommitResult)
      requires staged.Keys <= read.Keys
      modifies this
      ensures r.Written? ==>
        records == old(records) + staged && forall b :: b in staged ==> read[b] == Version(old(records), b)
      ensures r.Written? ==> writes == old(writes) + [Write(true, old(records), records)]
      ensures !r.Written? ==> records == old(records) && writes == old(writes)
      ensures r == Conflict <==> r != Broken && exists b :: b in staged && read[b] != Version(old(records), b)
      ensures calm ==> r != Broken
    {
      if !calm { if * { return Broken; } }
      if forall b :: b in staged ==> read[b] == Version(records, b) {
        writes := writes + [Write(true, records, records + staged)];
        records := records + staged;
        return Written;
      }
      return Conflict;
    }

    /** Other processes write. */
    method Interfere()
      modifies this
      ensures writes == old(writes) + [Write(false, old(records), records)]
      ensures calm ==> records == old(records)
    {
      ghost var found := records;
      if !calm { records := *; }
      writes := writes + [Write(false, found, records)];
    }
  }

  /** Every named branch is in exactly one of the two lists, and no other branch is. */
  ghost predicate Reported(names: seq<string>, affected: seq<string>, errors: set<string>) {
    (forall n :: n in names ==> (n in affected <==> n !in errors)) &&
    (forall n :: n in affected || n in errors ==> n in names)
  }

  method NamesWithout(names: seq<string>, errors: set<string>) returns (q: seq<string>)
    ensures forall n :: n in q <==> n in names && n !in errors
  {
    q := [];
    for i := 0 to |names|
      invariant forall n :: n in q <==> n in names[..i] && n !in errors
    {
      assert names[..i + 1] == names[..i] + [names[i]];
      if names[i] !in errors { q := q + [names[i]]; }
    }
    assert names[..|names|] == names;
  }

  /** The affected branches hold the reason as their lock, and are otherwise as found, with an empty record where there
      was none; every other record is as found. */
  ghost predicate LocksExactly(found: Store, left: Store, affected: seq<string>, reason: string) {
    (forall b :: b in left <==> b in found || b in affected) &&
    (forall b :: b in found && b !in affected ==> left[b] == found[b]) &&
    (forall b :: b in found && b in affected ==> left[b] == found[b].(lockReason := reason)) &&
    (forall b :: b !in found && b in affected ==> left[b] == Meta(None, None, None, reason, ""))
  }

  /** Writing the locks staged from current records locks those branches. */
  lemma StagedLocks(found: Store, read: Versions, staged: Store, affected: seq<string>, reason: string)
    requires staged.Keys == Elems(affected) && staged.Keys <= read.Keys
    requires forall b :: b in staged ==>
      read[b] == Version(found, b) && staged[b] == Modify(Update.SetLocked({}, reason), Value(read[b]))
    ensures LocksExactly(found, found + staged, affected, reason)
  {
    assert forall b :: b in affected <==> b in staged;
  }

  /** So locking is the update that the lock of those branches is among concurrent writers. */
  lemma LockingIsApply(found: Store, left: Store, affected: seq<string>, reason: string)
    ensures LocksExactly(found, left, affected, reason) <==>
      left == Apply(found, Update.SetLocked(Elems(affected), reason))
  {
    var locked := Apply(found, Update.SetLocked(Elems(affected), reason));
    assert LocksExactly(found, locked, affected, reason);
    if LocksExactly(found, left, affected, reason) {
      forall b ensures b in left <==> b in locked
        ensures b in left ==> left[b] == locked[b]
      {
      }
    }
  }

  /** What a call that locks branches does to the records: its one write, if it makes any, comes after those of others
      and locks the affected branches in the records as it finds them. It writes whenever a branch is affected. */
  ghost predicate LocksOnce(start: Store, writes: seq<Write>, end: Store, affected: seq<string>, reason: string) {
    Chained(start, writes, end) &&
    if writes != [] && writes[|writes| - 1].ours then
      var last := writes[|writes| - 1];
      AllTheirs(writes[..|writes| - 1]) && LocksExactly(last.found, last.left, affected, reason)
    else
      AllTheirs(writes) && affected == []
  }

  ghost predicate AllTheirs(writes: seq<Write>) {
    forall w :: w in writes ==> !w.ours
  }

  lemma {:induction false} ChainedJoin(start: Store, writes: seq<Write>, mid: Store, more: seq<Write>, end: Store)
    requires Chained(start, writes, mid) && Chained(mid, more, end)
    ensures Chained(start, writes + more, end)
  {
    if more == [] {
      assert writes + more == writes;
    } else {
      var last := more[|more| - 1];
      ChainedJoin(start, writes, mid, more[..|more| - 1], last.found);
      assert (writes + more)[..|writes + more| - 1] == writes + more[..|more| - 1];
    }
  }

  /** Writes of others before a call do not matter to what it does. */
  lemma LocksLater(start: Store, writes: seq<Write>, mid: Store, more: seq<Write>, end: Store, affected: seq<string>,
      reason: string)
    requires Chained(start, writes, mid) && AllTheirs(writes) && LocksOnce(mid, more, end, affected, reason)
    ensures LocksOnce(start, writes + more, end, affected, reason)
  {
    ChainedJoin(start, writes, mid, more, end);
    if more == [] {
      assert writes + more == writes;
    } else {
      assert (writes + more)[..|writes + more| - 1] == writes + more[..|more| - 1];
    }
  }

  /** Two writes of others, and then perhaps the commit of the locks. */
  lemma AttemptLocks(start: Store, mid: Store, found: Store, end: Store, committed: bool, affected: seq<string>,
      reason: string)
    requires if committed then LocksExactly(found, end, affected, reason)
      else end == found && affected == []
    ensures LocksOnce(start, Attempt(start, mid, found, end, committed), end, affected, reason)
  {
    var w1, w2, w3 := Write(false, start, mid), Write(false, mid, found), Write(true, found, end);
    ChainedAppend(start, [], w1);
    ChainedAppend(start, [w1], w2);
    assert [] + [w1] == [w1] && [w1] + [w2] == [w1, w2];
    if committed {
      ChainedAppend(start, [w1, w2], w3);
      assert [w1, w2] + [w3] == [w1, w2, w3] && [w1, w2, w3][..2] == [w1, w2];
    }
  }

  ghost function Attempt(start: Store, mid: Store, found: Store, end: Store, committed: bool): seq<Write> {
    [Write(false, start, mid), Write(false, mid, found)] + if committed then [Write(true, found, end)] else []
  }

  /** The locks to write, made from the records read, and the branches that could not be read or staged. */
  ghost predicate IsStaged(names: seq<string>, reason: string, read: Versions, staged: Store, errors: set<string>) {
    staged.Keys <= read.Keys && staged.Keys == Elems(names) - errors && errors <= Elems(names) &&
    forall b :: b in staged ==> staged[b] == Modify(Update.SetLocked({}, reason), Value(read[b]))
  }

  /** Reads the records and stages the locks of those that could be read. */
  method StageLocks(store: SharedStore, names: seq<string>, reason: string)
    returns (read: Versions, staged: Store, errors: set<string>)
    ensures IsStaged(names, reason, read, staged, errors)
    ensures store.calm ==> errors == {} && forall b :: b in staged ==> read[b] == Version(store.records, b)
  {
    var failed, unstaged: set<string>;
    read, failed := store.ReadMetadata(names);
    unstaged := *;
    unstaged := if store.calm then {} else unstaged * read.Keys;
    errors := failed + unstaged;
    staged := map b | b in read.Keys - unstaged :: Modify(Update.SetLocked({}, reason), Value(read[b]));
  }

  /** Commits staged locks in one transaction; without any record read there is nothing to commit. */
  method CommitLocks(store: SharedStore, names: seq<string>, reason: string, read: Versions, staged: Store,
      unstaged: set<string>)
    returns (result: CommitResult, affected: seq<string>, errors: set<string>)
    requires IsStaged(names, reason, read, staged, unstaged)
    modifies store
    ensures Reported(names, affected, errors)
    ensures !result.Written? ==> affected == [] && store.records == old(store.records)
    ensures result.Written? ==> LocksExactly(old(store.records), store.records, affected, reason)
    ensures store.writes ==
      old(store.writes) + if result.Written? then [Write(true, old(store.records), store.records)] else []
    ensures read == map[] ==> result == Broken
    ensures result == Conflict ==> exists b :: b in staged && read[b] != Version(old(store.records), b)
    ensures store.calm && names != [] && unstaged == {} ==> result != Broken
    ensures result.Written? ==> errors == unstaged
  {
    if read == map[] {
      assert forall n :: n in Elems(names) ==> n !in staged.Keys;
      assert names != [] ==> names[0] in Elems(names);
      return Broken, [], unstaged;
    }
    result := store.Commit(staged, read);
    if !result.Written? { return result, [], Elems(names); }
    errors := unstaged;
    affected := NamesWithout(names, errors);
    assert Elems(affected) == staged.Keys;
    StagedLocks(old(store.records), read, staged, affected, reason);
  }

  /** One attempt, with others writing before each of its steps. A conflict can be retried. */
  method TryLock(store: SharedStore, names: seq<string>, reason: string)
    returns (result: CommitResult, affected: seq<string>, errors: set<string>, ghost done: seq<Write>)
    modifies store
    ensures Reported(names, affected, errors)
    ensures !result.Written? ==> affected == [] && AllTheirs(done)
    ensures store.writes == old(store.writes) + done
    ensures LocksOnce(old(store.records), done, store.records, affected, reason)
    ensures store.calm && names != [] ==> result == Written && errors == {}
  {
    store.Interfere();
    ghost var mid := store.records;
    var read, staged, unstaged := StageLocks(store, names, reason);
    store.Interfere();
    ghost var found := store.records;
    result, affected, errors := CommitLocks(store, names, reason, read, staged, unstaged);
    done := Attempt(old(store.records), mid, found, store.records, result.Written?);
    AttemptLocks(old(store.records), mid, found, store.records, result.Written?, affected, reason);
  }

  /** Locks branches. Attempts that conflict are repeated, five times in all at most, unless the caller gives up; the
      last attempt reports each branch once: affected ones are locked, with the rest of their record as the commit found
      it; the others have an error. The call writes at most once, and nothing but those locks. */
  method SetLocked(store: SharedStore, names: seq<string>, reason: string)
    returns (ok: bool, affected: seq<string>, errors: set<string>, ghost done: seq<Write>,
      ghost results: seq<CommitResult>)
    modifies store
    ensures Reported(names, affected, errors)
    ensures ok <==> errors == {}
    ensures store.writes == old(store.writes) + done
    ensures LocksOnce(old(store.records), done, store.records, affected, reason)
    ensures |results| <= 5 && (results == [] <==> names == [])
    ensures forall i :: 0 <= i < |results| - 1 ==> results[i] == Conflict
    ensures affected != [] ==> results != [] && results[|results| - 1] == Written
    ensures store.calm ==> ok
  {
    ok, affected, errors, done, results := true, [], {}, [], [];
    if names == [] { return; }
    for attempt := 0 to MAX_RETRIES
      invariant affected == [] && (ok <==> errors == {}) && (attempt > 0 ==> Reported(names, affected, errors))
      invariant store.writes == old(store.writes) + done && AllTheirs(done)
      invariant Chained(old(store.records), done, store.records)
      invariant store.calm ==> attempt == 0
      invariant |results| == attempt && forall i :: 0 <= i < attempt ==> results[i] == Conflict
    {
      ghost var start, more := store.records, [];
      var result;
      result, affected, errors, more := TryLock(store, names, reason);
      ok := errors == {};
      LocksLater(old(store.records), done, start, more, store.records, affected, reason);
      done, results := done + more, results + [result];
      if result != Conflict { return; }
      if * { return; }
    }
  }
}
