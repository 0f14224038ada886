/** Concurrent read-modify-commit-retry loops over the metadata records, with compare-and-swap commits. */
module MetadataTx {
  import opened Wrappers
  import opened Metadata

  const MAX_RETRIES: nat := 5

  // ---------- The updates the retry loops make ----------

  datatype Update =
    | SetParentName(branch: string, parent: string)
    | UpdateParentRevision(branch: string, rev: string)
    | SetParentRecomputing(branch: string, parent: string, mergeBase: string, keeps: Meta -> bool)
    | SetScope(branch: string, scope: string)
    | SetLocked(branches: set<string>, reason: string)

  function Targets(u: Update): set<string> {
    match u
    case SetLocked(bs, _) => bs
    case _ => {u.branch}
  }

  /** What an attempt at goal may stage. A reparent computes its merge base, and whether the old revision is kept, anew
      on each attempt; a lock leaves out the branches whose records cannot be read or staged. */
  ghost predicate Attempts(goal: Update, u: Update) {
    match goal
    case SetParentRecomputing(b, p, _, _) => u.SetParentRecomputing? && u.branch == b && u.parent == p
    case SetLocked(bs, reason) => u.SetLocked? && u.reason == reason && {} < u.branches <= bs
    case _ => u == goal
  }

  /** The record an update writes, made from the record it read. */
  function Modify(u: Update, m: Meta): Meta {
    match u
    case SetParentName(_, p) => m.(parent := Some(p))
    case UpdateParentRevision(_, rev) => m.(revision := Some(rev))
    case SetParentRecomputing(_, p, base, keeps) =>
      m.(parent := Some(p), revision := if keeps(m) then m.revision else Some(base))
    case SetScope(_, s) => m.(scope := if s == "" then None else Some(s))
    case SetLocked(_, reason) => m.(lockReason := reason)
  }

  /** The store once an update is applied to the records as they stand. */
  function Apply(store: Store, u: Update): Store {
    store + map b | b in Targets(u) :: Modify(u, Value(Version(store, b)))
  }

  function Replay(store: Store, log: seq<Update>): Store {
    if log == [] then store else Apply(Replay(store, log[..|log| - 1]), log[|log| - 1])
  }

  // ---------- Writers ----------

  type Versions = map<string, Option<Meta>>

  /** A writer that succeeded has committed its update; a lock reports just the branches of that update as affected. */
  datatype Writer =
    | Trying(goal: Update, attempt: nat)
    | Prepared(goal: Update, attempt: nat, update: Update, read: Versions)
    | Succeeded(goal: Update, update: Update)
    | Failed(goal: Update)

  datatype Committed = Committed(writer: nat, update: Update)

  /** The records, the writers and the commits so far, in order. */
  datatype System = System(store: Store, writers: seq<Writer>, commits: seq<Committed>)

  ghost predicate Init(s: System) {
    s.commits == [] && forall w :: 0 <= w < |s.writers| ==> s.writers[w].Trying? && s.writers[w].attempt == 0
  }

  /** Git is asked anew and the records are read, perhaps from a stale cache: any versions at all. */
  ghost predicate Read(s: System, w: nat, u: Update, read: Versions, s': System) {
    w < |s.writers| && s.writers[w].Trying? && Attempts(s.writers[w].goal, u) && read.Keys == Targets(u) &&
    s' == s.(writers := s.writers[w := Prepared(s.writers[w].goal, s.writers[w].attempt, u, read)])
  }

  /** The versions read are the ones the store holds. */
  ghost predicate Current(store: Store, read: Versions) {
    forall b :: b in read ==> read[b] == Version(store, b)
  }

  function Written(u: Update, read: Versions): Store {
    map b | b in read :: Modify(u, Value(read[b]))
  }

  /** One atomic compare-and-swap over every staged record; a mismatch retries until the attempts run out. */
  ghost predicate Commit(s: System, w: nat, s': System) {
    w < |s.writers| && s.writers[w].Prepared? &&
    var p := s.writers[w];
    if Current(s.store, p.read) then
      s' == System(s.store + Written(p.update, p.read), s.writers[w := Succeeded(p.goal, p.update)],
        s.commits + [Committed(w, p.update)])
    else if p.attempt + 1 < MAX_RETRIES then
      s' == s.(writers := s.writers[w := Trying(p.goal, p.attempt + 1)])
    else
      s' == s.(writers := s.writers[w := Failed(p.goal)])
  }

  /** Any other error ends the loop. */
  ghost predicate Abort(s: System, w: nat, s': System) {
    w < |s.writers| && (s.writers[w].Trying? || s.writers[w].Prepared?) &&
      s' == s.(writers := s.writers[w := Failed(s.writers[w].goal)])
  }

  ghost predicate Act(s: System, w: nat, s': System) {
    Commit(s, w, s') || Abort(s, w, s') || exists u, read :: Read(s, w, u, read, s')
  }

  ghost predicate Next(s: System, s': System) {
    exists w: nat :: Act(s, w, s')
  }

  ghost predicate Run(states: seq<System>) {
    states != [] && Init(states[0]) && forall i :: 0 <= i < |states| - 1 ==> Next(states[i], states[i + 1])
  }

  // ---------- What every step keeps ----------

  function Updates(commits: seq<Committed>): (r: seq<Update>)
    ensures |r| == |commits| && forall i :: 0 <= i < |r| ==> r[i] == commits[i].update
  {
    seq(|commits|, i requires 0 <= i < |commits| => commits[i].update)
  }

  ghost predicate IsDone(writer: Writer, u: Update) {
    writer.Succeeded? && writer.update == u
  }

  /** A writer's commit is in the log exactly once if it succeeded and never otherwise. */
  ghost predicate Acknowledged(s: System) {
    (forall i, j :: 0 <= i < j < |s.commits| ==> s.commits[i].writer != s.commits[j].writer) &&
    (forall c :: c in s.commits ==> c.writer < |s.writers| && IsDone(s.writers[c.writer], c.update)) &&
    (forall w :: 0 <= w < |s.writers| && s.writers[w].Succeeded? ==> Committed(w, s.writers[w].update) in s.commits)
  }

  /** Writers stage attempts at their goals, hold versions of exactly the records they stage, and keep within the retry
      bound. */
  ghost predicate WellStaged(s: System) {
    forall w :: 0 <= w < |s.writers| ==> IsWellStaged(s.writers[w])
  }

  ghost predicate IsWellStaged(writer: Writer) {
    match writer
    case Trying(_, attempt) => attempt < 5
    case Prepared(goal, attempt, u, read) => attempt < 5 && Attempts(goal, u) && read.Keys == Targets(u)
    case Succeeded(goal, u) => Attempts(goal, u)
    case Failed(_) => true
  }

  ghost predicate Inv(initial: Store, s: System) {
    s.store == Replay(initial, Updates(s.commits)) && Acknowledged(s) && WellStaged(s)
  }

  lemma ReplayAppend(store: Store, log: seq<Update>, u: Update)
    ensures Replay(store, log + [u]) == Apply(Replay(store, log), u)
  {
    assert (log + [u])[..|log|] == log;
  }

  /** A swap that finds the versions it read writes what a swap on the current records would write. */
  lemma SwapIsApply(store: Store, u: Update, read: Versions)
    requires read.Keys == Targets(u) && Current(store, read)
    ensures store + Written(u, read) == Apply(store, u)
  {
  }

  /** A writer not yet done has no commit, so its swap is logged for the first time. */
  lemma SwapAcknowledged(s: System, w: nat, s': System)
    requires Acknowledged(s) && w < |s.writers| && s.writers[w].Prepared?
    requires s'.writers == s.writers[w := Succeeded(s.writers[w].goal, s.writers[w].update)]
    requires s'.commits == s.commits + [Committed(w, s.writers[w].update)]
    ensures Acknowledged(s')
  {
    assert forall i :: 0 <= i < |s.commits| ==> s.commits[i] in s.commits;
    assert forall c :: c in s'.commits ==> c in s.commits || c == Committed(w, s.writers[w].update);
    forall v | 0 <= v < |s'.writers| && s'.writers[v].Succeeded?
      ensures Committed(v, s'.writers[v].update) in s'.commits
    {
      if v == w {
        assert s'.commits[|s.commits|] == Committed(w, s.writers[w].update);
      } else {
        assert s'.writers[v] == s.writers[v];
      }
    }
  }

  lemma SwapReplays(initial: Store, s: System, w: nat, s': System)
    requires Inv(initial, s) && Commit(s, w, s') && Current(s.store, s.writers[w].read)
    ensures s'.store == Replay(initial, Updates(s'.commits))
  {
    var p := s.writers[w];
    SwapIsApply(s.store, p.update, p.read);
    assert Updates(s'.commits) == Updates(s.commits) + [p.update];
    ReplayAppend(initial, Updates(s.commits), p.update);
  }

  lemma SwapKeepsInv(initial: Store, s: System, w: nat, s': System)
    requires Inv(initial, s) && Commit(s, w, s') && Current(s.store, s.writers[w].read)
    ensures Inv(initial, s') && s.commits <= s'.commits
  {
    SwapReplays(initial, s, w, s');
    SwapAcknowledged(s, w, s');
  }

  /** Reading, giving up and going back for another attempt touch neither records nor commits. */
  lemma OthersKeepInv(initial: Store, s: System, w: nat, s': System)
    requires Inv(initial, s) && Act(s, w, s') && !(Commit(s, w, s') && Current(s.store, s.writers[w].read))
    ensures Inv(initial, s') && s.commits == s'.commits
  {
    assert forall c :: c in s.commits ==> c.writer != w;
  }

  lemma NextKeepsInv(initial: Store, s: System, s': System)
    requires Inv(initial, s) && Next(s, s')
    ensures Inv(initial, s') && s.commits <= s'.commits
  {
    var w: nat :| Act(s, w, s');
    if Commit(s, w, s') && Current(s.store, s.writers[w].read) {
      SwapKeepsInv(initial, s, w, s');
    } else {
      OthersKeepInv(initial, s, w, s');
    }
  }

  /** Each writer is still at the update it set out to make. */
  ghost predicate SameGoals(s: System, s': System) {
    |s'.writers| == |s.writers| && forall w :: 0 <= w < |s.writers| ==> s'.writers[w].goal == s.writers[w].goal
  }

  lemma NextKeepsGoals(s: System, s': System)
    requires Next(s, s')
    ensures SameGoals(s, s')
  {
  }

  /** Whatever the interleaving, the records are those of the committed updates applied in commit order, and each writer
      that succeeded has committed an attempt at the update it set out to make exactly once, each that failed not at
      all. */
  lemma {:induction false} RunsReplayCommits(states: seq<System>, n: nat)
    requires Run(states) && n < |states|
    ensures Inv(states[0].store, states[n]) && SameGoals(states[0], states[n])
  {
    if n > 0 {
      RunsReplayCommits(states, n - 1);
      NextKeepsGoals(states[n - 1], states[n]);
      NextKeepsInv(states[0].store, states[n - 1], states[n]);
    }
  }

  // ---------- No update is silently lost ----------

  datatype Field = ParentField | RevisionField | ScopeField | LockField

  ghost predicate Touches(u: Update, b: string, f: Field) {
    match u
    case SetParentName(c, _) => b == c && f == ParentField
    case UpdateParentRevision(c, _) => b == c && f == RevisionField
    case SetParentRecomputing(c, _, _, _) => b == c && f in {ParentField, RevisionField}
    case SetScope(c, _) => b == c && f == ScopeField
    case SetLocked(bs, _) => b in bs && f == LockField
  }

  /** Two records agree on a field. */
  ghost predicate SameField(m: Meta, m': Meta, f: Field) {
    match f
    case ParentField => m.parent == m'.parent
    case RevisionField => m.revision == m'.revision
    case ScopeField => m.scope == m'.scope
    case LockField => m.lockReason == m'.lockReason
  }

  /** The record of b, an empty one where there is none. */
  function RecordOf(store: Store, b: string): Meta {
    if b in store then store[b] else Meta(None, None, None, "", "")
  }

  /** The record of b holds what u is to write to field f, u having found the record m. */
  ghost predicate Holds(store: Store, b: string, f: Field, u: Update, m: Meta) {
    b in store &&
    match u
    case SetParentName(_, p) => store[b].parent == Some(p)
    case UpdateParentRevision(_, rev) => store[b].revision == Some(rev)
    case SetParentRecomputing(_, p, base, keeps) =>
      if f == ParentField then store[b].parent == Some(p)
      else store[b].revision == if keeps(m) then m.revision else Some(base)
    case SetScope(_, s) => store[b].scope == if s == "" then None else Some(s)
    case SetLocked(_, reason) => store[b].lockReason == reason
  }

  /** An update touches no record but those it is for, and of those only the fields it is about. */
  lemma UntouchedByOne(store: Store, u: Update, b: string, f: Field)
    requires !Touches(u, b, f)
    ensures SameField(RecordOf(store, b), RecordOf(Apply(store, u), b), f)
    ensures b in store ==> b in Apply(store, u)
    ensures RecordOf(Apply(store, u), b).branchType == RecordOf(store, b).branchType
  {
  }

  lemma {:induction false} UntouchedStands(store: Store, log: seq<Update>, b: string, f: Field)
    requires forall u :: u in log ==> !Touches(u, b, f)
    ensures SameField(RecordOf(store, b), RecordOf(Replay(store, log), b), f)
    ensures b in store ==> b in Replay(store, log)
  {
    if log != [] {
      var init, u := log[..|log| - 1], log[|log| - 1];
      UntouchedStands(store, init, b, f);
      assert u in log;
      UntouchedByOne(Replay(store, init), u, b, f);
    }
  }

  lemma {:induction false} ReplayConcat(store: Store, a: seq<Update>, b: seq<Update>)
    ensures Replay(store, a + b) == Replay(Replay(store, a), b)
  {
    if b == [] {
      assert a + b == a;
    } else {
      assert (a + b)[..|a + b| - 1] == a + b[..|b| - 1];
      ReplayConcat(store, a, b[..|b| - 1]);
    }
  }

  /** An update writes what it is to write. */
  lemma AppliedHolds(store: Store, u: Update, b: string, f: Field)
    requires Touches(u, b, f)
    ensures Holds(Apply(store, u), b, f, u, RecordOf(store, b))
  {
  }

  lemma StandsInLog(store: Store, log: seq<Update>, k: nat, b: string, f: Field)
    requires k < |log| && Touches(log[k], b, f) && forall j :: k < j < |log| ==> !Touches(log[j], b, f)
    ensures Holds(Replay(store, log), b, f, log[k], RecordOf(Replay(store, log[..k]), b))
  {
    var upTo, late := log[..k] + [log[k]], log[k + 1..];
    assert log == upTo + late;
    ReplayConcat(store, upTo, late);
    UntouchedStands(Replay(store, upTo), late, b, f);
    ReplayAppend(store, log[..k], log[k]);
    AppliedHolds(Replay(store, log[..k]), log[k], b, f);
  }

  /** States follow one another, and the k-th commit is the one made between two of them. */
  ghost predicate CommitsBetween(states: seq<System>, i: nat, k: nat) {
    i + 1 < |states| && |states[i].commits| == k && |states[i + 1].commits| == k + 1
  }

  /** A writer that finds the records as they stand, and that no other disturbs, succeeds in two steps, and every field
      its attempt touches holds what it is to write. */
  lemma UndisturbedSucceeds(s: System, w: nat, u: Update) returns (mid: System, s': System)
    requires w < |s.writers| && s.writers[w].Trying? && Attempts(s.writers[w].goal, u)
    ensures Act(s, w, mid) && Act(mid, w, s') && s'.writers[w] == Succeeded(s.writers[w].goal, u)
    ensures s'.commits == s.commits + [Committed(w, u)]
    ensures forall b, f :: Touches(u, b, f) ==> Holds(s'.store, b, f, u, RecordOf(s.store, b))
    ensures forall b, f :: !Touches(u, b, f) ==> SameField(RecordOf(s.store, b), RecordOf(s'.store, b), f)
  {
    var goal, attempt := s.writers[w].goal, s.writers[w].attempt;
    var read := map b | b in Targets(u) :: Version(s.store, b);
    mid := s.(writers := s.writers[w := Prepared(goal, attempt, u, read)]);
    assert Read(s, w, u, read, mid);
    s' := System(mid.store + Written(u, read), mid.writers[w := Succeeded(goal, u)], mid.commits + [Committed(w, u)]);
    assert Commit(mid, w, s');
    SwapIsApply(s.store, u, read);
    forall b, f ensures Touches(u, b, f) ==> Holds(s'.store, b, f, u, RecordOf(s.store, b))
      ensures !Touches(u, b, f) ==> SameField(RecordOf(s.store, b), RecordOf(s'.store, b), f)
    {
      if Touches(u, b, f) { AppliedHolds(s.store, u, b, f); } else { UntouchedByOne(s.store, u, b, f); }
    }
  }

  /** A writer whose records have changed since it read them writes nothing, and tries again while it has attempts. */
  lemma DisturbedRetries(s: System, w: nat, s': System)
    requires Commit(s, w, s') && exists b :: b in s.writers[w].read && s.writers[w].read[b] != Version(s.store, b)
    ensures s'.store == s.store && s'.commits == s.commits
    ensures s'.writers[w] == if s.writers[w].attempt < 4 then Trying(s.writers[w].goal, s.writers[w].attempt + 1)
      else Failed(s.writers[w].goal)
  {
  }

  /** A step adds one commit to the log or none. */
  lemma NextGrows(s: System, s': System)
    requires Next(s, s')
    ensures s.commits <= s'.commits && |s'.commits| <= |s.commits| + 1
  {
  }

  lemma {:induction false} CommitsGrow(states: seq<System>, m: nat, n: nat)
    requires Run(states) && m <= n < |states|
    ensures states[m].commits <= states[n].commits
  {
    if m < n {
      CommitsGrow(states, m, n - 1);
      NextGrows(states[n - 1], states[n]);
    }
  }

  /** Every commit was made at some step. */
  lemma {:induction false} CommitFound(states: seq<System>, n: nat, k: nat) returns (i: nat)
    requires Run(states) && n < |states| && k < |states[n].commits|
    ensures i < n && CommitsBetween(states, i, k)
  {
    NextGrows(states[n - 1], states[n]);
    if k < |states[n - 1].commits| { i := CommitFound(states, n - 1, k); } else { i := n - 1; }
  }

  /** The update is the one asked for, its git answers apart, or for a lock the same on some of the branches named. */
  ghost predicate IsAnswerTo(goal: Update, u: Update) {
    match (goal, u)
    case (SetParentName(b, p), SetParentName(b', p')) => b == b' && p == p'
    case (UpdateParentRevision(b, rev), UpdateParentRevision(b', rev')) => b == b' && rev == rev'
    case (SetParentRecomputing(b, p, _, _), SetParentRecomputing(b', p', _, _)) => b == b' && p == p'
    case (SetScope(b, x), SetScope(b', x')) => b == b' && x == x'
    case (SetLocked(bs, reason), SetLocked(bs', reason')) => reason == reason' && bs' != {} && bs' <= bs
    case _ => false
  }

  /** In any run, a writer that succeeded made one commit, of what it set out to do. */
  lemma SucceededOnce(states: seq<System>, n: nat, w: nat) returns (k: nat)
    requires Run(states) && n < |states| && w < |states[n].writers| && states[n].writers[w].Succeeded?
    ensures k < |states[n].commits| && |states[0].writers| == |states[n].writers|
    ensures IsAnswerTo(states[0].writers[w].goal, states[n].commits[k].update)
    ensures forall j :: 0 <= j < |states[n].commits| ==> (states[n].commits[j].writer == w <==> j == k)
  {
    RunsReplayCommits(states, n);
    k :| 0 <= k < |states[n].commits| && states[n].commits[k] == Committed(w, states[n].writers[w].update);
    assert IsWellStaged(states[n].writers[w]);
  }

  /** And one that has not made none. */
  lemma UnfinishedWroteNothing(states: seq<System>, n: nat, w: nat)
    requires Run(states) && n < |states| && w < |states[n].writers| && !states[n].writers[w].Succeeded?
    ensures forall c :: c in states[n].commits ==> c.writer != w
  {
    RunsReplayCommits(states, n);
  }

  /** In any run, a field an acknowledged update wrote holds what that update was to write, given the record it found,
      until a later acknowledged update of the same field: no other commit, of whatever writer, loses it. */
  lemma AcknowledgedStands(states: seq<System>, n: nat, k: nat, b: string, f: Field) returns (i: nat)
    requires Run(states) && n < |states| && k < |states[n].commits| && Touches(states[n].commits[k].update, b, f)
    requires forall j :: k < j < |states[n].commits| ==> !Touches(states[n].commits[j].update, b, f)
    ensures i < n && CommitsBetween(states, i, k) && states[i + 1].commits[k] == states[n].commits[k]
    ensures Holds(states[n].store, b, f, states[n].commits[k].update, RecordOf(states[i].store, b))
  {
    i := CommitFound(states, n, k);
    RunsReplayCommits(states, i);
    RunsReplayCommits(states, n);
    CommitsGrow(states, i, n);
    CommitsGrow(states, i + 1, n);
    assert Updates(states[n].commits)[..k] == Updates(states[i].commits);
    StandsInLog(states[0].store, Updates(states[n].commits), k, b, f);
  }
}
