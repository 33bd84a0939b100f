// Every history of the calls that write the citation tables: adding works, projecting provider edges, building
// parsed edges, and deciding review items (project/review.py).
module CitationHistory {
  import opened Prelude
  import opened CitationTables
  import opened ProviderCache
  import opened ProviderEdges
  import opened ParsedBib
  import opened ParsedBibLaws

  // What an approval resolves to: a work named by its id, a candidate that identity.upsert_work turns into a work,
  // or nothing usable (no candidate, several, an index out of range, no identity fields).
  datatype Choice = Named(work: WorkId) | Candidate(work: WorkId) | Unusable

  datatype Op =
    | NewWork(work: WorkId)
    | ProjectProvider(dir: Directory, rows: map<Key, seq<CacheRow>>, fold: RawId -> Option<RawId>, now: int, run: RunId)
    | Parse(env: Environment, work: WorkId, run: RunId, force: bool)
    | Approve(item: RefId, choice: Choice, scope: Option<RunId>)
    | Reject(item: RefId)

  // ----- Approving a citation_resolution item -----

  /** The approval is accepted: the item is open and scoped to a run, its target is a work, and the foreign key to
      the entry holds (or the edge is already there). */
  predicate Approvable(t: Tables, item: RefId, choice: Choice, run: Option<RunId>) {
    && item in t.reviews && run.Some? && !choice.Unusable?
    && (choice.Named? ==> choice.work in t.works)
    && (item in t.entries || EdgeKey(t.reviews[item], choice.work, ManualOverride, run.value) in t.edges)
  }

  /** The tables after an approval that went through. */
  function Approved(t: Tables, item: RefId, choice: Choice, run: RunId): Tables
    requires item in t.reviews && !choice.Unusable?
  {
    var t1 := if choice.Candidate? then Upserted(t, choice.work) else t;
    var t2 := WithEdge(t1, EdgeKey(t.reviews[item], choice.work, ManualOverride, run), EdgeRow(1.0, Some(item)));
    var t3 := if item in t.entries then Updated(t2, item, Decided(t.entries[item], choice.work, Some(1.0))) else t2;
    t3.(reviews := t3.reviews - {item})
  }

  /** The statements of an approval, up to the foreign key's refusal. */
  method WriteApproval(db: ProjectDb, item: RefId, choice: Choice, run: RunId) returns (ok: bool)
    requires db.Sound() && Settled(db.Snapshot()) && item in db.reviews && !choice.Unusable?
    requires choice.Named? ==> choice.work in db.works
    modifies db
    ensures db.Sound() && Steps(old(db.log), db.log)
    ensures ok <==> Approvable(old(db.Snapshot()), item, choice, Some(run))
    ensures ok ==> db.Snapshot() == Approved(old(db.Snapshot()), item, choice, run)
  {
    ghost var start := db.log;
    var citing := db.reviews[item];
    assert ReviewOk(db.Snapshot(), item);
    if choice.Candidate? {
      db.UpsertWork(choice.work);
    }
    ghost var log := db.log;
    ok := db.WriteEdge(EdgeKey(citing, choice.work, ManualOverride, run), 1.0, Some(item));
    StepsJoin(start, log, db.log);
    if ok {
      log := db.log;
      DecideItem(db, item, choice.work);
      StepsJoin(start, log, db.log);
    }
  }

  /** The entry gets its target, if it still exists, and the item is closed. */
  method DecideItem(db: ProjectDb, item: RefId, work: WorkId)
    requires db.Sound() && item in db.reviews && work in db.works
    modifies db
    ensures db.Sound() && Steps(old(db.log), db.log)
    ensures var t := old(db.Snapshot());
            var t3 := if item in t.entries then Updated(t, item, Decided(t.entries[item], work, Some(1.0))) else t;
            db.Snapshot() == t3.(reviews := t3.reviews - {item})
  {
    ghost var start := db.log;
    var updated := db.UpdateEntry(item, Resolved, Some(work), Some(1.0));
    ghost var log := db.log;
    db.CloseReview(item);
    StepsJoin(start, log, db.log);
  }

  /** Approving writes a manual-override edge, decides the entry and closes the item, or changes nothing. */
  method ApproveItem(db: ProjectDb, item: RefId, choice: Choice, run: Option<RunId>) returns (ok: bool)
    requires db.Sound() && Settled(db.Snapshot())
    modifies db
    ensures db.Sound() && Settled(db.Snapshot()) && Transaction(old(db.log), db.log)
    ensures ok <==> Approvable(old(db.Snapshot()), item, choice, run)
    ensures !ok ==> db.Snapshot() == old(db.Snapshot())
    ensures ok ==> db.Snapshot() == Approved(old(db.Snapshot()), item, choice, run.value)
  {
    if item !in db.reviews || run.None? || choice.Unusable? || (choice.Named? && choice.work !in db.works) {
      return false;
    }
    var begin := db.Snapshot();
    ok := WriteApproval(db, item, choice, run.value);
    if ok {
      ApprovedSettled(begin, item, choice, run.value);
    } else {
      ghost var undone := db.log;
      db.Rollback(begin);
      assert Init(db.log) == undone;
    }
  }

  lemma ApprovedSettled(t: Tables, item: RefId, choice: Choice, run: RunId)
    requires Settled(t) && item in t.reviews && !choice.Unusable? && Valid(Approved(t, item, choice, run))
    ensures Settled(Approved(t, item, choice, run))
  {
    var t' := Approved(t, item, choice, run);
    forall r | r in t'.entries
      ensures r in t.entries && SameSource(t.entries[r], t'.entries[r])
    {
    }
    forall r | r in t'.reviews && r in t'.entries
      ensures t'.entries[r].status != Resolved
    {
      assert r in t.reviews && r != item && t'.entries[r] == t.entries[r];
    }
  }

  predicate SameSource(e: Entry, e': Entry) {
    e'.citing == e.citing && e'.markdownHash == e.markdownHash
  }

  // ----- Histories -----

  /** What a call makes of the tables. */
  ghost predicate Effected(t0: Tables, t1: Tables, op: Op) {
    match op
    case NewWork(w) => t1 == Upserted(t0, w)
    case ProjectProvider(dir, rows, fold, now, run) =>
      if !InTables(dir, t0) then t1 == t0
      else
        var items := AllItems(dir.works, rows, fold, now);
        exists written, unresolved :: ProjectionOf(t0, t1, items, dir, fold, run, written, unresolved)
    case Parse(env, w, run, force) =>
      if env.markdown.None? || w !in t0.works then t1 == t0
      else if NeedsParse(t0, w, env.markdown.value, force) && !StageASucceeds(t0, env, w) then t1 == t0
      else Called(t0, t1, env, w, run, force)
    case Approve(item, choice, run) =>
      t1 == if Approvable(t0, item, choice, run) then Approved(t0, item, choice, run.value) else t0
    case Reject(item) => t1 == t0.(reviews := t0.reviews - {item})
  }

  lemma EdgesOnlySettled(t0: Tables, t1: Tables)
    requires Settled(t0) && Valid(t1) && t1 == t0.(edges := t1.edges)
    ensures Settled(t1)
  {
  }

  method Step(db: ProjectDb, op: Op)
    requires db.Sound() && Settled(db.Snapshot())
    modifies db
    ensures db.Sound() && Settled(db.Snapshot()) && Transaction(old(db.log), db.log)
    ensures Effected(old(db.Snapshot()), db.Snapshot(), op)
  {
    ghost var before := db.Snapshot();
    match op {
      case NewWork(w) =>
        db.UpsertWork(w);
      case ProjectProvider(dir, rows, fold, now, run) =>
        // The rows are read from the tables, so they name existing works.
        var known := forall i :: 0 <= i < |dir.works| ==> dir.works[i].id in db.works;
        var listed := forall i :: 0 <= i < |dir.identifiers| ==> dir.identifiers[i].1 in db.works;
        if known && listed {
          var written, unresolved := ProjectProviderEdges(db, dir, rows, fold, now, run);
          EdgesOnlySettled(before, db.Snapshot());
        }
      case Parse(env, w, run, force) =>
        // work_source_files.work_id is a foreign key, so only an existing work can have markdown.
        if env.markdown.None? || w in db.works {
          var r := BuildParsedEdges(db, env, w, run, force);
        }
      case Approve(item, choice, run) =>
        var ok := ApproveItem(db, item, choice, run);
      case Reject(item) =>
        db.CloseReview(item);
    }
  }

  /** `marks[n]` is the log after `n` calls: it starts with the empty tables, and each call is one transaction with
      the effect it promises. */
  ghost predicate IsHistory(ops: seq<Op>, marks: seq<seq<Tables>>) {
    && |marks| == |ops| + 1 && marks[0] == [EMPTY]
    && (forall n :: 0 <= n < |ops| ==> IsCall(ops[n], marks[n], marks[n + 1]))
  }

  ghost predicate IsCall(op: Op, before: seq<Tables>, after: seq<Tables>) {
    && before != [] && after != []
    && Transaction(before, after) && Effected(Last(before), Last(after), op)
  }

  lemma ProjectedValid(t0: Tables, t1: Tables, w: WorkId, run: RunId)
    requires Projected(t0, t1, w, run) && Valid(t1)
    ensures Valid(t0)
  {
    forall k | k in t0.edges
      ensures EdgeOk(t0, k)
    {
      assert EdgeOk(t1, k);
    }
    assert forall r :: r in t1.entries ==> EntryOk(t1, r);
    assert forall r :: r in t1.reviews ==> ReviewOk(t1, r);
  }

  lemma ParseSettles(t0: Tables, t1: Tables, env: Environment, w: WorkId, run: RunId, force: bool)
    requires Settled(t0) && Valid(t1) && Called(t0, t1, env, w, run, force)
    ensures Settled(t1)
  {
    var hash := env.markdown.value;
    var middle := AfterStageA(t0, env, w, hash, force);
    ProjectedValid(middle, t1, w, run);
    if middle != t0 {
      StageASettled(t0, w, Parsed(env), env.resolve(Parsed(env)).value, hash);
    }
    EdgesOnlySettled(middle, t1);
  }

  /** A call that starts from settled tables and ends in valid ones ends in settled ones. */
  lemma CallSettles(t0: Tables, t1: Tables, op: Op)
    requires Settled(t0) && Valid(t1) && Effected(t0, t1, op)
    ensures Settled(t1)
  {
    if t1 != t0 {
      match op
      case NewWork(_) =>
      case ProjectProvider(_, _, _, _, _) => EdgesOnlySettled(t0, t1);
      case Parse(env, w, run, force) => ParseSettles(t0, t1, env, w, run, force);
      case Approve(item, choice, run) => ApprovedSettled(t0, item, choice, run.value);
      case Reject(_) =>
    }
  }

  lemma NextSettles(op: Op, before: seq<Tables>, after: seq<Tables>)
    requires IsCall(op, before, after) && Settled(Last(before))
    ensures Settled(Last(after))
  {
    TransactionEndsValid(before, after);
    CallSettles(Last(before), Last(after), op);
  }

  /** Between the calls of a history the tables are settled. */
  lemma {:induction false} HistorySettles(ops: seq<Op>, marks: seq<seq<Tables>>, n: nat)
    requires IsHistory(ops, marks) && n <= |ops|
    ensures marks[n] != [] && Settled(Last(marks[n]))
  {
    if n == 0 {
      EmptyIsSettled();
    } else {
      HistorySettles(ops, marks, n - 1);
      assert IsCall(ops[n - 1], marks[n - 1], marks[n]);
      NextSettles(ops[n - 1], marks[n - 1], marks[n]);
    }
  }

  lemma EmptyIsSettled()
    ensures Settled(EMPTY) && Last([EMPTY]) == EMPTY
  {
  }

  /** Every table the log of a history ever held meets the invariant. */
  lemma {:induction false} HistoryIsValid(ops: seq<Op>, marks: seq<seq<Tables>>, n: nat, i: nat)
    requires IsHistory(ops, marks) && n <= |ops| && i < |marks[n]|
    ensures Valid(marks[n][i])
    decreases n
  {
    if n > 0 {
      assert IsCall(ops[n - 1], marks[n - 1], marks[n]);
      TransactionExtends(marks[n - 1], marks[n]);
      if i < |marks[n - 1]| {
        HistoryIsValid(ops, marks, n - 1, i);
      } else {
        HistorySettles(ops, marks, n - 1);
        TransactionKeeps(marks[n - 1], marks[n], i);
      }
    }
  }

  /** Over every history, after every single statement: each parsed edge names a live entry of its source that is
      resolved to its target, and every foreign key holds. */
  lemma EveryStatementKeepsEdgesLive(ops: seq<Op>, marks: seq<seq<Tables>>, i: nat, k: EdgeKey)
    requires IsHistory(ops, marks) && i < |marks[|ops|]|
    requires k in marks[|ops|][i].edges
    ensures EdgeOk(marks[|ops|][i], k) && LiveEdge(marks[|ops|][i], k)
  {
    HistoryIsValid(ops, marks, |ops|, i);
  }

  /** Runs the calls. The log starts with the empty tables and holds those after every statement and rollback; it
      divides into one transaction for each call, and in every table of it every edge is live. */
  method RunHistory(ops: seq<Op>) returns (db: ProjectDb, ghost marks: seq<seq<Tables>>)
    ensures IsHistory(ops, marks) && marks[|ops|] == db.log && db.log != [] && Last(db.log) == db.Snapshot()
    ensures forall i, k :: 0 <= i < |db.log| && k in db.log[i].edges
                           ==> EdgeOk(db.log[i], k) && LiveEdge(db.log[i], k)
  {
    db := new ProjectDb();
    marks := [db.log];
    EmptyIsSettled();
    for n := 0 to |ops|
      invariant db.Sound() && Settled(db.Snapshot())
      invariant Recorded(ops, n, marks, db.log)
    {
      ghost var before := db.log;
      Step(db, ops[n]);
      RecordNext(ops, n, marks, before, db.log);
      marks := marks + [db.log];
    }
    RecordedAll(ops, marks, db.log);
  }

  /** The first `n` calls have been made and the log is `log`. */
  ghost predicate Recorded(ops: seq<Op>, n: nat, marks: seq<seq<Tables>>, log: seq<Tables>) {
    n <= |ops| && IsHistory(ops[..n], marks) && marks[n] == log
  }

  lemma RecordNext(ops: seq<Op>, n: nat, marks: seq<seq<Tables>>, before: seq<Tables>, log: seq<Tables>)
    requires n < |ops| && Recorded(ops, n, marks, before) && IsCall(ops[n], before, log)
    ensures Recorded(ops, n + 1, marks + [log], log)
  {
    var all, now := marks + [log], ops[..n + 1];
    forall m | 0 <= m < |now|
      ensures IsCall(now[m], all[m], all[m + 1])
    {
      if m < n {
        assert IsCall(ops[..n][m], marks[m], marks[m + 1]);
      }
    }
  }

  lemma RecordedAll(ops: seq<Op>, marks: seq<seq<Tables>>, log: seq<Tables>)
    requires Recorded(ops, |ops|, marks, log)
    ensures IsHistory(ops, marks) && marks[|ops|] == log
    ensures forall i, k :: 0 <= i < |log| && k in log[i].edges ==> EdgeOk(log[i], k) && LiveEdge(log[i], k)
  {
    assert ops[..|ops|] == ops;
    forall i, k | 0 <= i < |log| && k in log[i].edges
      ensures EdgeOk(log[i], k) && LiveEdge(log[i], k)
    {
      EveryStatementKeepsEdgesLive(ops, marks, i, k);
    }
  }

  // ----- After an approval -----

  /** An approval that goes through pins an entry. */
  lemma ApprovalPins(t: Tables, item: RefId, choice: Choice, run: RunId)
    requires Valid(t) && Approvable(t, item, choice, Some(run))
    ensures Blocked(Approved(t, item, choice, run), t.reviews[item])
  {
    var t' := Approved(t, item, choice, run);
    var w := t.reviews[item];
    var k := EdgeKey(w, choice.work, ManualOverride, run);
    assert ReviewOk(t, item);
    assert k in t.edges ==> EdgeOk(t, k);
    assert NamesEntryOf(t'.(edges := WithoutParsed(t'.edges, w)), k, w);
  }

  /** So whatever the markdown, the parser and the resolver, Stage A fails from then on. */
  lemma ApprovalBlocksReparse(t: Tables, item: RefId, choice: Choice, run: RunId, env: Environment)
    requires Settled(t) && Approvable(t, item, choice, Some(run))
    ensures Blocked(Approved(t, item, choice, run), t.reviews[item])
    ensures !StageASucceeds(Approved(t, item, choice, run), env, t.reviews[item])
  {
    ApprovalPins(t, item, choice, run);
  }

  /** Two works, one ambiguous reference of the first under review: approved for the second, it blocks every
      later reparse of the first. */
  lemma OneApprovalBlocks(env: Environment)
    ensures var t := EMPTY.(works := {1, 2}, entries := map[0 := Entry(1, "", Ambiguous, None, None, 5)],
                            reviews := map[0 := 1], nextRef := 1);
            && Settled(t) && Approvable(t, 0, Named(2), Some(0))
            && !StageASucceeds(Approved(t, 0, Named(2), 0), env, 1)
  {
    var t := EMPTY.(works := {1, 2}, entries := map[0 := Entry(1, "", Ambiguous, None, None, 5)],
                    reviews := map[0 := 1], nextRef := 1);
    ApprovalBlocksReparse(t, 0, Named(2), 0, env);
  }

  /** `k` is a manual-override edge that rests on an entry of `w`. */
  ghost predicate Pins(t: Tables, k: EdgeKey, w: WorkId) {
    NamesEntryOf(t, k, w) && k.provenance == ManualOverride
  }

  lemma PinsBlock(t: Tables, w: WorkId)
    requires Valid(t)
    ensures Blocked(t, w) <==> exists k :: Pins(t, k, w)
  {
    ReparseBlockedIffOverridden(t, w);
    if exists k :: Pins(t, k, w) {
      var k :| Pins(t, k, w);
      assert NamesEntryOf(t, k, w) && k.provenance == ManualOverride;
    }
    if exists k :: NamesEntryOf(t, k, w) && k.provenance == ManualOverride {
      var k :| NamesEntryOf(t, k, w) && k.provenance == ManualOverride;
      assert Pins(t, k, w);
    }
  }

  lemma ParseKeepsPin(
      t0: Tables, t1: Tables, env: Environment, v: WorkId, run: RunId, force: bool, k: EdgeKey, w: WorkId)
    requires Settled(t0) && Called(t0, t1, env, v, run, force) && Pins(t0, k, w)
    ensures Pins(t1, k, w)
  {
    var id := t0.edges[k].reference.value;
    CallTouchesOnlyItsWork(t0, t1, env, v, run, force);
    assert k in WithoutParsed(t0.edges, v) && k in t1.edges && t1.edges[k] == WithoutParsed(t1.edges, v)[k];
    if NeedsParse(t0, v, env.markdown.value, force) {
      assert !Blocked(t0, v);
      PinsBlock(t0, v);
      assert v != w;
      assert id in WithoutEntriesOf(t0.entries, v) && t1.entries[id] == WithoutEntriesOf(t1.entries, v)[id];
    } else {
      assert t1.entries == t0.entries;
    }
  }

  lemma ApprovalKeepsPin(t: Tables, item: RefId, choice: Choice, run: RunId, k: EdgeKey, w: WorkId)
    requires Pins(t, k, w) && item in t.reviews && !choice.Unusable?
    ensures Pins(Approved(t, item, choice, run), k, w)
  {
    var t' := Approved(t, item, choice, run);
    var id := t.edges[k].reference.value;
    assert t'.edges[k] == t.edges[k] && t'.entries[id].citing == t.entries[id].citing;
  }

  lemma MoreEdgesKeepPin(t0: Tables, t1: Tables, k: EdgeKey, w: WorkId)
    requires Pins(t0, k, w) && t1.entries == t0.entries && k in t1.edges && t1.edges[k] == t0.edges[k]
    ensures Pins(t1, k, w)
  {
  }

  /** No call removes a manual-override edge, or the entry it names. */
  lemma CallKeepsPin(t0: Tables, t1: Tables, op: Op, k: EdgeKey, w: WorkId)
    requires Settled(t0) && Effected(t0, t1, op) && Pins(t0, k, w)
    ensures Pins(t1, k, w)
  {
    if t1 != t0 {
      match op
      case NewWork(_) => MoreEdgesKeepPin(t0, t1, k, w);
      case ProjectProvider(_, _, _, _, _) => MoreEdgesKeepPin(t0, t1, k, w);
      case Parse(env, v, run, force) => ParseKeepsPin(t0, t1, env, v, run, force, k, w);
      case Approve(item, choice, scope) => ApprovalKeepsPin(t0, item, choice, scope.value, k, w);
      case Reject(_) => MoreEdgesKeepPin(t0, t1, k, w);
    }
  }

  lemma CallKeepsBlocked(t0: Tables, t1: Tables, op: Op, w: WorkId)
    requires Settled(t0) && Valid(t1) && Effected(t0, t1, op) && Blocked(t0, w)
    ensures Blocked(t1, w)
  {
    PinsBlock(t0, w);
    var k :| Pins(t0, k, w);
    CallKeepsPin(t0, t1, op, k, w);
    PinsBlock(t1, w);
  }

  /** After `n` calls the bibliography of `w` can no longer be re-parsed. */
  ghost predicate BlockedAfter(marks: seq<seq<Tables>>, n: nat, w: WorkId) {
    n < |marks| && marks[n] != [] && Blocked(Last(marks[n]), w)
  }

  lemma StillBlocked(ops: seq<Op>, marks: seq<seq<Tables>>, n: nat, w: WorkId)
    requires IsHistory(ops, marks) && n < |ops| && BlockedAfter(marks, n, w)
    ensures BlockedAfter(marks, n + 1, w)
  {
    assert IsCall(ops[n], marks[n], marks[n + 1]);
    HistorySettles(ops, marks, n);
    HistorySettles(ops, marks, n + 1);
    CallKeepsBlocked(Last(marks[n]), Last(marks[n + 1]), ops[n], w);
  }

  /** Once blocked, blocked for good: whatever calls of a history follow. */
  lemma {:induction false} BlockedForever(ops: seq<Op>, marks: seq<seq<Tables>>, n: nat, m: nat, w: WorkId)
    requires IsHistory(ops, marks) && n <= m <= |ops| && BlockedAfter(marks, n, w)
    ensures BlockedAfter(marks, m, w)
    decreases m - n
  {
    if n < m {
      StillBlocked(ops, marks, n, w);
      BlockedForever(ops, marks, n + 1, m, w);
    }
  }

  /** Call `n` of the history is an approval for `w` that goes through. */
  ghost predicate ApprovedFor(ops: seq<Op>, marks: seq<seq<Tables>>, n: nat, w: WorkId) {
    && n < |ops| && n < |marks| && marks[n] != [] && ops[n].Approve?
    && Approvable(Last(marks[n]), ops[n].item, ops[n].choice, ops[n].scope)
    && w == Last(marks[n]).reviews[ops[n].item]
  }

  lemma ApprovalBlocks(ops: seq<Op>, marks: seq<seq<Tables>>, n: nat, w: WorkId)
    requires IsHistory(ops, marks) && ApprovedFor(ops, marks, n, w)
    ensures BlockedAfter(marks, n + 1, w)
  {
    var op := ops[n];
    assert IsCall(op, marks[n], marks[n + 1]);
    HistorySettles(ops, marks, n);
    ApprovalPins(Last(marks[n]), op.item, op.choice, op.scope.value);
  }

  /** In every history, once an approval for `w` went through, no call re-parses the bibliography of `w` again: one
      that would have to leaves the tables as they are. */
  lemma NoReparseAfterApproval(
      ops: seq<Op>, marks: seq<seq<Tables>>, n: nat, m: nat, env: Environment, w: WorkId, run: RunId, force: bool)
    requires IsHistory(ops, marks) && n < m < |ops| && ApprovedFor(ops, marks, n, w)
    requires ops[m] == Parse(env, w, run, force) && env.markdown.Some? && marks[m] != []
    requires NeedsParse(Last(marks[m]), w, env.markdown.value, force)
    ensures marks[m + 1] != [] && Last(marks[m + 1]) == Last(marks[m])
  {
    ApprovalBlocks(ops, marks, n, w);
    BlockedForever(ops, marks, n + 1, m, w);
    assert IsCall(ops[m], marks[m], marks[m + 1]);
  }
}
