// citation/parsed_bib.py: the two-stage lifecycle that parses one work's bibliography and
// projects it into a run.
module ParsedBib {
  import opened Prelude
  import opened CitationTables

  datatype Range = Range(start: nat, end: nat, heading: string)

  /** One resolved reference; `upserted` is the work identity.upsert_work returned, None if it raised. */
  datatype Resolution = Resolution(status: Status, upserted: Option<WorkId>, confidence: Option<real>)

  // A value, or the exception raised instead.
  datatype Attempt<T> = Got(value: T) | Failed

  /** What the call reads from outside the tables: markdown, sections, text, parser and resolver. */
  datatype Environment = Environment(
    markdown: Option<Digest>,
    sections: Attempt<seq<Range>>,
    text: Attempt<Option<string>>,
    fallback: string -> seq<Range>,
    parse: (string, seq<Range>) -> Attempt<seq<string>>,
    resolve: seq<string> -> Attempt<seq<Resolution>>)

  datatype Outcome =
    | NoMarkdown
    | Raised
    | Done(
        reparsed: bool, noReferences: bool, entries: nat, resolved: nat, ambiguous: nat, suspect: nat,
        edgesWritten: nat)

  predicate HasText(env: Environment) {
    env.text.Got? && env.text.value.Some? && env.text.value.value != ""
  }

  function Ranges(env: Environment): seq<Range> {
    if env.sections.Failed? then []
    else if env.sections.value == [] && HasText(env) then env.fallback(env.text.value.value)
    else env.sections.value
  }

  /** Loading the sections, reading the text and parsing it. */
  function Reading(env: Environment): Attempt<seq<string>> {
    if env.sections.Failed? || env.text.Failed? then Failed
    else if HasText(env) && Ranges(env) != [] then env.parse(env.text.value.value, Ranges(env))
    else Got([])
  }

  function Parsed(env: Environment): seq<string> {
    if Reading(env).Got? then Reading(env).value else []
  }

  function Min(a: nat, b: nat): nat {
    if a <= b then a else b
  }

  // ----- Stage A, as a function on the tables -----

  function EdgesCleared(t: Tables, w: WorkId): Tables {
    Effect(t, ClearEdges(w))
  }

  function Cleared(t: Tables, w: WorkId): Tables {
    Effect(EdgesCleared(t, w), ClearEntries(w))
  }

  /** One unresolved row per parsed reference, in order. */
  function InsertedAll(t: Tables, w: WorkId, parsed: seq<string>, hash: Digest): Tables {
    if parsed == [] then t
    else Inserted(InsertedAll(t, w, parsed[..|parsed| - 1], hash), w, parsed[|parsed| - 1], hash)
  }

  predicate CanApply(res: Resolution) {
    res.status == Resolved ==> res.upserted.Some?
  }

  /** Applying one resolution: decide the entry, or mark it and send it to review, or keep it raw. */
  function Applied(t: Tables, id: RefId, res: Resolution): Tables {
    if id !in t.entries || !CanApply(res) then t
    else match res.status
      case Resolved =>
        Updated(Upserted(t, res.upserted.value), id, Decided(t.entries[id], res.upserted.value, res.confidence))
      case Unresolved => Updated(t, id, t.entries[id].(status := Unresolved))
      case _ => Enqueued(Updated(t, id, t.entries[id].(status := res.status)), id, t.entries[id].citing)
  }

  /** Applying the resolutions in order to the entries numbered from `base`. */
  function AppliedAll(t: Tables, base: RefId, res: seq<Resolution>): Tables {
    if res == [] then t else Applied(AppliedAll(t, base, res[..|res| - 1]), base + |res| - 1, res[|res| - 1])
  }

  lemma AppliedAllStep(t: Tables, base: RefId, res: seq<Resolution>, j: nat)
    requires j < |res|
    ensures AppliedAll(t, base, res[..j + 1]) == Applied(AppliedAll(t, base, res[..j]), base + j, res[j])
  {
    assert res[..j + 1][..j] == res[..j];
  }

  /** The edges, the numbering, and the entry `id` with its review are in `r` as in `t`. */
  ghost predicate LeftAlone(t: Tables, r: Tables, id: RefId) {
    && r.edges == t.edges && r.nextRef == t.nextRef
    && (id in r.entries <==> id in t.entries)
    && (id in t.entries ==> r.entries[id] == t.entries[id])
    && (id in r.reviews <==> id in t.reviews)
    && (id in r.reviews ==> r.reviews[id] == t.reviews[id])
  }

  lemma AppliedBeside(t: Tables, last: RefId, res: Resolution, id: RefId)
    requires id != last
    ensures LeftAlone(t, Applied(t, last, res), id)
  {
  }

  lemma AppliedBesideAlso(t: Tables, before: Tables, last: RefId, res: Resolution, id: RefId)
    requires id != last && LeftAlone(t, before, id)
    ensures LeftAlone(t, Applied(before, last, res), id)
  {
    AppliedBeside(before, last, res, id);
  }

  /** Resolutions touch only the entries they are paired with. */
  lemma {:induction false} AppliedAllElsewhere(t: Tables, base: RefId, res: seq<Resolution>, id: RefId)
    requires !(base <= id < base + |res|)
    ensures LeftAlone(t, AppliedAll(t, base, res), id)
  {
    if res != [] {
      var n := |res| - 1;
      AppliedAllElsewhere(t, base, res[..n], id);
      AppliedBesideAlso(t, AppliedAll(t, base, res[..n]), base + n, res[n], id);
    }
  }

  lemma {:induction false} InsertedAllRows(t: Tables, w: WorkId, parsed: seq<string>, hash: Digest)
    ensures var r := InsertedAll(t, w, parsed, hash);
            && r == t.(entries := r.entries, nextRef := t.nextRef + |parsed|)
            && (forall i :: i in r.entries <==> i in t.entries || t.nextRef <= i < t.nextRef + |parsed|)
            && (forall i :: i in t.entries && i < t.nextRef ==> r.entries[i] == t.entries[i])
            && (forall i :: t.nextRef <= i < t.nextRef + |parsed| ==>
                  i in r.entries && r.entries[i] == Entry(w, parsed[i - t.nextRef], Unresolved, None, None, hash))
  {
    if parsed != [] {
      InsertedAllRows(t, w, parsed[..|parsed| - 1], hash);
    }
  }

  method InsertAll(db: ProjectDb, w: WorkId, parsed: seq<string>, hash: Digest)
    requires db.Sound() && w in db.works
    modifies db
    ensures db.Sound() && Steps(old(db.log), db.log)
    ensures db.Snapshot() == InsertedAll(old(db.Snapshot()), w, parsed, hash)
  {
    ghost var start := db.log;
    for i := 0 to |parsed|
      invariant db.Sound() && Steps(start, db.log) && w in db.works
      invariant db.Snapshot() == InsertedAll(old(db.Snapshot()), w, parsed[..i], hash)
    {
      ghost var before := db.log;
      var ok, id := db.InsertEntry(w, parsed[i], hash);
      StepsJoin(start, before, db.log);
      assert parsed[..i + 1][..i] == parsed[..i];
    }
    assert parsed[..|parsed|] == parsed;
  }

  method Apply(db: ProjectDb, id: RefId, res: Resolution) returns (ok: bool)
    requires db.Sound() && id in db.entries
    requires Undecided(db.Snapshot(), id) && db.entries[id].target == None
    modifies db
    ensures db.Sound() && Steps(old(db.log), db.log)
    ensures ok <==> CanApply(res)
    ensures ok ==> db.Snapshot() == Applied(old(db.Snapshot()), id, res)
  {
    var e := db.entries[id];
    match res.status {
      case Resolved =>
        if res.upserted.None? {
          return false;
        }
        Resolve(db, id, res.upserted.value, res.confidence);
        ok := true;
      case Unresolved =>
        ok := db.UpdateEntry(id, Unresolved, e.target, e.confidence);
      case _ =>
        SendToReview(db, id, res.status);
        ok := true;
    }
  }

  /** A resolved reference: its target becomes a work, and the entry gets it. */
  method Resolve(db: ProjectDb, id: RefId, work: WorkId, confidence: Option<real>)
    requires db.Sound() && id in db.entries && Undecided(db.Snapshot(), id)
    modifies db
    ensures db.Sound() && Steps(old(db.log), db.log)
    ensures var t := Upserted(old(db.Snapshot()), work);
            db.Snapshot() == Updated(t, id, Decided(t.entries[id], work, confidence))
  {
    ghost var start := db.log;
    db.UpsertWork(work);
    ghost var middle := db.log;
    var ok := db.UpdateEntry(id, Resolved, Some(work), confidence);
    StepsJoin(start, middle, db.log);
  }

  /** An ambiguous or suspect reference. */
  method SendToReview(db: ProjectDb, id: RefId, status: Status)
    requires db.Sound() && id in db.entries && Undecided(db.Snapshot(), id) && db.entries[id].target == None
    requires status == Ambiguous || status == Suspect
    modifies db
    ensures db.Sound() && Steps(old(db.log), db.log)
    ensures var t := old(db.Snapshot());
            db.Snapshot() == Enqueued(Updated(t, id, t.entries[id].(status := status)), id, t.entries[id].citing)
  {
    ghost var start := db.log;
    var e := db.entries[id];
    var ok := db.UpdateEntry(id, status, e.target, e.confidence);
    ghost var middle := db.log;
    db.EnqueueReview(id, e.citing);
    StepsJoin(start, middle, db.log);
  }

  /** The entries `base ..< base + n` are as INSERT left them and nothing refers to them yet. */
  ghost predicate Pending(t: Tables, base: RefId, n: nat) {
    forall i :: base <= i < base + n ==>
      i in t.entries && i !in t.reviews && t.entries[i].status == Unresolved && t.entries[i].target == None
  }

  /** The next entry is still as INSERT left it. */
  lemma StillPending(t0: Tables, base: RefId, res: seq<Resolution>, j: nat)
    requires Pending(t0, base, |res|) && j < |res|
    ensures var t := AppliedAll(t0, base, res[..j]);
            base + j in t.entries && Undecided(t, base + j) && t.entries[base + j].target == None
  {
    AppliedAllElsewhere(t0, base, res[..j], base + j);
  }

  /** The resolution after the first `j` of them. */
  method ApplyNext(
      db: ProjectDb, base: RefId, res: seq<Resolution>, j: nat, ghost t0: Tables, ghost start: seq<Tables>)
    returns (ok: bool)
    requires db.Sound() && start != [] && Steps(start, db.log) && j < |res|
    requires Pending(t0, base, |res|) && db.Snapshot() == AppliedAll(t0, base, res[..j])
    modifies db
    ensures db.Sound() && Steps(start, db.log)
    ensures ok <==> CanApply(res[j])
    ensures ok ==> db.Snapshot() == AppliedAll(t0, base, res[..j + 1])
  {
    ghost var before := db.log;
    StillPending(t0, base, res, j);
    ok := Apply(db, base + j, res[j]);
    StepsJoin(start, before, db.log);
    AppliedAllStep(t0, base, res, j);
  }

  method ApplyAll(db: ProjectDb, base: RefId, res: seq<Resolution>) returns (ok: bool)
    requires db.Sound() && Pending(db.Snapshot(), base, |res|)
    modifies db
    ensures db.Sound() && Steps(old(db.log), db.log)
    ensures ok <==> forall i :: 0 <= i < |res| ==> CanApply(res[i])
    ensures ok ==> db.Snapshot() == AppliedAll(old(db.Snapshot()), base, res)
  {
    ghost var t0, start := db.Snapshot(), db.log;
    for j := 0 to |res|
      invariant db.Sound() && Steps(start, db.log)
      invariant forall i :: 0 <= i < j ==> CanApply(res[i])
      invariant db.Snapshot() == AppliedAll(t0, base, res[..j])
    {
      ok := ApplyNext(db, base, res, j, t0, start);
      if !ok {
        return;
      }
    }
    ok := true;
    assert res[..|res|] == res;
  }

  // ----- Stage A -----

  /** The resolutions zip() pairs with a parsed reference. */
  function Paired(parsed: seq<string>, res: seq<Resolution>): seq<Resolution> {
    res[..Min(|res|, |parsed|)]
  }

  function StageAResult(t: Tables, w: WorkId, parsed: seq<string>, res: seq<Resolution>, hash: Digest): Tables {
    AppliedAll(InsertedAll(Cleared(t, w), w, parsed, hash), t.nextRef, Paired(parsed, res))
  }

  /** An edge that Stage A does not delete names an entry that it has to delete. */
  ghost predicate Blocked(t: Tables, w: WorkId) {
    EntriesPinned(t.(edges := WithoutParsed(t.edges, w)), w)
  }

  /** The resolver answers, and every resolved target upserts. */
  predicate Resolves(env: Environment) {
    var resolved := env.resolve(Parsed(env));
    && resolved.Got?
    && var res := Paired(Parsed(env), resolved.value);
       forall i :: 0 <= i < |res| ==> CanApply(res[i])
  }

  ghost predicate StageASucceeds(t: Tables, env: Environment, w: WorkId) {
    !Blocked(t, w) && Reading(env).Got? && Resolves(env)
  }

  /** The statements of Stage A: first the edges of all runs go, then the entries, then everything else. */
  method StageA(db: ProjectDb, env: Environment, w: WorkId, hash: Digest) returns (ok: bool)
    requires db.Sound() && w in db.works
    modifies db
    ensures db.Sound() && Steps(old(db.log), db.log)
    ensures old(db.log) + [EdgesCleared(old(db.Snapshot()), w)] <= db.log
    ensures !Blocked(old(db.Snapshot()), w)
            ==> old(db.log) + [EdgesCleared(old(db.Snapshot()), w), Cleared(old(db.Snapshot()), w)] <= db.log
    ensures ok <==> StageASucceeds(old(db.Snapshot()), env, w)
    ensures ok ==> var resolved := env.resolve(Parsed(env)).value;
                   db.Snapshot() == StageAResult(old(db.Snapshot()), w, Parsed(env), resolved, hash)
  {
    ghost var t0, start := db.Snapshot(), db.log;
    ok := Clear(db, w);
    if !ok {
      return;
    }
    ghost var cleared := db.log;
    ok := Fill(db, env, w, hash, t0);
    StepsExtend(cleared, db.log);
    StepsJoin(start, cleared, db.log);
  }

  /** The edges go before the entries they may name. */
  method Clear(db: ProjectDb, w: WorkId) returns (ok: bool)
    requires db.Sound()
    modifies db
    ensures db.Sound() && Steps(old(db.log), db.log)
    ensures ok <==> !Blocked(old(db.Snapshot()), w)
    ensures !ok ==> db.log == old(db.log) + [EdgesCleared(old(db.Snapshot()), w)]
    ensures ok ==> db.log == old(db.log) + [EdgesCleared(old(db.Snapshot()), w), Cleared(old(db.Snapshot()), w)]
    ensures ok ==> db.Snapshot() == Cleared(old(db.Snapshot()), w)
  {
    ghost var start := db.log;
    db.DeleteParsedEdges(w);
    ghost var log := db.log;
    ok := db.DeleteEntries(w);
    StepsJoin(start, log, db.log);
  }

  /** Parses, inserts and resolves the references of a cleared work. */
  method Fill(db: ProjectDb, env: Environment, w: WorkId, hash: Digest, ghost t0: Tables) returns (ok: bool)
    requires Valid(t0) && db.Sound() && w in db.works && db.Snapshot() == Cleared(t0, w)
    modifies db
    ensures db.Sound() && Steps(old(db.log), db.log)
    ensures ok <==> Reading(env).Got? && Resolves(env)
    ensures ok ==> db.Snapshot() == StageAResult(t0, w, Parsed(env), env.resolve(Parsed(env)).value, hash)
  {
    var reading := Reading(env);
    if reading.Failed? {
      return false;
    }
    var base, parsed := db.nextRef, reading.value;
    ghost var start := db.log;
    InsertAll(db, w, parsed, hash);
    ghost var inserted := db.log;
    var resolved := env.resolve(parsed);
    if resolved.Failed? {
      return false;
    }
    PendingAfterInsert(t0, w, parsed, hash);
    ok := ApplyAll(db, base, Paired(parsed, resolved.value));
    StepsJoin(start, inserted, db.log);
  }

  lemma PendingAfterInsert(t: Tables, w: WorkId, parsed: seq<string>, hash: Digest)
    requires Valid(t)
    ensures Pending(InsertedAll(Cleared(t, w), w, parsed, hash), t.nextRef, |parsed|)
  {
    InsertedAllRows(Cleared(t, w), w, parsed, hash);
  }

  // ----- Stage B -----

  /** The row Stage B writes for an entry: it names the entry and carries its confidence. */
  function RowFor(e: Entry, r: RefId): EdgeRow {
    EdgeRow(if e.confidence.Some? then e.confidence.value else 0.0, Some(r))
  }

  /** The edge `k` is the one of a resolved entry of `w` in run `run`. */
  ghost predicate StandsFor(t: Tables, k: EdgeKey, row: EdgeRow, w: WorkId, run: RunId) {
    && ParsedBy(k, w) && k.run == run
    && exists r :: r in t.entries && Backs(t.entries[r], w, k.target) && row == RowFor(t.entries[r], r)
  }

  /** Stage B adds to run `run` the parsed edges of the resolved entries and touches nothing else. */
  ghost predicate Projected(t0: Tables, t1: Tables, w: WorkId, run: RunId) {
    && t1 == t0.(edges := t1.edges)
    && (forall k :: k in t0.edges ==> k in t1.edges && t1.edges[k] == t0.edges[k])
    && (forall k :: k in t1.edges && k !in t0.edges ==> StandsFor(t0, k, t1.edges[k], w, run))
    && (forall target :: HasParsedEdge(t1, w, target, run) <==> HasResolvedTarget(t0, w, target))
  }

  method ProjectOne(db: ProjectDb, w: WorkId, r: RefId, run: RunId) returns (row: EdgeRow)
    requires db.Sound() && r in ResolvedEntriesOf(db.Snapshot(), w) && r !in db.reviews
    modifies db
    ensures db.Sound() && Steps(old(db.log), db.log)
    ensures var e := old(db.entries)[r];
            && row == RowFor(e, r)
            && db.Snapshot() == WithEdge(old(db.Snapshot()), EdgeKey(w, e.target.value, ParsedBibliography, run), row)
  {
    var e := db.entries[r];
    assert EntryOk(db.Snapshot(), r);
    row := RowFor(e, r);
    var ok := db.WriteEdge(EdgeKey(w, e.target.value, ParsedBibliography, run), row.confidence, Some(r));
  }

  /** Stage B underway: the rows outside `todo` have their edges. */
  ghost predicate Projecting(t0: Tables, t: Tables, w: WorkId, run: RunId, rows: set<RefId>, todo: set<RefId>) {
    && t == t0.(edges := t.edges) && todo <= rows == ResolvedEntriesOf(t0, w)
    && (forall k :: k in t0.edges ==> k in t.edges && t.edges[k] == t0.edges[k])
    && (forall k :: k in t.edges && k !in t0.edges ==> StandsFor(t0, k, t.edges[k], w, run))
    && (forall r :: r in rows && r !in todo ==> HasParsedEdge(t, w, t0.entries[r].target.value, run))
  }

  lemma ProjectNext(
      t0: Tables, t: Tables, w: WorkId, run: RunId, rows: set<RefId>, todo: set<RefId>, r: RefId, row: EdgeRow)
    requires Projecting(t0, t, w, run, rows, todo) && r in todo && row == RowFor(t0.entries[r], r)
    ensures var t' := WithEdge(t, EdgeKey(w, t0.entries[r].target.value, ParsedBibliography, run), row);
            Projecting(t0, t', w, run, rows, todo - {r})
  {
    var k := EdgeKey(w, t0.entries[r].target.value, ParsedBibliography, run);
    assert StandsFor(t0, k, row, w, run);
  }

  method StageB(db: ProjectDb, w: WorkId, run: RunId) returns (written: nat)
    requires db.Sound()
    requires forall r :: r in ResolvedEntriesOf(db.Snapshot(), w) ==> r !in db.reviews
    modifies db
    ensures db.Sound() && Steps(old(db.log), db.log)
    ensures Projected(old(db.Snapshot()), db.Snapshot(), w, run)
    ensures written == |ResolvedEntriesOf(old(db.Snapshot()), w)|
  {
    ghost var t0, start := db.Snapshot(), db.log;
    var rows := ResolvedEntriesOf(db.Snapshot(), w);
    var todo := rows;
    written := 0;
    while todo != {}
      invariant db.Sound() && Steps(start, db.log)
      invariant Projecting(t0, db.Snapshot(), w, run, rows, todo)
      invariant written == |rows| - |todo|
    {
      var r :| r in todo;
      ghost var t, before := db.Snapshot(), db.log;
      var row := ProjectOne(db, w, r, run);
      ProjectNext(t0, t, w, run, rows, todo, r, row);
      StepsJoin(start, before, db.log);
      todo := todo - {r};
      written := written + 1;
    }
    ProjectedTargets(t0, db.Snapshot(), w, run);
  }

  lemma ProjectedTargets(t0: Tables, t1: Tables, w: WorkId, run: RunId)
    requires Valid(t1) && t1 == t0.(edges := t1.edges)
    requires forall r :: r in ResolvedEntriesOf(t0, w) ==> HasParsedEdge(t1, w, t0.entries[r].target.value, run)
    ensures forall target :: HasParsedEdge(t1, w, target, run) <==> HasResolvedTarget(t0, w, target)
  {
    forall target
      ensures HasParsedEdge(t1, w, target, run) <==> HasResolvedTarget(t0, w, target)
    {
      var k := EdgeKey(w, target, ParsedBibliography, run);
      if k in t1.edges {
        assert EdgeOk(t1, k);
        assert Backs(t0.entries[t1.edges[k].reference.value], w, target);
      }
      if HasResolvedTarget(t0, w, target) {
        var r :| r in t0.entries && Backs(t0.entries[r], w, target);
        assert r in ResolvedEntriesOf(t0, w);
      }
    }
  }

  // ----- What Stage A leaves behind -----

  /** The row a parsed reference ends up as. */
  function AppliedEntry(e: Entry, res: Resolution): Entry {
    match res.status
    case Resolved => if res.upserted.Some? then Decided(e, res.upserted.value, res.confidence) else e
    case s => e.(status := s)
  }

  /** In `r` the entry has its resolution applied to what it was in `t`, and is under review if that says so. */
  ghost predicate AppliedAt(t: Tables, r: Tables, id: RefId, res: Resolution)
    requires id in t.entries
  {
    && id in r.entries && r.entries[id] == AppliedEntry(t.entries[id], res)
    && (id !in t.reviews ==> (id in r.reviews <==> res.status == Ambiguous || res.status == Suspect))
  }

  lemma AppliedHere(t: Tables, id: RefId, res: Resolution)
    requires id in t.entries
    ensures AppliedAt(t, Applied(t, id, res), id, res)
  {
  }

  /** One more resolution, of the entry `last`, after those that made `before` of `t`. */
  lemma AppliedAtNext(t: Tables, before: Tables, last: RefId, lastRes: Resolution, id: RefId, res: Resolution)
    requires id in t.entries
    requires id == last ==> id in before.entries && before.entries[id] == t.entries[id] && res == lastRes
                            && (id in before.reviews <==> id in t.reviews)
    requires id != last ==> AppliedAt(t, before, id, res)
    ensures AppliedAt(t, Applied(before, last, lastRes), id, res)
  {
    if id == last {
      AppliedHere(before, id, res);
    } else {
      AppliedBeside(before, last, lastRes, id);
    }
  }

  /** Each entry of a batch ends up with its own resolution. */
  lemma {:induction false} AppliedAllAt(t: Tables, base: RefId, res: seq<Resolution>, i: nat)
    requires i < |res| && base + i in t.entries
    ensures AppliedAt(t, AppliedAll(t, base, res), base + i, res[i])
  {
    var last := |res| - 1;
    if i == last {
      AppliedAllElsewhere(t, base, res[..last], base + i);
    } else {
      AppliedAllAt(t, base, res[..last], i);
    }
    AppliedAtNext(t, AppliedAll(t, base, res[..last]), base + last, res[last], base + i, res[i]);
  }

  /** After Stage A the entry `id` is untouched if it belongs to another work, and otherwise is one of
      the newly parsed references with its resolution applied. */
  lemma StageAEntry(t: Tables, w: WorkId, parsed: seq<string>, res: seq<Resolution>, hash: Digest, id: RefId)
    requires Valid(t)
    ensures var r := StageAResult(t, w, parsed, res, hash);
            && (id in r.entries
                <==> (id in t.entries && t.entries[id].citing != w) || t.nextRef <= id < t.nextRef + |parsed|)
            && (id in t.entries && t.entries[id].citing != w ==> r.entries[id] == t.entries[id])
            && (id < t.nextRef ==> (id in r.reviews <==> id in t.reviews))
            && (t.nextRef <= id < t.nextRef + |parsed| ==>
                  var i := id - t.nextRef;
                  var row := Entry(w, parsed[i], Unresolved, None, None, hash);
                  && r.entries[id] == (if i < |res| then AppliedEntry(row, res[i]) else row)
                  && (id in r.reviews <==> i < |res| && (res[i].status == Ambiguous || res[i].status == Suspect)))
  {
    var c := Cleared(t, w);
    InsertedAllRows(c, w, parsed, hash);
    var t1 := InsertedAll(c, w, parsed, hash);
    var pairs := Paired(parsed, res);
    assert id in t.entries ==> EntryOk(t, id);
    assert id in t.reviews ==> ReviewOk(t, id);
    if t.nextRef <= id < t.nextRef + |pairs| {
      AppliedAllAt(t1, t.nextRef, pairs, id - t.nextRef);
    } else {
      AppliedAllElsewhere(t1, t.nextRef, pairs, id);
    }
  }

  lemma StageAEdges(t: Tables, w: WorkId, parsed: seq<string>, res: seq<Resolution>, hash: Digest)
    ensures StageAResult(t, w, parsed, res, hash).edges == WithoutParsed(t.edges, w)
    ensures StageAResult(t, w, parsed, res, hash).nextRef == t.nextRef + |parsed|
  {
    InsertedAllRows(Cleared(t, w), w, parsed, hash);
    var pairs := Paired(parsed, res);
    AppliedAllElsewhere(InsertedAll(Cleared(t, w), w, parsed, hash), t.nextRef, pairs, t.nextRef + |pairs|);
  }

  lemma StageASettled(t: Tables, w: WorkId, parsed: seq<string>, res: seq<Resolution>, hash: Digest)
    requires Settled(t) && Valid(StageAResult(t, w, parsed, res, hash))
    ensures Settled(StageAResult(t, w, parsed, res, hash))
  {
    var r := StageAResult(t, w, parsed, res, hash);
    forall p, q | p in r.entries && q in r.entries && r.entries[p].citing == r.entries[q].citing
      ensures r.entries[p].markdownHash == r.entries[q].markdownHash
    {
      StageAEntry(t, w, parsed, res, hash, p);
      StageAEntry(t, w, parsed, res, hash, q);
    }
    forall p | p in r.reviews && p in r.entries
      ensures r.entries[p].status != Resolved
    {
      StageAEntry(t, w, parsed, res, hash, p);
    }
  }

  // ----- The whole call -----

  /** Stage A is skipped exactly when the work has entries and they carry the current hash. */
  predicate NeedsParse(t: Tables, w: WorkId, hash: Digest, force: bool) {
    force || EntriesOf(t, w) == {} || exists r :: r in EntriesOf(t, w) && t.entries[r].markdownHash != hash
  }

  /** A forced call, a work without entries and an entry of other markdown each lead to a new parse; nothing else
      does. */
  lemma ParsesIff(t: Tables, w: WorkId, hash: Digest, force: bool)
    ensures NeedsParse(t, w, hash, force)
            <==> || force
                 || (forall id :: id in t.entries ==> t.entries[id].citing != w)
                 || (exists id :: id in t.entries && t.entries[id].citing == w && t.entries[id].markdownHash != hash)
  {
    assert forall id :: id in EntriesOf(t, w) <==> id in t.entries && t.entries[id].citing == w;
    if EntriesOf(t, w) != {} {
      var id :| id in EntriesOf(t, w);
    }
  }

  ghost function AfterStageA(t: Tables, env: Environment, w: WorkId, hash: Digest, force: bool): Tables {
    if NeedsParse(t, w, hash, force) && env.resolve(Parsed(env)).Got?
    then StageAResult(t, w, Parsed(env), env.resolve(Parsed(env)).value, hash)
    else t
  }

  /** A call that succeeded: Stage A if it was needed, then Stage B. */
  ghost predicate Called(t0: Tables, t1: Tables, env: Environment, w: WorkId, run: RunId, force: bool) {
    && env.markdown.Some?
    && (NeedsParse(t0, w, env.markdown.value, force) ==> StageASucceeds(t0, env, w))
    && Projected(AfterStageA(t0, env, w, env.markdown.value, force), t1, w, run)
  }

  function WithStatus(t: Tables, w: WorkId, status: Status): set<RefId> {
    set r | r in t.entries && t.entries[r].citing == w && t.entries[r].status == status
  }

  /** Stage A inside its transaction: on failure everything is rolled back. */
  method Reparse(db: ProjectDb, env: Environment, w: WorkId, hash: Digest) returns (ok: bool)
    requires db.Sound() && Settled(db.Snapshot()) && w in db.works
    modifies db
    ensures db.Sound() && Settled(db.Snapshot()) && Transaction(old(db.log), db.log)
    ensures old(db.log) + [EdgesCleared(old(db.Snapshot()), w)] <= db.log
    ensures ok <==> StageASucceeds(old(db.Snapshot()), env, w)
    ensures !ok ==> db.Snapshot() == old(db.Snapshot())
    ensures ok ==> Steps(old(db.log), db.log)
    ensures ok ==> old(db.log) + [EdgesCleared(old(db.Snapshot()), w), Cleared(old(db.Snapshot()), w)] <= db.log
    ensures ok ==> var resolved := env.resolve(Parsed(env)).value;
                   db.Snapshot() == StageAResult(old(db.Snapshot()), w, Parsed(env), resolved, hash)
  {
    var begin := db.Snapshot();
    ok := StageA(db, env, w, hash);
    if ok {
      StageASettled(begin, w, Parsed(env), env.resolve(Parsed(env)).value, hash);
    } else {
      ghost var undone := db.log;
      db.Rollback(begin);
      assert Init(db.log) == undone;
    }
  }

  /** SELECT markdown_hash .. LIMIT 1, which may return any of the rows. */
  method DecideStageA(db: ProjectDb, w: WorkId, hash: Digest, force: bool) returns (reparse: bool)
    requires Settled(db.Snapshot())
    ensures reparse == NeedsParse(db.Snapshot(), w, hash, force)
  {
    var mine := EntriesOf(db.Snapshot(), w);
    reparse := true;
    if !force && mine != {} {
      var stored :| stored in mine;
      reparse := db.entries[stored].markdownHash != hash;
    }
  }

  lemma CountsAgree(t0: Tables, t1: Tables, w: WorkId)
    requires Valid(t0) && t1.entries == t0.entries
    ensures ResolvedEntriesOf(t0, w) == WithStatus(t1, w, Resolved)
  {
    assert forall r :: r in t0.entries ==> EntryOk(t0, r);
  }

  /** The four status counts of the call's report. */
  ghost predicate Reports(t: Tables, w: WorkId, r: Outcome) {
    && r.Done?
    && r.entries == |EntriesOf(t, w)|
    && r.resolved == |WithStatus(t, w, Resolved)| == r.edgesWritten
    && r.ambiguous == |WithStatus(t, w, Ambiguous)|
    && r.suspect == |WithStatus(t, w, Suspect)|
  }

  method BuildParsedEdges(db: ProjectDb, env: Environment, w: WorkId, run: RunId, force: bool) returns (r: Outcome)
    requires db.Sound() && Settled(db.Snapshot()) && (env.markdown.Some? ==> w in db.works)
    modifies db
    ensures db.Sound() && Settled(db.Snapshot()) && Transaction(old(db.log), db.log)
    ensures r.NoMarkdown? <==> env.markdown.None?
    ensures r.NoMarkdown? ==> db.log == old(db.log)
    ensures r.Raised? <==> env.markdown.Some? && NeedsParse(old(db.Snapshot()), w, env.markdown.value, force) &&
                           !StageASucceeds(old(db.Snapshot()), env, w)
    ensures !r.Done? ==> db.Snapshot() == old(db.Snapshot())
    ensures r.Raised? ==> old(db.log) + [EdgesCleared(old(db.Snapshot()), w)] <= db.log
    ensures r.Done? ==> Called(old(db.Snapshot()), db.Snapshot(), env, w, run, force) && Steps(old(db.log), db.log)
    ensures r.Done? ==> r.reparsed == NeedsParse(old(db.Snapshot()), w, env.markdown.value, force)
    ensures r.Done?
            ==> (r.reparsed
                 <==> || force
                      || (forall id :: id in old(db.entries) ==> old(db.entries)[id].citing != w)
                      || (exists id :: id in old(db.entries) && old(db.entries)[id].citing == w &&
                                       old(db.entries)[id].markdownHash != env.markdown.value))
    ensures r.Done? && r.reparsed
            ==> old(db.log) + [EdgesCleared(old(db.Snapshot()), w), Cleared(old(db.Snapshot()), w)] <= db.log
    ensures r.Done? ==> r.noReferences == (r.reparsed && Ranges(env) == [])
    ensures r.Done? ==> Reports(db.Snapshot(), w, r)
  {
    if env.markdown.None? {
      return NoMarkdown;
    }
    ghost var begin, start := db.Snapshot(), db.log;
    var reparse := DecideStageA(db, w, env.markdown.value, force);
    if reparse {
      var ok := Reparse(db, env, w, env.markdown.value);
      if !ok {
        return Raised;
      }
    }
    assert db.Snapshot() == AfterStageA(begin, env, w, env.markdown.value, force);
    ghost var middle, log := db.Snapshot(), db.log;
    var written := StageB(db, w, run);
    StepsExtend(log, db.log);
    StepsJoin(start, log, db.log);
    var t := db.Snapshot();
    CountsAgree(middle, t, w);
    ParsesIff(begin, w, env.markdown.value, force);
    r := Done(reparse, reparse && Ranges(env) == [], |EntriesOf(t, w)|, |WithStatus(t, w, Resolved)|,
              |WithStatus(t, w, Ambiguous)|, |WithStatus(t, w, Suspect)|, written);
  }
}
