// The citation tables of one project database and the SQL statements that change them.
//
// `reference_entries` is a map from its primary key; `citation_edges` is a map from its UNIQUE
// key, so INSERT .. ON CONFLICT DO NOTHING is "insert unless the key is present".  Every
// statement is a method that fails when SQLite, with foreign keys on, would raise.
module CitationTables {
  import opened Prelude

  // Identifiers and content hashes are only ever compared for equality, so numbers stand for them.
  type WorkId = nat
  type RunId = nat
  type RefId = nat
  type Digest = nat

  datatype Provenance = ProviderReference | ParsedBibliography | ManualOverride
  datatype Status = Resolved | Unresolved | Ambiguous | Suspect
  datatype Inclusion = Included | MetadataOnly | Excluded

  datatype Entry = Entry(
    citing: WorkId, raw: string, status: Status, target: Option<WorkId>,
    confidence: Option<real>, markdownHash: Digest)
  datatype EdgeKey = EdgeKey(source: WorkId, target: WorkId, provenance: Provenance, run: RunId)
  datatype EdgeRow = EdgeRow(confidence: real, reference: Option<RefId>)

  /** One state of the tables.  `reviews` holds the open citation_resolution items. */
  datatype Tables = Tables(
    works: set<WorkId>,
    members: map<WorkId, Inclusion>,
    entries: map<RefId, Entry>,
    edges: map<EdgeKey, EdgeRow>,
    reviews: map<RefId, WorkId>,
    nextRef: RefId)

  // ----- What every statement keeps -----

  predicate ParsedBy(k: EdgeKey, w: WorkId) {
    k.source == w && k.provenance == ParsedBibliography
  }

  /** The entry `e` is a resolved reference of `source` to `target`. */
  predicate Backs(e: Entry, source: WorkId, target: WorkId) {
    e.citing == source && e.status == Resolved && e.target == Some(target)
  }

  /** A parsed edge names a live entry of its source that is resolved to its target. */
  predicate LiveEdge(t: Tables, k: EdgeKey)
    requires k in t.edges
  {
    k.provenance == ParsedBibliography ==>
      t.edges[k].reference.Some? && t.edges[k].reference.value in t.entries &&
      Backs(t.entries[t.edges[k].reference.value], k.source, k.target)
  }

  /** An approved edge names an entry of its source, which its foreign key keeps alive. */
  predicate OverrideEdge(t: Tables, k: EdgeKey)
    requires k in t.edges
  {
    k.provenance == ManualOverride ==>
      t.edges[k].reference.Some? && t.edges[k].reference.value in t.entries &&
      t.entries[t.edges[k].reference.value].citing == k.source
  }

  /** No parsed edge rests on an entry whose review is still open. */
  predicate Reviewed(t: Tables, k: EdgeKey)
    requires k in t.edges
  {
    k.provenance == ParsedBibliography && t.edges[k].reference.Some? ==> t.edges[k].reference.value !in t.reviews
  }

  /** The foreign keys of 0004_citation_graph.sql, and the live-edge property. */
  predicate EdgeOk(t: Tables, k: EdgeKey)
    requires k in t.edges
  {
    && k.source in t.works && k.target in t.works
    && (t.edges[k].reference.Some? ==> t.edges[k].reference.value in t.entries)
    && (k.provenance == ProviderReference ==> t.edges[k].reference == None)
    && LiveEdge(t, k) && OverrideEdge(t, k) && Reviewed(t, k)
  }

  predicate EntryOk(t: Tables, r: RefId)
    requires r in t.entries
  {
    && r < t.nextRef
    && t.entries[r].citing in t.works
    && (t.entries[r].status == Resolved <==> t.entries[r].target.Some?)
    && (t.entries[r].target.Some? ==> t.entries[r].target.value in t.works)
  }

  predicate ReviewOk(t: Tables, r: RefId)
    requires r in t.reviews
  {
    && r < t.nextRef
    && t.reviews[r] in t.works
    && (r in t.entries ==> t.entries[r].citing == t.reviews[r])
  }

  ghost predicate Valid(t: Tables) {
    && (forall k :: k in t.edges ==> EdgeOk(t, k))
    && (forall r :: r in t.entries ==> EntryOk(t, r))
    && (forall r :: r in t.reviews ==> ReviewOk(t, r))
    && t.members.Keys <= t.works
  }

  /** Between calls, the entries of a work all carry the hash of the markdown they were parsed from,
      and an entry with an open review is undecided. */
  ghost predicate Settled(t: Tables) {
    && Valid(t)
    && (forall r, q :: r in t.entries && q in t.entries && t.entries[r].citing == t.entries[q].citing ==>
          t.entries[r].markdownHash == t.entries[q].markdownHash)
    && (forall r :: r in t.reviews && r in t.entries ==> t.entries[r].status != Resolved)
  }

  const EMPTY := Tables({}, map[], map[], map[], map[], 0)

  // ----- The tables as seen from one work -----

  function EntriesOf(t: Tables, w: WorkId): set<RefId> {
    set r | r in t.entries && t.entries[r].citing == w
  }

  function ResolvedEntriesOf(t: Tables, w: WorkId): set<RefId> {
    set r | r in t.entries && t.entries[r].citing == w && t.entries[r].status == Resolved && t.entries[r].target.Some?
  }

  /** `target` is the target of a resolved entry of `w`. */
  ghost predicate HasResolvedTarget(t: Tables, w: WorkId, target: WorkId) {
    exists r :: r in t.entries && Backs(t.entries[r], w, target)
  }

  ghost predicate HasParsedEdge(t: Tables, w: WorkId, target: WorkId, run: RunId) {
    EdgeKey(w, target, ParsedBibliography, run) in t.edges
  }

  function WithoutParsed(edges: map<EdgeKey, EdgeRow>, w: WorkId): map<EdgeKey, EdgeRow> {
    map k | k in edges && !ParsedBy(k, w) :: edges[k]
  }

  function WithoutEntriesOf(entries: map<RefId, Entry>, w: WorkId): map<RefId, Entry> {
    map r | r in entries && entries[r].citing != w :: entries[r]
  }

  // ----- The statements as functions on the tables -----

  function Inserted(t: Tables, w: WorkId, raw: string, hash: Digest): Tables {
    t.(entries := t.entries[t.nextRef := Entry(w, raw, Unresolved, None, None, hash)], nextRef := t.nextRef + 1)
  }

  function WorkAdded(t: Tables, w: WorkId): Tables {
    t.(works := t.works + {w})
  }

  /** ensure_metadata_only: an existing membership row is kept. */
  function MemberAdded(t: Tables, w: WorkId): Tables {
    t.(members := if w in t.members then t.members else t.members[w := MetadataOnly])
  }

  /** identity.upsert_work followed by ensure_metadata_only. */
  function Upserted(t: Tables, w: WorkId): Tables {
    MemberAdded(WorkAdded(t, w), w)
  }

  function Updated(t: Tables, id: RefId, e: Entry): Tables {
    t.(entries := t.entries[id := e])
  }

  function Enqueued(t: Tables, id: RefId, citing: WorkId): Tables {
    t.(reviews := t.reviews[id := citing])
  }

  /** INSERT .. ON CONFLICT DO NOTHING. */
  function WithEdge(t: Tables, k: EdgeKey, row: EdgeRow): Tables {
    if k in t.edges then t else t.(edges := t.edges[k := row])
  }

  function Decided(e: Entry, target: WorkId, confidence: Option<real>): Entry {
    e.(status := Resolved, target := Some(target), confidence := confidence)
  }

  /** DELETE FROM reference_entries WHERE citing_work_id = w is refused exactly in this state. */
  ghost predicate NamesEntryOf(t: Tables, k: EdgeKey, w: WorkId) {
    k in t.edges && t.edges[k].reference.Some? &&
    t.edges[k].reference.value in t.entries && t.entries[t.edges[k].reference.value].citing == w
  }

  ghost predicate EntriesPinned(t: Tables, w: WorkId) {
    exists k :: NamesEntryOf(t, k, w)
  }

  // ----- Single statements and runs of them -----

  datatype Statement =
    | ClearEdges(w: WorkId)
    | ClearEntries(w: WorkId)
    | InsertReference(w: WorkId, raw: string, hash: Digest)
    | InsertWork(w: WorkId)
    | InsertMember(w: WorkId)
    | SetResolution(id: RefId, status: Status, target: Option<WorkId>, confidence: Option<real>)
    | OpenReview(id: RefId, citing: WorkId)
    | EndReview(id: RefId)
    | InsertEdge(key: EdgeKey, row: EdgeRow)

  function Effect(t: Tables, s: Statement): Tables {
    match s
    case ClearEdges(w) => t.(edges := WithoutParsed(t.edges, w))
    case ClearEntries(w) => t.(entries := WithoutEntriesOf(t.entries, w))
    case InsertReference(w, raw, hash) => Inserted(t, w, raw, hash)
    case InsertWork(w) => WorkAdded(t, w)
    case InsertMember(w) => MemberAdded(t, w)
    case SetResolution(id, status, target, confidence) =>
      if id !in t.entries then t
      else Updated(t, id, t.entries[id].(status := status, target := target, confidence := confidence))
    case OpenReview(id, citing) => Enqueued(t, id, citing)
    case EndReview(id) => t.(reviews := t.reviews - {id})
    case InsertEdge(key, row) => WithEdge(t, key, row)
  }

  /** SQLite with foreign keys on does not refuse the statement. */
  ghost predicate Accepted(t: Tables, s: Statement) {
    match s
    case ClearEntries(w) => !EntriesPinned(t, w)
    case InsertReference(w, _, _) => w in t.works
    case InsertMember(w) => w in t.works
    case SetResolution(id, _, target, _) => id in t.entries && target.Some? ==> target.value in t.works
    case InsertEdge(k, row) =>
      k in t.edges
      || (k.source in t.works && k.target in t.works && (row.reference.Some? ==> row.reference.value in t.entries))
    case _ => true
  }

  /** What the program's callers have established when they issue the statement. */
  ghost predicate Careful(t: Tables, s: Statement) {
    match s
    case SetResolution(id, status, target, _) => Settable(t, id, status, target)
    case OpenReview(id, citing) => Reviewable(t, id, citing)
    case InsertEdge(k, row) => k in t.edges || Backed(t, k, row.reference)
    case _ => true
  }

  ghost predicate OneStatement(t: Tables, t': Tables) {
    exists s :: Accepted(t, s) && Careful(t, s) && t' == Effect(t, s)
  }

  ghost function Last(log: seq<Tables>): Tables
    requires log != []
  {
    log[|log| - 1]
  }

  ghost function Init(log: seq<Tables>): seq<Tables>
    requires log != []
  {
    log[..|log| - 1]
  }

  /** `log` continues `before` by single statements, each from the table the one before it left. */
  ghost predicate Steps(before: seq<Tables>, log: seq<Tables>)
    requires before != []
    decreases |log|
  {
    log == before
    || (|log| > |before| && Steps(before, Init(log)) && OneStatement(Last(Init(log)), Last(log)))
  }

  /** `log` continues `before` by the statements of one transaction: committed, or all undone by a rollback. */
  ghost predicate Transaction(before: seq<Tables>, log: seq<Tables>)
    requires before != []
  {
    Steps(before, log)
    || (|log| > |before| && Steps(before, Init(log)) && Last(log) == Last(before))
  }

  lemma OneMore(log: seq<Tables>, s: Statement)
    requires log != []
    ensures var t' := Effect(Last(log), s);
            && Last(log + [t']) == t' && Init(log + [t']) == log
            && (Accepted(Last(log), s) && Careful(Last(log), s) ==> Steps(log, log + [t']))
  {
    var after := log + [Effect(Last(log), s)];
    assert Init(after) == log;
    assert Steps(log, Init(after));
  }

  lemma {:induction false} StepsExtend(before: seq<Tables>, log: seq<Tables>)
    requires before != [] && Steps(before, log)
    ensures before <= log
    decreases |log|
  {
    if log != before {
      StepsExtend(before, Init(log));
    }
  }

  lemma TransactionExtends(before: seq<Tables>, log: seq<Tables>)
    requires before != [] && Transaction(before, log)
    ensures before <= log
  {
    if Steps(before, log) {
      StepsExtend(before, log);
    } else {
      StepsExtend(before, Init(log));
    }
  }

  lemma {:induction false} StepsJoin(a: seq<Tables>, b: seq<Tables>, c: seq<Tables>)
    requires a != [] && Steps(a, b) && b != [] && Steps(b, c)
    ensures Steps(a, c)
    decreases |c|
  {
    StepsExtend(a, b);
    if c != b {
      StepsExtend(b, c);
      StepsJoin(a, b, Init(c));
    }
  }

  /** Table `i` of a run of statements comes from the table before it by one statement. */
  lemma {:induction false} StepAt(before: seq<Tables>, log: seq<Tables>, i: nat)
    requires before != [] && Steps(before, log) && |before| <= i < |log|
    ensures OneStatement(log[i - 1], log[i])
    decreases |log|
  {
    if i < |log| - 1 {
      StepsExtend(before, Init(log));
      StepAt(before, Init(log), i);
    }
  }

  // ----- Each statement keeps the invariant -----

  ghost predicate NoParsedEdges(t: Tables, w: WorkId) {
    forall k :: k in t.edges ==> !ParsedBy(k, w)
  }

  ghost predicate HashOf(t: Tables, w: WorkId, hash: Digest) {
    forall r :: r in t.entries && t.entries[r].citing == w ==> t.entries[r].markdownHash == hash
  }

  lemma DeleteParsedEdgesKeeps(t: Tables, w: WorkId)
    requires Valid(t)
    ensures Valid(t.(edges := WithoutParsed(t.edges, w)))
  {
  }

  lemma DeleteEntriesKeeps(t: Tables, w: WorkId)
    requires Valid(t) && !EntriesPinned(t, w)
    ensures Valid(t.(entries := WithoutEntriesOf(t.entries, w)))
  {
    forall k | k in t.edges && t.edges[k].reference.Some?
      ensures t.edges[k].reference.value in WithoutEntriesOf(t.entries, w)
    {
      assert !NamesEntryOf(t, k, w);
    }
  }

  lemma InsertEntryKeeps(t: Tables, w: WorkId, raw: string, hash: Digest)
    requires Valid(t) && w in t.works
    ensures Valid(Inserted(t, w, raw, hash))
  {
  }

  lemma InsertWorkKeeps(t: Tables, w: WorkId)
    requires Valid(t)
    ensures Valid(WorkAdded(t, w))
  {
  }

  lemma InsertMemberKeeps(t: Tables, w: WorkId)
    requires Valid(t) && w in t.works
    ensures Valid(MemberAdded(t, w))
  {
  }

  /** A reason why no parsed edge names the entry `id`. */
  ghost predicate Undecided(t: Tables, id: RefId)
    requires id in t.entries
  {
    t.entries[id].status != Resolved || id in t.reviews || NoParsedEdges(t, t.entries[id].citing)
  }

  /** What the callers of UPDATE establish: no parsed edge can name the row, and it is resolved exactly if it
      has a target. */
  ghost predicate Settable(t: Tables, id: RefId, status: Status, target: Option<WorkId>) {
    id in t.entries ==> Undecided(t, id) && (status == Resolved <==> target.Some?)
  }

  /** What the callers of the review queue establish. */
  ghost predicate Reviewable(t: Tables, id: RefId, citing: WorkId) {
    id in t.entries && t.entries[id].status in {Ambiguous, Suspect} && t.entries[id].citing == citing
  }

  lemma UpdateEntryKeeps(t: Tables, id: RefId, e: Entry)
    requires Valid(t) && id in t.entries && Undecided(t, id)
    requires e.citing == t.entries[id].citing
    requires e.status == Resolved <==> e.target.Some?
    requires e.target.Some? ==> e.target.value in t.works
    ensures Valid(Updated(t, id, e))
  {
  }

  lemma EnqueueReviewKeeps(t: Tables, id: RefId)
    requires Valid(t) && id in t.entries && t.entries[id].status in {Ambiguous, Suspect}
    ensures Valid(Enqueued(t, id, t.entries[id].citing))
  {
  }

  lemma CloseReviewKeeps(t: Tables, id: RefId)
    requires Valid(t)
    ensures Valid(t.(reviews := t.reviews - {id}))
  {
  }

  /** What the callers of write_edge establish: a provider edge names no entry, a parsed edge names a decided
      entry that backs it, an approved edge an entry of its source. */
  ghost predicate Backed(t: Tables, k: EdgeKey, reference: Option<RefId>) {
    && (k.provenance == ProviderReference ==> reference == None)
    && (k.provenance == ParsedBibliography ==>
          && reference.Some? && reference.value in t.entries && reference.value !in t.reviews
          && Backs(t.entries[reference.value], k.source, k.target))
    && (k.provenance == ManualOverride ==>
          && reference.Some? && reference.value in t.entries && t.entries[reference.value].citing == k.source)
  }

  lemma WriteEdgeKeeps(t: Tables, k: EdgeKey, row: EdgeRow)
    requires Valid(t) && k.source in t.works && k.target in t.works && Backed(t, k, row.reference)
    requires row.reference.Some? ==> row.reference.value in t.entries
    ensures Valid(WithEdge(t, k, row))
  {
  }

  /** Every statement that is accepted, and issued with care, keeps the invariant. */
  lemma StatementKeeps(t: Tables, s: Statement)
    requires Valid(t) && Accepted(t, s) && Careful(t, s)
    ensures Valid(Effect(t, s))
  {
    match s
    case ClearEdges(w) => DeleteParsedEdgesKeeps(t, w);
    case ClearEntries(w) => DeleteEntriesKeeps(t, w);
    case InsertReference(w, raw, hash) => InsertEntryKeeps(t, w, raw, hash);
    case InsertWork(w) => InsertWorkKeeps(t, w);
    case InsertMember(w) => InsertMemberKeeps(t, w);
    case SetResolution(id, status, target, confidence) =>
      if id in t.entries {
        UpdateEntryKeeps(t, id, t.entries[id].(status := status, target := target, confidence := confidence));
      }
    case OpenReview(id, _) => EnqueueReviewKeeps(t, id);
    case EndReview(id) => CloseReviewKeeps(t, id);
    case InsertEdge(k, row) =>
      if k !in t.edges {
        WriteEdgeKeeps(t, k, row);
      }
  }

  lemma OneStatementKeeps(t: Tables, t': Tables)
    requires Valid(t) && OneStatement(t, t')
    ensures Valid(t')
  {
    var s :| Accepted(t, s) && Careful(t, s) && t' == Effect(t, s);
    StatementKeeps(t, s);
  }

  /** So every table of a run of statements meets the invariant if the first one does. */
  lemma {:induction false} StepsKeep(before: seq<Tables>, log: seq<Tables>, i: nat)
    requires before != [] && Steps(before, log) && Valid(Last(before)) && |before| <= i + 1 <= |log|
    ensures Valid(log[i])
    decreases i
  {
    StepsExtend(before, log);
    if |before| <= i {
      StepsKeep(before, log, i - 1);
      StepAt(before, log, i);
      OneStatementKeeps(log[i - 1], log[i]);
    }
  }

  /** And so does every table of a transaction, committed or rolled back. */
  lemma TransactionKeeps(before: seq<Tables>, log: seq<Tables>, i: nat)
    requires before != [] && Transaction(before, log) && Valid(Last(before)) && |before| <= i + 1 <= |log|
    ensures Valid(log[i])
  {
    if Steps(before, log) {
      StepsKeep(before, log, i);
    } else if i < |log| - 1 {
      StepsKeep(before, Init(log), i);
    }
  }

  lemma TransactionEndsValid(before: seq<Tables>, log: seq<Tables>)
    requires before != [] && Transaction(before, log) && Valid(Last(before))
    ensures log != [] && Valid(Last(log))
  {
    TransactionExtends(before, log);
    TransactionKeeps(before, log, |log| - 1);
  }

  /** One project connection.  Each method is one statement (`UpsertWork` two) and fails where SQLite would.
      `log` holds the tables at the start and after every statement and rollback since, oldest first. */
  class ProjectDb {
    var works: set<WorkId>
    var members: map<WorkId, Inclusion>
    var entries: map<RefId, Entry>
    var edges: map<EdgeKey, EdgeRow>
    var reviews: map<RefId, WorkId>
    var nextRef: RefId
    ghost var log: seq<Tables>

    function Snapshot(): Tables
      reads this
    {
      Tables(works, members, entries, edges, reviews, nextRef)
    }

    /** The log ends with the tables as they are. */
    ghost predicate Logged()
      reads this
    {
      log != [] && Last(log) == Snapshot()
    }

    /** And they meet the invariant. */
    ghost predicate Sound()
      reads this
    {
      Logged() && Valid(Snapshot())
    }

    constructor ()
      ensures Snapshot() == EMPTY && log == [EMPTY] && Sound()
    {
      works, members, entries, edges, reviews, nextRef := {}, map[], map[], map[], map[], 0;
      log := [EMPTY];
    }

    /** Session.rollback(): the tables as they were when the transaction began. */
    method Rollback(begin: Tables)
      modifies this
      ensures Snapshot() == begin && log == old(log) + [begin] && Logged()
    {
      works, members, entries := begin.works, begin.members, begin.entries;
      edges, reviews, nextRef := begin.edges, begin.reviews, begin.nextRef;
      log := log + [begin];
    }

    /** The ghost side of a statement that went through. */
    ghost method Note(s: Statement)
      requires log != [] && Snapshot() == Effect(Last(log), s)
      modifies this`log
      ensures Logged() && log == old(log) + [Snapshot()]
      ensures Accepted(Last(old(log)), s) && Careful(Last(old(log)), s) ==> Steps(old(log), log)
      ensures Accepted(Last(old(log)), s) && Careful(Last(old(log)), s) && Valid(Last(old(log))) ==> Valid(Snapshot())
    {
      OneMore(log, s);
      if Accepted(Last(log), s) && Careful(Last(log), s) && Valid(Last(log)) {
        StatementKeeps(Last(log), s);
      }
      log := log + [Snapshot()];
    }

    method DeleteParsedEdges(w: WorkId)
      requires Logged()
      modifies this
      ensures Snapshot() == old(Snapshot()).(edges := WithoutParsed(old(edges), w))
      ensures Logged() && log == old(log) + [Snapshot()] && Steps(old(log), log)
      ensures old(Sound()) ==> Sound()
    {
      edges := WithoutParsed(edges, w);
      Note(ClearEdges(w));
    }

    method DeleteEntries(w: WorkId) returns (ok: bool)
      requires Logged()
      modifies this
      ensures ok <==> !EntriesPinned(old(Snapshot()), w)
      ensures !ok ==> Snapshot() == old(Snapshot()) && log == old(log)
      ensures ok ==> Snapshot() == old(Snapshot()).(entries := WithoutEntriesOf(old(entries), w))
      ensures ok ==> log == old(log) + [Snapshot()]
      ensures Logged() && Steps(old(log), log) && (old(Sound()) ==> Sound())
    {
      var doomed := set r | r in entries && entries[r].citing == w;
      var pinned := set k | k in edges && edges[k].reference.Some? && edges[k].reference.value in doomed;
      ok := pinned == {};
      if ok {
        assert forall k :: NamesEntryOf(Snapshot(), k, w) ==> k in pinned;
        entries := WithoutEntriesOf(entries, w);
        Note(ClearEntries(w));
      } else {
        var k :| k in pinned;
        assert NamesEntryOf(Snapshot(), k, w);
      }
    }

    /** INSERT INTO reference_entries, refused when the citing work is missing. */
    method InsertEntry(w: WorkId, raw: string, hash: Digest) returns (ok: bool, id: RefId)
      requires Logged()
      modifies this
      ensures ok <==> w in old(works)
      ensures id == old(nextRef)
      ensures !ok ==> Snapshot() == old(Snapshot()) && log == old(log)
      ensures ok ==> Snapshot() == Inserted(old(Snapshot()), w, raw, hash) && log == old(log) + [Snapshot()]
      ensures Logged() && Steps(old(log), log) && (old(Sound()) ==> Sound())
    {
      id := nextRef;
      ok := w in works;
      if ok {
        entries := entries[id := Entry(w, raw, Unresolved, None, None, hash)];
        nextRef := id + 1;
        Note(InsertReference(w, raw, hash));
      }
    }

    method InsertWorkRow(w: WorkId)
      requires Logged()
      modifies this
      ensures Snapshot() == WorkAdded(old(Snapshot()), w) && log == old(log) + [Snapshot()]
      ensures Logged() && Steps(old(log), log) && (old(Sound()) ==> Sound())
    {
      works := works + {w};
      Note(InsertWork(w));
    }

    /** ensure_metadata_only: an existing membership row is kept; refused when the work is missing. */
    method EnsureMember(w: WorkId) returns (ok: bool)
      requires Logged()
      modifies this
      ensures ok <==> w in old(works)
      ensures !ok ==> Snapshot() == old(Snapshot()) && log == old(log)
      ensures ok ==> Snapshot() == MemberAdded(old(Snapshot()), w) && log == old(log) + [Snapshot()]
      ensures Logged() && Steps(old(log), log) && (old(Sound()) ==> Sound())
    {
      ok := w in works;
      if ok {
        if w !in members {
          members := members[w := MetadataOnly];
        }
        Note(InsertMember(w));
      }
    }

    /** identity.upsert_work, then ensure_metadata_only. */
    method UpsertWork(w: WorkId)
      requires Logged()
      modifies this
      ensures Snapshot() == Upserted(old(Snapshot()), w)
      ensures Logged() && Steps(old(log), log) && (old(Sound()) ==> Sound())
    {
      ghost var start := log;
      InsertWorkRow(w);
      ghost var middle := log;
      var ok := EnsureMember(w);
      StepsJoin(start, middle, log);
    }

    /** UPDATE reference_entries SET resolved_work_id, resolution_status, confidence WHERE reference_id = id:
        no row is no error, a missing target work is. */
    method UpdateEntry(id: RefId, status: Status, target: Option<WorkId>, confidence: Option<real>) returns (ok: bool)
      requires Logged()
      modifies this
      ensures ok <==> (id in old(entries) && target.Some? ==> target.value in old(works))
      ensures !ok ==> Snapshot() == old(Snapshot()) && log == old(log)
      ensures ok ==> Snapshot() == Effect(old(Snapshot()), SetResolution(id, status, target, confidence))
      ensures ok ==> log == old(log) + [Snapshot()]
      ensures Logged()
      ensures old(Settable(Snapshot(), id, status, target)) ==> Steps(old(log), log) && (old(Sound()) ==> Sound())
    {
      ok := id in entries && target.Some? ==> target.value in works;
      if ok {
        if id in entries {
          entries := entries[id := entries[id].(status := status, target := target, confidence := confidence)];
        }
        Note(SetResolution(id, status, target, confidence));
      }
    }

    /** INSERT INTO review_queue; the queue has no foreign key. */
    method EnqueueReview(id: RefId, citing: WorkId)
      requires Logged()
      modifies this
      ensures Snapshot() == Enqueued(old(Snapshot()), id, citing) && log == old(log) + [Snapshot()]
      ensures Logged()
      ensures old(Reviewable(Snapshot(), id, citing)) ==> Steps(old(log), log) && (old(Sound()) ==> Sound())
    {
      reviews := reviews[id := citing];
      Note(OpenReview(id, citing));
    }

    method CloseReview(id: RefId)
      requires Logged()
      modifies this
      ensures Snapshot() == old(Snapshot()).(reviews := old(reviews) - {id}) && log == old(log) + [Snapshot()]
      ensures Logged() && Steps(old(log), log) && (old(Sound()) ==> Sound())
    {
      reviews := reviews - {id};
      Note(EndReview(id));
    }

    /** edges.write_edge: INSERT .. ON CONFLICT DO NOTHING, refused when an endpoint or the named entry is missing. */
    method WriteEdge(k: EdgeKey, confidence: real, reference: Option<RefId>) returns (ok: bool)
      requires Logged()
      modifies this
      ensures ok <==> k in old(edges) ||
                      (k.source in old(works) && k.target in old(works) &&
                       (reference.Some? ==> reference.value in old(entries)))
      ensures !ok ==> Snapshot() == old(Snapshot()) && log == old(log)
      ensures ok ==> Snapshot() == WithEdge(old(Snapshot()), k, EdgeRow(confidence, reference))
      ensures ok ==> log == old(log) + [Snapshot()]
      ensures Logged()
      ensures k in old(edges) || old(Backed(Snapshot(), k, reference))
              ==> Steps(old(log), log) && (old(Sound()) ==> Sound())
    {
      ok := k in edges ||
            (k.source in works && k.target in works && (reference.Some? ==> reference.value in entries));
      if ok {
        if k !in edges {
          edges := edges[k := EdgeRow(confidence, reference)];
        }
        Note(InsertEdge(k, EdgeRow(confidence, reference)));
      }
    }
  }
}
