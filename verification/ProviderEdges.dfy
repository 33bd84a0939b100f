// citation/project_edges.py: provider edges projected offline from the cached reference lists.
module ProviderEdges {
  import opened Prelude
  import opened Lists
  import opened CitationTables
  import opened ProviderCache

  datatype StrongId = StrongId(idType: nat, value: nat)

  /** A works row with the normalized strong ids of its id columns, in column order. */
  datatype Work = Work(id: WorkId, ids: seq<StrongId>, record: Record)
  /** A cached reference with the normalized ids it carries, in the order they are tried. */
  datatype Ref = Ref(ids: seq<StrongId>, record: Record)
  datatype CacheRow = CacheRow(key: Key, references: Option<seq<Option<Ref>>>, fetchedAt: int, ttl: int)

  // ----- Reading the cache -----

  predicate Usable(row: CacheRow, now: int) {
    row.references.Some? && now - row.fetchedAt < row.ttl
  }

  /** The index of the first row that is fresh and holds a list, or |rows|. */
  function FirstUsable(rows: seq<CacheRow>, now: int): (j: nat)
    ensures j <= |rows| && (j < |rows| ==> Usable(rows[j], now))
    ensures forall i :: 0 <= i < j ==> !Usable(rows[i], now)
  {
    if rows == [] || Usable(rows[0], now) then 0 else 1 + FirstUsable(rows[1..], now)
  }

  /** The rows come newest first; the first usable one provides the list. */
  function CachedReferences(rows: seq<CacheRow>, now: int): seq<Option<Ref>> {
    var j := FirstUsable(rows, now);
    if j < |rows| then rows[j].references.value else []
  }

  /** So the list read is the newest usable one, and none is read only when none is usable. */
  lemma CachedReferencesAreNewest(rows: seq<CacheRow>, now: int, i: nat)
    requires forall p, q :: 0 <= p < q < |rows| ==> rows[p].fetchedAt >= rows[q].fetchedAt
    requires i < |rows| && Usable(rows[i], now)
    ensures var j := FirstUsable(rows, now);
            && j < |rows| && rows[j].fetchedAt >= rows[i].fetchedAt
            && CachedReferences(rows, now) == rows[j].references.value
  {
  }

  // ----- Who owns an id -----

  // The works rows and the identifiers rows, in the order they are read.
  datatype Directory = Directory(works: seq<Work>, identifiers: seq<(StrongId, WorkId)>)

  /** The first work with the id in one of its columns. */
  function ColumnOwner(works: seq<Work>, s: StrongId): Option<WorkId> {
    if works == [] then None
    else
      var before := ColumnOwner(works[..|works| - 1], s);
      if before.Some? then before
      else if s in works[|works| - 1].ids then Some(works[|works| - 1].id)
      else None
  }

  /** The work of the first identifiers row with the id. */
  function RowOwner(identifiers: seq<(StrongId, WorkId)>, s: StrongId): Option<WorkId> {
    if identifiers == [] then None
    else
      var before := RowOwner(identifiers[..|identifiers| - 1], s);
      if before.Some? then before
      else if identifiers[|identifiers| - 1].0 == s then Some(identifiers[|identifiers| - 1].1)
      else None
  }

  /** The work an id stands for: columns come before the identifiers table, and the first owner keeps it. */
  function OwnerOf(dir: Directory, s: StrongId): Option<WorkId> {
    var column := ColumnOwner(dir.works, s);
    if column.Some? then column else RowOwner(dir.identifiers, s)
  }

  ghost predicate FirstColumn(works: seq<Work>, s: StrongId, i: int) {
    0 <= i < |works| && s in works[i].ids && forall j :: 0 <= j < i ==> s !in works[j].ids
  }

  ghost predicate FirstRow(identifiers: seq<(StrongId, WorkId)>, s: StrongId, i: int) {
    0 <= i < |identifiers| && identifiers[i].0 == s && forall j :: 0 <= j < i ==> identifiers[j].0 != s
  }

  lemma {:induction false} ColumnOwnerIsFirst(works: seq<Work>, s: StrongId)
    ensures var o := ColumnOwner(works, s);
            && (o.Some? ==> exists i :: FirstColumn(works, s, i) && works[i].id == o.value)
            && (o.None? ==> forall i :: 0 <= i < |works| ==> s !in works[i].ids)
  {
    if works != [] {
      var n := |works| - 1;
      ColumnOwnerIsFirst(works[..n], s);
      var before := ColumnOwner(works[..n], s);
      if before.Some? {
        var i :| FirstColumn(works[..n], s, i) && works[..n][i].id == before.value;
        assert FirstColumn(works, s, i);
      } else {
        assert forall j :: 0 <= j < n ==> works[..n][j] == works[j];
        assert s in works[n].ids ==> FirstColumn(works, s, n);
      }
    }
  }

  lemma {:induction false} RowOwnerIsFirst(identifiers: seq<(StrongId, WorkId)>, s: StrongId)
    ensures var o := RowOwner(identifiers, s);
            && (o.Some? ==> exists i :: FirstRow(identifiers, s, i) && identifiers[i].1 == o.value)
            && (o.None? ==> forall i :: 0 <= i < |identifiers| ==> identifiers[i].0 != s)
  {
    if identifiers != [] {
      var n := |identifiers| - 1;
      RowOwnerIsFirst(identifiers[..n], s);
      var before := RowOwner(identifiers[..n], s);
      if before.Some? {
        var i :| FirstRow(identifiers[..n], s, i) && identifiers[..n][i].1 == before.value;
        assert FirstRow(identifiers, s, i);
      } else {
        assert forall j :: 0 <= j < n ==> identifiers[..n][j] == identifiers[j];
        assert identifiers[n].0 == s ==> FirstRow(identifiers, s, n);
      }
    }
  }

  /** An id stands for a work exactly if that work is the first to carry it in a column, or no work carries it in
      a column and the first identifiers row with the id is the work's. */
  lemma OwnerIff(dir: Directory, s: StrongId, w: WorkId)
    ensures OwnerOf(dir, s) == Some(w)
            <==> (exists i :: FirstColumn(dir.works, s, i) && dir.works[i].id == w)
                 || ((forall i :: 0 <= i < |dir.works| ==> s !in dir.works[i].ids)
                     && exists i :: FirstRow(dir.identifiers, s, i) && dir.identifiers[i].1 == w)
  {
    ColumnOwnerIsFirst(dir.works, s);
    RowOwnerIsFirst(dir.identifiers, s);
  }

  // ----- The resolver -----

  ghost predicate Holds(resolver: map<StrongId, WorkId>, s: StrongId, owner: Option<WorkId>) {
    if owner.Some? then s in resolver && resolver[s] == owner.value else s !in resolver
  }

  /** The map gives every id its owner, and nothing else. */
  ghost predicate IsResolver(resolver: map<StrongId, WorkId>, dir: Directory) {
    forall s :: Holds(resolver, s, OwnerOf(dir, s))
  }

  /** dict.setdefault over a list of ids: the first owner of an id keeps it. */
  method AddIds(resolver: map<StrongId, WorkId>, ids: seq<StrongId>, work: WorkId) returns (r: map<StrongId, WorkId>)
    ensures forall s :: s in resolver ==> s in r && r[s] == resolver[s]
    ensures forall s :: s in r <==> s in resolver || s in ids
    ensures forall s :: s in r && s !in resolver ==> r[s] == work
  {
    r := resolver;
    for i := 0 to |ids|
      invariant forall s :: s in resolver ==> s in r && r[s] == resolver[s]
      invariant forall s :: s in r <==> s in resolver || s in ids[..i]
      invariant forall s :: s in r && s !in resolver ==> r[s] == work
    {
      if ids[i] !in r {
        r := r[ids[i] := work];
      }
    }
    assert ids[..|ids|] == ids;
  }

  /** The owner once identifiers row `i` has been read: the one before, or the row's work. */
  function NextOwner(works: seq<Work>, identifiers: seq<(StrongId, WorkId)>, i: nat, s: StrongId): Option<WorkId>
    requires i < |identifiers|
  {
    var before := OwnerOf(Directory(works, identifiers[..i]), s);
    if before.Some? then before else if identifiers[i].0 == s then Some(identifiers[i].1) else None
  }

  lemma OwnerNext(works: seq<Work>, identifiers: seq<(StrongId, WorkId)>, i: nat, s: StrongId)
    requires i < |identifiers|
    ensures OwnerOf(Directory(works, identifiers[..i + 1]), s) == NextOwner(works, identifiers, i, s)
  {
    assert identifiers[..i + 1][..i] == identifiers[..i];
  }

  lemma AddRow(resolver: map<StrongId, WorkId>, works: seq<Work>, identifiers: seq<(StrongId, WorkId)>, i: nat)
    requires i < |identifiers| && IsResolver(resolver, Directory(works, identifiers[..i]))
    ensures var row := identifiers[i];
            var next := if row.0 in resolver then resolver else resolver[row.0 := row.1];
            IsResolver(next, Directory(works, identifiers[..i + 1]))
  {
    var row := identifiers[i];
    var next := if row.0 in resolver then resolver else resolver[row.0 := row.1];
    var after := Directory(works, identifiers[..i + 1]);
    forall s
      ensures Holds(next, s, OwnerOf(after, s))
    {
      OwnerNext(works, identifiers, i, s);
      assert Holds(resolver, s, OwnerOf(Directory(works, identifiers[..i]), s));
      assert Holds(resolver, row.0, OwnerOf(Directory(works, identifiers[..i]), row.0));
    }
  }

  /** Every id of an existing work, in a column or in the identifiers table, is mapped to its owner. */
  method BuildResolver(dir: Directory) returns (resolver: map<StrongId, WorkId>)
    ensures IsResolver(resolver, dir)
  {
    var works, identifiers := dir.works, dir.identifiers;
    resolver := map[];
    for i := 0 to |works|
      invariant forall s :: Holds(resolver, s, ColumnOwner(works[..i], s))
    {
      assert works[..i + 1][..i] == works[..i];
      resolver := AddIds(resolver, works[i].ids, works[i].id);
    }
    assert works[..|works|] == works;
    assert forall s :: OwnerOf(Directory(works, identifiers[..0]), s) == ColumnOwner(works, s);
    for i := 0 to |identifiers|
      invariant IsResolver(resolver, Directory(works, identifiers[..i]))
    {
      AddRow(resolver, works, identifiers, i);
      if identifiers[i].0 !in resolver {
        resolver := resolver[identifiers[i].0 := identifiers[i].1];
      }
    }
    assert identifiers[..|identifiers|] == identifiers;
  }

  /** The first id of a reference that some work owns decides its target. */
  function Target(dir: Directory, ids: seq<StrongId>): Option<WorkId> {
    if ids == [] then None
    else if OwnerOf(dir, ids[0]).Some? then OwnerOf(dir, ids[0])
    else Target(dir, ids[1..])
  }

  /** A reference has no target exactly if none of its ids is owned, and else that of its first owned id. */
  lemma {:induction false} TargetIff(dir: Directory, ids: seq<StrongId>)
    ensures var t := Target(dir, ids);
            && (t.None? <==> forall i :: 0 <= i < |ids| ==> OwnerOf(dir, ids[i]).None?)
            && (t.Some? ==> exists i :: 0 <= i < |ids| && OwnerOf(dir, ids[i]) == t
                                        && forall j :: 0 <= j < i ==> OwnerOf(dir, ids[j]).None?)
  {
    if ids != [] && OwnerOf(dir, ids[0]).None? {
      TargetIff(dir, ids[1..]);
      assert forall i :: 1 <= i < |ids| ==> ids[i] == ids[1..][i - 1];
      var t := Target(dir, ids);
      if t.Some? {
        var i :| 0 <= i < |ids[1..]| && OwnerOf(dir, ids[1..][i]) == t
                 && forall j :: 0 <= j < i ==> OwnerOf(dir, ids[1..][j]).None?;
        assert OwnerOf(dir, ids[i + 1]) == t;
      }
    }
  }

  method ResolveTarget(dir: Directory, ids: seq<StrongId>, resolver: map<StrongId, WorkId>) returns (r: Option<WorkId>)
    requires IsResolver(resolver, dir)
    ensures r == Target(dir, ids)
  {
    for i := 0 to |ids|
      invariant Target(dir, ids) == Target(dir, ids[i..])
    {
      assert Holds(resolver, ids[i], OwnerOf(dir, ids[i]));
      assert ids[i..][1..] == ids[i + 1..];
      if ids[i] in resolver {
        return Some(resolver[ids[i]]);
      }
    }
    r := None;
  }

  // ----- The projection -----

  /** One cached reference of one work. */
  datatype Item = Item(source: WorkId, ref: Ref)

  function EdgeFor(source: WorkId, target: WorkId, run: RunId): EdgeKey {
    EdgeKey(source, target, ProviderReference, run)
  }

  /** The dict references of a cached list, in order. */
  ghost function Items(source: WorkId, refs: seq<Option<Ref>>): seq<Item> {
    if refs == [] then []
    else Items(source, refs[..|refs| - 1]) +
         if refs[|refs| - 1].Some? then [Item(source, refs[|refs| - 1].value)] else []
  }

  lemma ItemsNext(before: seq<Item>, source: WorkId, refs: seq<Option<Ref>>, i: nat)
    requires i < |refs|
    ensures before + Items(source, refs[..i + 1])
            == if refs[i].Some? then before + Items(source, refs[..i]) + [Item(source, refs[i].value)]
               else before + Items(source, refs[..i])
  {
    assert refs[..i + 1][..i] == refs[..i];
  }

  /** All cached references of all works, in the order the projection visits them. */
  ghost function AllItems(works: seq<Work>, rows: map<Key, seq<CacheRow>>, fold: RawId -> Option<RawId>, now: int):
    seq<Item>
  {
    if works == [] then []
    else AllItems(works[..|works| - 1], rows, fold, now) +
         Items(works[|works| - 1].id, ListOf(works[|works| - 1], rows, fold, now))
  }

  lemma AllItemsNext(works: seq<Work>, rows: map<Key, seq<CacheRow>>, fold: RawId -> Option<RawId>, now: int, i: nat)
    requires i < |works|
    ensures AllItems(works[..i + 1], rows, fold, now)
            == AllItems(works[..i], rows, fold, now) + Items(works[i].id, ListOf(works[i], rows, fold, now))
  {
    assert works[..i + 1][..i] == works[..i];
  }

  /** The list cached under the work's own request key. */
  function ListOf(w: Work, rows: map<Key, seq<CacheRow>>, fold: RawId -> Option<RawId>, now: int): seq<Option<Ref>> {
    var key := CanonicalRequestId(w.record, fold);
    if key in rows then CachedReferences(rows[key], now) else []
  }

  /** The rows once a list has been fetched for `r`: the new row is the newest under the key of `r`. */
  function Fetched(
      rows: map<Key, seq<CacheRow>>, r: Record, fold: RawId -> Option<RawId>, refs: seq<Option<Ref>>, now: int,
      ttl: int):
    map<Key, seq<CacheRow>>
  {
    var key := CanonicalRequestId(r, fold);
    rows[key := [CacheRow(key, Some(refs), now, ttl)] + if key in rows then rows[key] else []]
  }

  /** A list fetched for a record is what the projection reads for the filled-in work, while it is fresh, if and only
      if no preferred id has been filled in since; otherwise the projection reads what it read without it. */
  lemma FetchedListIsReadIff(
      rows: map<Key, seq<CacheRow>>, w: Work, r: Record, fold: RawId -> Option<RawId>, refs: seq<Option<Ref>>,
      now: int, later: int, ttl: int)
    requires FilledIn(r, w.record) && later - now < ttl
    ensures ListOf(w, Fetched(rows, r, fold, refs, now, ttl), fold, later)
            == if NothingPreferredFilledIn(r, w.record, fold) then refs else ListOf(w, rows, fold, later)
  {
    KeyStableIff(r, w.record, fold);
    var key := CanonicalRequestId(r, fold);
    var list := Fetched(rows, r, fold, refs, now, ttl)[key];
    assert list[0] == CacheRow(key, Some(refs), now, ttl) && Usable(list[0], later);
    assert FirstUsable(list, later) == 0;
  }

  /** A list whose key no work has any more changes no projection: its references are lost to sight. */
  lemma {:induction false} LostListChangesNothing(
      works: seq<Work>, rows: map<Key, seq<CacheRow>>, r: Record, fold: RawId -> Option<RawId>, refs: seq<Option<Ref>>,
      now: int, later: int, ttl: int)
    requires forall i :: 0 <= i < |works| ==> CanonicalRequestId(works[i].record, fold) != CanonicalRequestId(r, fold)
    ensures AllItems(works, Fetched(rows, r, fold, refs, now, ttl), fold, later) == AllItems(works, rows, fold, later)
  {
    if works != [] {
      var n := |works| - 1;
      LostListChangesNothing(works[..n], rows, r, fold, refs, now, later, ttl);
    }
  }

  /** The edges the references ask for: one per reference with a target. */
  ghost function WantedEdges(items: seq<Item>, dir: Directory, run: RunId): set<EdgeKey> {
    if items == [] then {}
    else
      var it := items[|items| - 1];
      var target := Target(dir, it.ref.ids);
      WantedEdges(items[..|items| - 1], dir, run) +
      if target.Some? then {EdgeFor(it.source, target.value, run)} else {}
  }

  /** The request ids of the references without a target, each at its first occurrence. */
  ghost function UnresolvedIds(items: seq<Item>, dir: Directory, fold: RawId -> Option<RawId>): seq<Key> {
    if items == [] then []
    else
      var it, before := items[|items| - 1], UnresolvedIds(items[..|items| - 1], dir, fold);
      var key := CanonicalRequestId(it.ref.record, fold);
      if Target(dir, it.ref.ids).Some? || key in before then before else before + [key]
  }

  /** Every reference ends up in one of the two: as an edge of the run or by its id in the diagnostic. */
  lemma {:induction false} EveryReferenceAccounted(
      items: seq<Item>, i: nat, dir: Directory, fold: RawId -> Option<RawId>, run: RunId)
    requires i < |items|
    ensures var target := Target(dir, items[i].ref.ids);
            if target.Some? then EdgeFor(items[i].source, target.value, run) in WantedEdges(items, dir, run)
            else CanonicalRequestId(items[i].ref.record, fold) in UnresolvedIds(items, dir, fold)
  {
    if i < |items| - 1 {
      EveryReferenceAccounted(items[..|items| - 1], i, dir, fold, run);
    }
  }

  lemma {:induction false} OnlyReferencesWanted(items: seq<Item>, dir: Directory, run: RunId, k: EdgeKey)
    requires k in WantedEdges(items, dir, run)
    ensures exists i :: 0 <= i < |items| && Target(dir, items[i].ref.ids) == Some(k.target) &&
                        k == EdgeFor(items[i].source, k.target, run)
  {
    var n := |items| - 1;
    if k in WantedEdges(items[..n], dir, run) {
      OnlyReferencesWanted(items[..n], dir, run, k);
      var i :| 0 <= i < n && Target(dir, items[..n][i].ref.ids) == Some(k.target) &&
               k == EdgeFor(items[..n][i].source, k.target, run);
      assert items[..n][i] == items[i];
    }
  }

  lemma ItemsStep(items: seq<Item>, it: Item, dir: Directory, fold: RawId -> Option<RawId>, run: RunId)
    ensures var target := Target(dir, it.ref.ids);
            && WantedEdges(items + [it], dir, run)
               == (if target.None? then WantedEdges(items, dir, run)
                   else WantedEdges(items, dir, run) + {EdgeFor(it.source, target.value, run)})
            && UnresolvedIds(items + [it], dir, fold)
               == (var before, key := UnresolvedIds(items, dir, fold), CanonicalRequestId(it.ref.record, fold);
                   if target.Some? || key in before then before else before + [key])
  {
    assert (items + [it])[..|items|] == items;
  }

  /** The edge table grew by the edges `wanted`, and the counter is the number of rows added. */
  ghost predicate EdgesAdded(e0: map<EdgeKey, EdgeRow>, e1: map<EdgeKey, EdgeRow>, wanted: set<EdgeKey>, written: nat) {
    && (forall k :: k in e0 ==> k in e1 && e1[k] == e0[k])
    && (forall k :: k in e1 <==> k in e0 || k in wanted)
    && (forall k :: k in e1 && k !in e0 ==> e1[k] == EdgeRow(1.0, None))
    && |e1| == |e0| + written
  }

  ghost predicate ProjectionOf(
      t0: Tables, t1: Tables, items: seq<Item>, dir: Directory, fold: RawId -> Option<RawId>,
      run: RunId, written: nat, unresolved: seq<Key>)
  {
    && t1 == t0.(edges := t1.edges)
    && EdgesAdded(t0.edges, t1.edges, WantedEdges(items, dir, run), written)
    && unresolved == UnresolvedIds(items, dir, fold)
  }

  lemma AddOneEdge(
      e0: map<EdgeKey, EdgeRow>, e1: map<EdgeKey, EdgeRow>, wanted: set<EdgeKey>, written: nat, k: EdgeKey,
      row: EdgeRow)
    requires EdgesAdded(e0, e1, wanted, written) && row == EdgeRow(1.0, None)
    ensures k in e1 ==> EdgesAdded(e0, e1, wanted + {k}, written)
    ensures k !in e1 ==> EdgesAdded(e0, e1[k := row], wanted + {k}, written + 1)
  {
  }

  /** Only existing works are named. */
  ghost predicate InTables(dir: Directory, t: Tables) {
    && (forall i :: 0 <= i < |dir.works| ==> dir.works[i].id in t.works)
    && (forall i :: 0 <= i < |dir.identifiers| ==> dir.identifiers[i].1 in t.works)
  }

  lemma {:induction false} OwnerExists(dir: Directory, t: Tables, s: StrongId)
    requires InTables(dir, t)
    ensures OwnerOf(dir, s).Some? ==> OwnerOf(dir, s).value in t.works
  {
    ColumnOwnerIsFirst(dir.works, s);
    RowOwnerIsFirst(dir.identifiers, s);
  }

  lemma {:induction false} TargetExists(dir: Directory, t: Tables, ids: seq<StrongId>)
    requires InTables(dir, t)
    ensures Target(dir, ids).Some? ==> Target(dir, ids).value in t.works
  {
    if ids != [] {
      OwnerExists(dir, t, ids[0]);
      TargetExists(dir, t, ids[1..]);
    }
  }

  // What stays the same during one projection: the tables and the log at its start, and its arguments.
  datatype Job = Job(start: Tables, log: seq<Tables>, dir: Directory, fold: RawId -> Option<RawId>, run: RunId)

  /** The projection has handled `items`. */
  ghost predicate Handled(job: Job, db: ProjectDb, items: seq<Item>, written: nat, unresolved: seq<Key>)
    reads db
  {
    && db.Sound() && job.log != [] && Steps(job.log, db.log)
    && ProjectionOf(job.start, db.Snapshot(), items, job.dir, job.fold, job.run, written, unresolved)
  }

  lemma RefDiagnosed(job: Job, t: Tables, items: seq<Item>, it: Item, written: nat, unresolved: seq<Key>)
    requires ProjectionOf(job.start, t, items, job.dir, job.fold, job.run, written, unresolved)
    requires Target(job.dir, it.ref.ids).None?
    ensures var key := CanonicalRequestId(it.ref.record, job.fold);
            ProjectionOf(job.start, t, items + [it], job.dir, job.fold, job.run, written,
                         if key in unresolved then unresolved else unresolved + [key])
  {
    ItemsStep(items, it, job.dir, job.fold, job.run);
  }

  lemma RefWritten(job: Job, t: Tables, items: seq<Item>, it: Item, written: nat, unresolved: seq<Key>, row: EdgeRow)
    requires ProjectionOf(job.start, t, items, job.dir, job.fold, job.run, written, unresolved)
    requires Target(job.dir, it.ref.ids).Some? && row == EdgeRow(1.0, None)
    ensures var k := EdgeFor(it.source, Target(job.dir, it.ref.ids).value, job.run);
            ProjectionOf(job.start, WithEdge(t, k, row), items + [it], job.dir, job.fold, job.run,
                         if k in t.edges then written else written + 1, unresolved)
  {
    var k := EdgeFor(it.source, Target(job.dir, it.ref.ids).value, job.run);
    ItemsStep(items, it, job.dir, job.fold, job.run);
    AddOneEdge(job.start.edges, t.edges, WantedEdges(items, job.dir, job.run), written, k, row);
  }

  method AddEdge(db: ProjectDb, k: EdgeKey, ghost start: seq<Tables>)
    requires db.Sound() && start != [] && Steps(start, db.log)
    requires k.source in db.works && k.target in db.works && k.provenance == ProviderReference
    modifies db
    ensures db.Sound() && Steps(start, db.log)
    ensures db.Snapshot() == WithEdge(old(db.Snapshot()), k, EdgeRow(1.0, None))
  {
    ghost var log := db.log;
    var ok := db.WriteEdge(k, 1.0, None);
    StepsJoin(start, log, db.log);
  }

  method ProjectRef(
      db: ProjectDb, w: WorkId, ref: Ref, dir: Directory, resolver: map<StrongId, WorkId>, fold: RawId -> Option<RawId>,
      run: RunId, written0: nat, unresolved0: seq<Key>, ghost job: Job, ghost items: seq<Item>)
      returns (written: nat, unresolved: seq<Key>)
    requires IsResolver(resolver, dir) && InTables(dir, job.start) && w in job.start.works
    requires job.dir == dir && job.fold == fold && job.run == run
    requires Handled(job, db, items, written0, unresolved0)
    modifies db
    ensures Handled(job, db, items + [Item(w, ref)], written, unresolved)
  {
    ghost var t := db.Snapshot();
    written, unresolved := written0, unresolved0;
    var target := ResolveTarget(dir, ref.ids, resolver);
    if target.None? {
      RefDiagnosed(job, t, items, Item(w, ref), written, unresolved);
      var key := CanonicalRequestId(ref.record, fold);
      if key !in unresolved {
        unresolved := unresolved + [key];
      }
    } else {
      TargetExists(dir, job.start, ref.ids);
      RefWritten(job, t, items, Item(w, ref), written, unresolved, EdgeRow(1.0, None));
      var k := EdgeFor(w, target.value, run);
      if k !in db.edges {
        written := written + 1;
      }
      AddEdge(db, k, job.log);
    }
  }

  method ProjectWork(
      db: ProjectDb, w: WorkId, refs: seq<Option<Ref>>, dir: Directory, resolver: map<StrongId, WorkId>,
      fold: RawId -> Option<RawId>, run: RunId, written0: nat, unresolved0: seq<Key>, ghost job: Job,
      ghost items: seq<Item>)
      returns (written: nat, unresolved: seq<Key>)
    requires IsResolver(resolver, dir) && InTables(dir, job.start) && w in job.start.works
    requires job.dir == dir && job.fold == fold && job.run == run
    requires Handled(job, db, items, written0, unresolved0)
    modifies db
    ensures Handled(job, db, items + Items(w, refs), written, unresolved)
  {
    written, unresolved := written0, unresolved0;
    ghost var seen := items;
    assert items + Items(w, refs[..0]) == items;
    for i := 0 to |refs|
      invariant seen == items + Items(w, refs[..i])
      invariant Handled(job, db, seen, written, unresolved)
    {
      ItemsNext(items, w, refs, i);
      if refs[i].Some? {
        written, unresolved :=
          ProjectRef(db, w, refs[i].value, dir, resolver, fold, run, written, unresolved, job, seen);
        seen := seen + [Item(w, refs[i].value)];
      }
    }
    assert refs[..|refs|] == refs;
  }

  /** Creates no work; gives every cached reference of every work an edge of the run to the owner of its first owned
      id, or one place in the unresolved list, and nothing else; counts exactly the rows it added. */
  method ProjectProviderEdges(
      db: ProjectDb, dir: Directory, rows: map<Key, seq<CacheRow>>, fold: RawId -> Option<RawId>, now: int, run: RunId)
      returns (written: nat, unresolved: seq<Key>)
    requires db.Sound() && InTables(dir, db.Snapshot())
    modifies db
    ensures db.Sound() && Steps(old(db.log), db.log)
    ensures var items := AllItems(dir.works, rows, fold, now);
            ProjectionOf(old(db.Snapshot()), db.Snapshot(), items, dir, fold, run, written, unresolved)
  {
    var works := dir.works;
    ghost var job := Job(db.Snapshot(), db.log, dir, fold, run);
    var resolver := BuildResolver(dir);
    written, unresolved := 0, [];
    for i := 0 to |works|
      invariant Handled(job, db, AllItems(works[..i], rows, fold, now), written, unresolved)
    {
      AllItemsNext(works, rows, fold, now, i);
      written, unresolved := ProjectWork(db, works[i].id, ListOf(works[i], rows, fold, now), dir, resolver, fold, run,
                                         written, unresolved, job, AllItems(works[..i], rows, fold, now));
    }
    assert works[..|works|] == works;
  }

  /** Projecting the same cache into the same run again adds no row. */
  lemma RepeatAddsNothing(
      t0: Tables, t1: Tables, t2: Tables, items: seq<Item>, dir: Directory, fold: RawId -> Option<RawId>,
      run: RunId, written: nat, written': nat, unresolved: seq<Key>, unresolved': seq<Key>)
    requires ProjectionOf(t0, t1, items, dir, fold, run, written, unresolved)
    requires ProjectionOf(t1, t2, items, dir, fold, run, written', unresolved')
    ensures t2 == t1 && written' == 0
    ensures unresolved' == unresolved
  {
    assert t2.edges == t1.edges;
  }

  /** The same for the two calls themselves. */
  method ProjectTwice(
      db: ProjectDb, dir: Directory, rows: map<Key, seq<CacheRow>>, fold: RawId -> Option<RawId>, now: int, run: RunId)
      returns (first: nat, second: nat)
    requires db.Sound() && InTables(dir, db.Snapshot())
    modifies db
    ensures second == 0 && |db.edges| == |old(db.edges)| + first
  {
    ghost var t0 := db.Snapshot();
    var unresolved, again;
    first, unresolved := ProjectProviderEdges(db, dir, rows, fold, now, run);
    ghost var t1 := db.Snapshot();
    second, again := ProjectProviderEdges(db, dir, rows, fold, now, run);
    ghost var items := AllItems(dir.works, rows, fold, now);
    RepeatAddsNothing(t0, t1, db.Snapshot(), items, dir, fold, run, first, second, unresolved, again);
  }

  // ----- A projection in rows and columns -----

  /** A cached list is read from the first row that holds one and has not run out. */
  lemma UsableIs(row: CacheRow, now: int)
    ensures Usable(row, now) <==> row.references.Some? && row.fetchedAt + row.ttl > now
  {
  }

  lemma {:induction false} ItemIn(works: seq<Work>, rows: map<Key, seq<CacheRow>>, fold: RawId -> Option<RawId>,
                                  now: int, it: Item)
    ensures it in AllItems(works, rows, fold, now)
            <==> exists i :: 0 <= i < |works| && works[i].id == it.source &&
                             Some(it.ref) in ListOf(works[i], rows, fold, now)
  {
    if works != [] {
      var n := |works| - 1;
      ItemIn(works[..n], rows, fold, now, it);
      InItems(works[n].id, ListOf(works[n], rows, fold, now), it);
      assert forall i :: 0 <= i < n ==> works[..n][i] == works[i];
    }
  }

  lemma {:induction false} InItems(source: WorkId, refs: seq<Option<Ref>>, it: Item)
    ensures it in Items(source, refs) <==> it.source == source && Some(it.ref) in refs
  {
    if refs != [] {
      var n := |refs| - 1;
      InItems(source, refs[..n], it);
      assert refs == refs[..n] + [refs[n]];
    }
  }

  lemma {:induction false} WantedIff(items: seq<Item>, dir: Directory, run: RunId, k: EdgeKey)
    ensures k in WantedEdges(items, dir, run)
            <==> && k.provenance == ProviderReference && k.run == run
                 && exists it :: it in items && it.source == k.source && Target(dir, it.ref.ids) == Some(k.target)
  {
    if items != [] {
      var n := |items| - 1;
      WantedIff(items[..n], dir, run, k);
      assert items == items[..n] + [items[n]];
    }
  }

  /** An edge is wanted exactly for each reference cached for a work of the directory whose first known id has an
      owner. */
  lemma WantedFromRows(
      works: seq<Work>, rows: map<Key, seq<CacheRow>>, now: int, dir: Directory, fold: RawId -> Option<RawId>,
      run: RunId, k: EdgeKey)
    ensures k in WantedEdges(AllItems(works, rows, fold, now), dir, run)
            <==> && k.provenance == ProviderReference && k.run == run
                 && exists i, ref :: && 0 <= i < |works| && works[i].id == k.source
                                     && Some(ref) in ListOf(works[i], rows, fold, now)
                                     && Target(dir, ref.ids) == Some(k.target)
  {
    var items := AllItems(works, rows, fold, now);
    WantedIff(items, dir, run, k);
    if k in WantedEdges(items, dir, run) {
      var it :| it in items && it.source == k.source && Target(dir, it.ref.ids) == Some(k.target);
      ItemIn(works, rows, fold, now, it);
    }
    forall i, ref | 0 <= i < |works| && works[i].id == k.source && Some(ref) in ListOf(works[i], rows, fold, now)
      ensures Item(k.source, ref) in items
    {
      ItemIn(works, rows, fold, now, Item(k.source, ref));
    }
  }

  /** After a projection the edges are those that were there and, with confidence one and no entry, in the run one
      provider edge from each work to the owner of the first known id of each reference cached for it. */
  lemma ProjectedEdgesAre(
      t0: Tables, t1: Tables, rows: map<Key, seq<CacheRow>>, now: int, dir: Directory, fold: RawId -> Option<RawId>,
      run: RunId, written: nat, unresolved: seq<Key>, k: EdgeKey)
    requires ProjectionOf(t0, t1, AllItems(dir.works, rows, fold, now), dir, fold, run, written, unresolved)
    ensures k in t1.edges
            <==> || k in t0.edges
                 || (&& k.provenance == ProviderReference && k.run == run
                     && exists i, ref :: && 0 <= i < |dir.works| && dir.works[i].id == k.source
                                         && Some(ref) in ListOf(dir.works[i], rows, fold, now)
                                         && Target(dir, ref.ids) == Some(k.target))
    ensures k in t0.edges ==> t1.edges[k] == t0.edges[k]
    ensures k in t1.edges && k !in t0.edges ==> t1.edges[k] == EdgeRow(1.0, None)
    ensures t1 == t0.(edges := t1.edges) && |t1.edges| == |t0.edges| + written
  {
    WantedFromRows(dir.works, rows, now, dir, fold, run, k);
  }

  /** The diagnostic lists the request id of each reference without a target, once. */
  lemma {:induction false} UnresolvedAre(items: seq<Item>, dir: Directory, fold: RawId -> Option<RawId>, key: Key)
    ensures NoDuplicates(UnresolvedIds(items, dir, fold))
    ensures key in UnresolvedIds(items, dir, fold)
            <==> exists it :: it in items && Target(dir, it.ref.ids).None? &&
                              CanonicalRequestId(it.ref.record, fold) == key
  {
    if items != [] {
      var n := |items| - 1;
      UnresolvedAre(items[..n], dir, fold, key);
      assert items == items[..n] + [items[n]];
    }
  }
}
