// What the parsed-bibliography lifecycle promises across calls, works and runs.
module ParsedBibLaws {
  import opened Prelude
  import opened CitationTables
  import opened ParsedBib

  // ----- One successful call -----

  /** A call leaves every other work's entries, and every edge that is not a parsed edge of `w`, as they were. */
  lemma CallTouchesOnlyItsWork(t0: Tables, t1: Tables, env: Environment, w: WorkId, run: RunId, force: bool)
    requires Settled(t0) && Called(t0, t1, env, w, run, force)
    ensures WithoutParsed(t1.edges, w) == WithoutParsed(t0.edges, w)
    ensures WithoutEntriesOf(t1.entries, w) == WithoutEntriesOf(t0.entries, w)
  {
    var middle := AfterStageA(t0, env, w, env.markdown.value, force);
    ProjectionTouchesOnlyItsWork(middle, t1, w, run);
    if NeedsParse(t0, w, env.markdown.value, force) {
      StageATouchesOnlyItsWork(t0, w, Parsed(env), env.resolve(Parsed(env)).value, env.markdown.value);
    }
  }

  lemma ProjectionTouchesOnlyItsWork(t0: Tables, t1: Tables, w: WorkId, run: RunId)
    requires Projected(t0, t1, w, run)
    ensures WithoutParsed(t1.edges, w) == WithoutParsed(t0.edges, w) && t1.entries == t0.entries
  {
    assert forall k :: k in t1.edges && !ParsedBy(k, w) ==> k in t0.edges;
  }

  lemma StageATouchesOnlyItsWork(t: Tables, w: WorkId, parsed: seq<string>, res: seq<Resolution>, hash: Digest)
    requires Valid(t)
    ensures var r := StageAResult(t, w, parsed, res, hash);
            && WithoutParsed(r.edges, w) == WithoutParsed(t.edges, w)
            && WithoutEntriesOf(r.entries, w) == WithoutEntriesOf(t.entries, w)
  {
    var r := StageAResult(t, w, parsed, res, hash);
    StageAEdges(t, w, parsed, res, hash);
    var before, after := WithoutEntriesOf(t.entries, w), WithoutEntriesOf(r.entries, w);
    forall id
      ensures id in after <==> id in before
      ensures id in before ==> after[id] == before[id]
    {
      StageAEntry(t, w, parsed, res, hash, id);
    }
  }

  /** Whether Stage A ran or was skipped, the targets of w's parsed edges in the run are exactly the
      targets of w's resolved entries; a reparse leaves no parsed edge of `w` in any other run, and without one
      (a new run over unchanged markdown, say) everything that was there is kept. */
  lemma CallProjectsResolvedTargets(t0: Tables, t1: Tables, env: Environment, w: WorkId, run: RunId, force: bool)
    requires Settled(t0) && Called(t0, t1, env, w, run, force)
    ensures forall target :: HasParsedEdge(t1, w, target, run) <==> HasResolvedTarget(t1, w, target)
    ensures NeedsParse(t0, w, env.markdown.value, force) ==>
              forall k :: k in t1.edges && ParsedBy(k, w) ==> k.run == run
    ensures !NeedsParse(t0, w, env.markdown.value, force) ==>
              && t1 == t0.(edges := t1.edges)
              && forall k :: k in t0.edges ==> k in t1.edges && t1.edges[k] == t0.edges[k]
  {
    var hash := env.markdown.value;
    if NeedsParse(t0, w, hash, force) {
      StageAEdges(t0, w, Parsed(env), env.resolve(Parsed(env)).value, hash);
    }
    forall target
      ensures HasResolvedTarget(AfterStageA(t0, env, w, hash, force), w, target) <==> HasResolvedTarget(t1, w, target)
    {
      assert t1.entries == AfterStageA(t0, env, w, hash, force).entries;
    }
  }

  /** The row of the i-th parsed reference, with the resolution zip() pairs it with, if any. */
  function ParsedRow(env: Environment, w: WorkId, i: nat): Entry
    requires env.markdown.Some? && env.resolve(Parsed(env)).Got? && i < |Parsed(env)|
  {
    var res := env.resolve(Parsed(env)).value;
    var row := Entry(w, Parsed(env)[i], Unresolved, None, None, env.markdown.value);
    if i < |res| then AppliedEntry(row, res[i]) else row
  }

  /** After a reparse w's entries are exactly the parsed references, in order, each carrying its own
      resolution and the current hash. */
  lemma ReparseKeepsEveryReference(t0: Tables, t1: Tables, env: Environment, w: WorkId, run: RunId, force: bool)
    requires Settled(t0) && Called(t0, t1, env, w, run, force) && NeedsParse(t0, w, env.markdown.value, force)
    ensures forall id: RefId :: id in EntriesOf(t1, w) <==> t0.nextRef <= id < t0.nextRef + |Parsed(env)|
    ensures forall id: RefId :: t0.nextRef <= id < t0.nextRef + |Parsed(env)| ==>
              id in t1.entries && t1.entries[id] == ParsedRow(env, w, id - t0.nextRef)
  {
    forall id: RefId
      ensures id in EntriesOf(t1, w) <==> t0.nextRef <= id < t0.nextRef + |Parsed(env)|
      ensures t0.nextRef <= id < t0.nextRef + |Parsed(env)| ==>
                id in t1.entries && t1.entries[id] == ParsedRow(env, w, id - t0.nextRef)
    {
      StageAEntry(t0, w, Parsed(env), env.resolve(Parsed(env)).value, env.markdown.value, id);
    }
  }

  // ----- Two successful calls -----

  /** A second unforced call for the same work and run at an unchanged hash changes nothing at all, if and only if
      the work has entries or the parser still finds none: a work without entries is parsed on every call. */
  lemma SecondCallChangesNothingIff(
      t0: Tables, t1: Tables, t2: Tables, env: Environment, env': Environment, w: WorkId, run: RunId, force: bool)
    requires Settled(t0) && Called(t0, t1, env, w, run, force)
    requires Settled(t1) && Called(t1, t2, env', w, run, false) && env'.markdown == env.markdown
    ensures t2 == t1 <==> EntriesOf(t1, w) != {} || Parsed(env') == []
  {
    EntriesCarryTheHash(t0, t1, env, w, run, force);
    if EntriesOf(t1, w) != {} || Parsed(env') == [] {
      if EntriesOf(t1, w) == {} {
        EmptyReparseChangesNothing(t1, w, env'.resolve([]), env.markdown.value);
      }
      ProjectingAgainChangesNothing(t0, t1, t2, env, env', w, run, force);
    } else {
      ReparseKeepsEveryReference(t1, t2, env', w, run, false);
      assert t1.nextRef in EntriesOf(t2, w);
    }
  }

  /** A projection whose every edge is there already. */
  lemma NoEdgeIsNew(t1: Tables, t2: Tables, w: WorkId, run: RunId)
    requires Projected(t1, t2, w, run)
    requires forall target :: HasResolvedTarget(t1, w, target) ==> HasParsedEdge(t1, w, target, run)
    ensures t2 == t1
  {
    forall k | k in t2.edges
      ensures k in t1.edges
    {
      assert k in t1.edges || k == EdgeKey(w, k.target, ParsedBibliography, run);
      assert HasParsedEdge(t2, w, k.target, run) ==> HasParsedEdge(t1, w, k.target, run);
    }
    assert t2.edges == t1.edges;
  }

  lemma ProjectingAgainChangesNothing(
      t0: Tables, t1: Tables, t2: Tables, env: Environment, env': Environment, w: WorkId, run: RunId, force: bool)
    requires Settled(t0) && Called(t0, t1, env, w, run, force)
    requires Settled(t1) && Called(t1, t2, env', w, run, false) && env'.markdown == env.markdown
    requires AfterStageA(t1, env', w, env.markdown.value, false) == t1
    ensures t2 == t1
  {
    CallProjectsResolvedTargets(t0, t1, env, w, run, force);
    NoEdgeIsNew(t1, t2, w, run);
  }

  /** In particular, two calls that see the same parse: the second changes nothing. */
  lemma SecondCallChangesNothing(
      t0: Tables, t1: Tables, t2: Tables, env: Environment, env': Environment, w: WorkId, run: RunId, force: bool)
    requires Settled(t0) && Called(t0, t1, env, w, run, force)
    requires Settled(t1) && Called(t1, t2, env', w, run, false)
    requires env'.markdown == env.markdown && Parsed(env') == Parsed(env)
    ensures t2 == t1
  {
    SecondCallChangesNothingIff(t0, t1, t2, env, env', w, run, force);
    if NeedsParse(t0, w, env.markdown.value, force) && Parsed(env) != [] {
      ReparseKeepsEveryReference(t0, t1, env, w, run, force);
      assert t0.nextRef in EntriesOf(t1, w);
    }
  }

  lemma EntriesCarryTheHash(t0: Tables, t1: Tables, env: Environment, w: WorkId, run: RunId, force: bool)
    requires Settled(t0) && Called(t0, t1, env, w, run, force)
    ensures HashOf(t1, w, env.markdown.value)
  {
    var hash := env.markdown.value;
    if NeedsParse(t0, w, hash, force) {
      var parsed, res := Parsed(env), env.resolve(Parsed(env)).value;
      forall id | id in t1.entries && t1.entries[id].citing == w
        ensures t1.entries[id].markdownHash == hash
      {
        StageAEntry(t0, w, parsed, res, hash, id);
      }
    } else {
      assert forall id :: id in t1.entries && t1.entries[id].citing == w ==> id in EntriesOf(t0, w);
    }
  }

  lemma NoEntriesNoParsedEdges(t: Tables, w: WorkId)
    requires Valid(t)
    ensures EntriesOf(t, w) == {} ==> NoParsedEdges(t, w)
  {
    forall k | k in t.edges && ParsedBy(k, w)
      ensures EntriesOf(t, w) != {}
    {
      assert EdgeOk(t, k);
      assert t.edges[k].reference.value in EntriesOf(t, w);
    }
  }

  /** A work without entries has no parsed edges either, so re-parsing to nothing leaves the tables alone. */
  lemma EmptyReparseChangesNothing(t: Tables, w: WorkId, resolved: Attempt<seq<Resolution>>, hash: Digest)
    requires Valid(t) && EntriesOf(t, w) == {}
    ensures resolved.Got? ==> StageAResult(t, w, [], resolved.value, hash) == t
  {
    NoEntriesNoParsedEdges(t, w);
    forall r | r in t.entries
      ensures t.entries[r].citing != w
    {
      assert r !in EntriesOf(t, w);
    }
    assert WithoutParsed(t.edges, w) == t.edges;
    assert WithoutEntriesOf(t.entries, w) == t.entries;
    assert Cleared(t, w) == t;
  }

  // ----- The foreign key -----

  /** Stage A's DELETE is refused exactly when a manual-override edge rests on an entry of `w`: once a
      reference of `w` has been approved by hand, its bibliography can no longer be re-parsed. */
  lemma ReparseBlockedIffOverridden(t: Tables, w: WorkId)
    requires Valid(t)
    ensures Blocked(t, w) <==> exists k :: NamesEntryOf(t, k, w) && k.provenance == ManualOverride
  {
    var cleared := t.(edges := WithoutParsed(t.edges, w));
    if Blocked(t, w) {
      var k :| NamesEntryOf(cleared, k, w);
      assert EdgeOk(t, k);
      assert NamesEntryOf(t, k, w) && k.provenance == ManualOverride;
    }
    if exists k :: NamesEntryOf(t, k, w) && k.provenance == ManualOverride {
      var k :| NamesEntryOf(t, k, w) && k.provenance == ManualOverride;
      assert NamesEntryOf(cleared, k, w);
    }
  }

  /** Why the edges of all runs go first: clearing only the current run leaves the DELETE refused as soon
      as `w` has a parsed edge in another run. */
  lemma RunScopedClearIsRefused(t: Tables, w: WorkId, run: RunId, k: EdgeKey)
    requires Valid(t) && k in t.edges && ParsedBy(k, w) && k.run != run
    ensures var scoped := map e | e in t.edges && !(ParsedBy(e, w) && e.run == run) :: t.edges[e];
            EntriesPinned(t.(edges := scoped), w)
  {
    var scoped := map e | e in t.edges && !(ParsedBy(e, w) && e.run == run) :: t.edges[e];
    assert EdgeOk(t, k);
    assert NamesEntryOf(t.(edges := scoped), k, w);
  }

  // ----- edges_written -----

  function TargetOf(t: Tables, w: WorkId, r: RefId): WorkId {
    if r in t.entries && t.entries[r].target.Some? then t.entries[r].target.value else w
  }

  /** The parsed edge an entry stands for. */
  function KeyOf(t: Tables, w: WorkId, run: RunId): RefId -> EdgeKey {
    (r: RefId) => EdgeKey(w, TargetOf(t, w, r), ParsedBibliography, run)
  }

  lemma AddedKeys(t0: Tables, t1: Tables, w: WorkId, run: RunId)
    requires Projected(t0, t1, w, run)
    ensures t1.edges.Keys - t0.edges.Keys == Image(ResolvedEntriesOf(t0, w), KeyOf(t0, w, run)) - t0.edges.Keys
  {
    var keys := Image(ResolvedEntriesOf(t0, w), KeyOf(t0, w, run));
    forall k | k in t1.edges.Keys - t0.edges.Keys
      ensures k in keys
    {
      assert HasParsedEdge(t1, w, k.target, run);
      var r :| r in t0.entries && Backs(t0.entries[r], w, k.target);
      assert r in ResolvedEntriesOf(t0, w) && KeyOf(t0, w, run)(r) == k;
    }
    forall k | k in keys
      ensures k in t1.edges
    {
      var r :| r in ResolvedEntriesOf(t0, w) && KeyOf(t0, w, run)(r) == k;
      assert Backs(t0.entries[r], w, k.target);
      assert HasResolvedTarget(t0, w, k.target) && HasParsedEdge(t1, w, k.target, run);
    }
  }

  lemma DifferenceSize(keys: set<EdgeKey>, present: set<EdgeKey>)
    ensures |keys - present| <= |keys|
    ensures |keys - present| == |keys| <==> keys !! present
  {
    assert keys == (keys - present) + keys * present;
    assert |keys| == |keys - present| + |keys * present|;
  }

  /** `edges_written` counts resolved entries; it equals the number of rows Stage B inserted exactly when
      their targets are pairwise distinct and none was already an edge of the run. */
  lemma EdgesWrittenCountsRowsIff(t0: Tables, t1: Tables, w: WorkId, run: RunId)
    requires Projected(t0, t1, w, run)
    ensures var added, rs, key := t1.edges.Keys - t0.edges.Keys, ResolvedEntriesOf(t0, w), KeyOf(t0, w, run);
            && |added| <= |rs|
            && (|added| == |rs| <==> InjectiveOn(rs, key) && Image(rs, key) !! t0.edges.Keys)
  {
    AddedKeys(t0, t1, w, run);
    ImageSize(ResolvedEntriesOf(t0, w), KeyOf(t0, w, run));
    DifferenceSize(Image(ResolvedEntriesOf(t0, w), KeyOf(t0, w, run)), t0.edges.Keys);
  }

  // ----- Concrete failures -----

  function OneWork(): Tables {
    EMPTY.(works := {1})
  }

  /** Markdown with hash 5 whose references are `parsed`; the resolver resolves nothing. */
  function Finds(parsed: seq<string>): Environment {
    Environment(
      Some(5), Got([Range(0, 1, "")]), Got(Some("x")), text => [], (text, ranges) => Got(parsed), raw => Got([]))
  }

  lemma FindsParsed(parsed: seq<string>)
    ensures Parsed(Finds(parsed)) == parsed
  {
  }

  lemma NothingToProject(t: Tables, w: WorkId, run: RunId)
    requires Valid(t) && t.edges == map[] && forall r :: r in t.entries ==> t.entries[r].status == Unresolved
    ensures Projected(t, t, w, run)
  {
    assert forall target :: !HasParsedEdge(t, w, target, run) && !HasResolvedTarget(t, w, target);
  }

  /** A work without entries whose parser finds a reference only the second time: the second unforced call at the
      same hash adds an entry. */
  lemma LateReferencesAreAdded()
    ensures var t1 := OneWork();
            var t2 := Inserted(t1, 1, "r", 5);
            && Settled(t1) && Called(t1, t1, Finds([]), 1, 0, false)
            && Called(t1, t2, Finds(["r"]), 1, 0, false)
            && Finds(["r"]).markdown == Finds([]).markdown && t2 != t1
  {
    var t1 := OneWork();
    var t2 := Inserted(t1, 1, "r", 5);
    FindsParsed([]);
    FindsParsed(["r"]);
    assert EntriesOf(t1, 1) == {};
    assert Cleared(t1, 1) == t1;
    assert InsertedAll(t1, 1, ["r"][..0], 5) == t1;
    assert InsertedAll(t1, 1, ["r"], 5) == t2;
    assert !EntriesPinned(t1.(edges := WithoutParsed(t1.edges, 1)), 1);
    NothingToProject(t1, 1, 0);
    NothingToProject(t2, 1, 0);
  }

  /** A work with two references resolved to one work. */
  function TwoReferences(): Tables {
    var e := Entry(1, "", Resolved, Some(2), None, 5);
    EMPTY.(works := {1, 2}, entries := map[0 := e, 1 := e], nextRef := 2)
  }

  function TheirEdge(): EdgeKey {
    EdgeKey(1, 2, ParsedBibliography, 0)
  }

  lemma TwoReferencesProjected()
    ensures var t0 := TwoReferences();
            var t1 := t0.(edges := map[TheirEdge() := EdgeRow(0.0, Some(0))]);
            Projected(t0, t1, 1, 0)
  {
    var t0 := TwoReferences();
    var t1 := t0.(edges := map[TheirEdge() := EdgeRow(0.0, Some(0))]);
    assert Backs(t0.entries[0], 1, 2) && StandsFor(t0, TheirEdge(), EdgeRow(0.0, Some(0)), 1, 0);
    forall target
      ensures HasParsedEdge(t1, 1, target, 0) <==> HasResolvedTarget(t0, 1, target)
    {
      assert HasResolvedTarget(t0, 1, target) <==> target == 2;
    }
  }

  /** Two references resolved to one work: two edges are counted, one row is inserted. */
  lemma TwoReferencesOneEdge()
    ensures var t0 := TwoReferences();
            var t1 := t0.(edges := map[TheirEdge() := EdgeRow(0.0, Some(0))]);
            && Settled(t0) && Projected(t0, t1, 1, 0)
            && |ResolvedEntriesOf(t0, 1)| == 2 && |t1.edges.Keys - t0.edges.Keys| == 1
  {
    var t0 := TwoReferences();
    var t1 := t0.(edges := map[TheirEdge() := EdgeRow(0.0, Some(0))]);
    TwoReferencesProjected();
    assert ResolvedEntriesOf(t0, 1) == {0, 1};
    assert t1.edges.Keys - t0.edges.Keys == {TheirEdge()};
  }
}
