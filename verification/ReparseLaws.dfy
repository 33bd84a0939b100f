// The parsed-bibliography call told in the rows and columns of the tables and in what it read.
module ReparseLaws {
  import opened Prelude
  import opened CitationTables
  import opened ParsedBib
  import opened ParsedBibLaws

  // ----- The guard of Stage A -----

  /** An unforced call for a work whose entries all come from this markdown keeps every table but the edges. */
  lemma UnchangedMarkdownKeepsEntries(
      t0: Tables, t1: Tables, env: Environment, w: WorkId, run: RunId, id: RefId)
    requires Called(t0, t1, env, w, run, false) && id in t0.entries && t0.entries[id].citing == w
    requires forall q :: q in t0.entries && t0.entries[q].citing == w ==>
               t0.entries[q].markdownHash == env.markdown.value
    ensures t1.works == t0.works && t1.members == t0.members && t1.entries == t0.entries
    ensures t1.reviews == t0.reviews && t1.nextRef == t0.nextRef
  {
    ParsesIff(t0, w, env.markdown.value, false);
  }

  /** The counts of the report, as sets of rows. */
  lemma ReportCounts(t: Tables, w: WorkId, r: Outcome)
    requires Reports(t, w, r)
    ensures r.entries == |set id | id in t.entries && t.entries[id].citing == w|
    ensures r.resolved == |set id | id in t.entries && t.entries[id].citing == w && t.entries[id].status == Resolved|
    ensures r.ambiguous == |set id | id in t.entries && t.entries[id].citing == w && t.entries[id].status == Ambiguous|
    ensures r.suspect == |set id | id in t.entries && t.entries[id].citing == w && t.entries[id].status == Suspect|
    ensures r.edgesWritten == r.resolved
  {
    assert EntriesOf(t, w) == set id | id in t.entries && t.entries[id].citing == w;
    assert WithStatus(t, w, Resolved)
        == set id | id in t.entries && t.entries[id].citing == w && t.entries[id].status == Resolved;
    assert WithStatus(t, w, Ambiguous)
        == set id | id in t.entries && t.entries[id].citing == w && t.entries[id].status == Ambiguous;
    assert WithStatus(t, w, Suspect)
        == set id | id in t.entries && t.entries[id].citing == w && t.entries[id].status == Suspect;
  }

  // ----- What is parsed -----

  /** The stored reference sections are parsed, or without any the ranges the fallback finds in the text. */
  lemma ReadsSections(env: Environment, text: string, sections: seq<Range>)
    requires env.sections == Got(sections) && env.text == Got(Some(text)) && text != ""
    ensures Ranges(env) == if sections != [] then sections else env.fallback(text)
    ensures sections != [] ==> Reading(env) == env.parse(text, sections)
    ensures sections == [] && env.fallback(text) != [] ==> Reading(env) == env.parse(text, env.fallback(text))
    ensures sections == [] && env.fallback(text) == [] ==> Reading(env) == Got([])
  {
  }

  lemma ReadsNothing(env: Environment)
    ensures env.sections.Failed? || env.text.Failed? ==> Reading(env).Failed?
    ensures env.sections.Got? && (env.text == Got(None) || env.text == Got(Some("")))
            ==> Reading(env) == Got([]) && Ranges(env) == env.sections.value
  {
  }

  /** Stage A goes through exactly if no approved edge names an entry of the work, the references can be read and
      resolved, and every resolved one among those paired with a reference could be made a work. */
  lemma GoesThroughIff(t: Tables, env: Environment, w: WorkId)
    requires Valid(t)
    ensures StageASucceeds(t, env, w)
            <==> && Reading(env).Got? && env.resolve(Reading(env).value).Got?
                 && (forall k :: k in t.edges && k.provenance == ManualOverride && t.edges[k].reference.Some? &&
                                 t.edges[k].reference.value in t.entries ==>
                       t.entries[t.edges[k].reference.value].citing != w)
                 && (var res := env.resolve(Reading(env).value).value;
                     forall i :: 0 <= i < |res| && i < |Reading(env).value| && res[i].status == Resolved ==>
                       res[i].upserted.Some?)
  {
    ReparseBlockedIffOverridden(t, w);
    if Reading(env).Got? && env.resolve(Reading(env).value).Got? {
      var parsed, res := Reading(env).value, env.resolve(Reading(env).value).value;
      assert forall i :: 0 <= i < |Paired(parsed, res)| ==> Paired(parsed, res)[i] == res[i];
      assert |Paired(parsed, res)| == if |res| <= |parsed| then |res| else |parsed|;
    }
    if !Blocked(t, w) {
      forall k | k in t.edges && k.provenance == ManualOverride && t.edges[k].reference.Some? &&
                 t.edges[k].reference.value in t.entries
        ensures t.entries[t.edges[k].reference.value].citing != w
      {
        assert !NamesEntryOf(t, k, w);
      }
    }
  }

  // ----- The rows of a reparse -----

  /** The columns of the row of one reference: those of its resolution if it has one, and always the work, the raw
      text and the hash. */
  lemma ReparsedRow(
      t0: Tables, t1: Tables, env: Environment, w: WorkId, run: RunId, force: bool, parsed: seq<string>,
      res: seq<Resolution>, i: nat)
    requires Settled(t0) && Called(t0, t1, env, w, run, force) && Reading(env) == Got(parsed)
    requires env.resolve(parsed) == Got(res) && i < |parsed|
    requires || force
             || (forall id :: id in t0.entries ==> t0.entries[id].citing != w)
             || (exists id :: id in t0.entries && t0.entries[id].citing == w &&
                              t0.entries[id].markdownHash != env.markdown.value)
    ensures t0.nextRef + i in t1.entries
    ensures var e := t1.entries[t0.nextRef + i];
            && e.citing == w && e.raw == parsed[i] && e.markdownHash == env.markdown.value
            && e.status == (if i < |res| then res[i].status else Unresolved)
            && e.target == (if i < |res| && res[i].status == Resolved then res[i].upserted else None)
            && e.confidence == (if i < |res| && res[i].status == Resolved then res[i].confidence else None)
    ensures t0.nextRef + i in t1.reviews
            <==> i < |res| && (res[i].status == Ambiguous || res[i].status == Suspect)
  {
    ParsesIff(t0, w, env.markdown.value, force);
    ReparseKeepsEveryReference(t0, t1, env, w, run, force);
    StageAEntry(t0, w, parsed, res, env.markdown.value, t0.nextRef + i);
    if i < |res| {
      assert Paired(parsed, res)[i] == res[i] && CanApply(res[i]);
    }
  }

  /** The entries of the work are those rows and no others; the entries of other works stay as they were. */
  lemma ReparsedEntries(
      t0: Tables, t1: Tables, env: Environment, w: WorkId, run: RunId, force: bool, parsed: seq<string>, id: RefId)
    requires Settled(t0) && Called(t0, t1, env, w, run, force) && Reading(env) == Got(parsed)
    requires || force
             || (forall q :: q in t0.entries ==> t0.entries[q].citing != w)
             || (exists q :: q in t0.entries && t0.entries[q].citing == w &&
                             t0.entries[q].markdownHash != env.markdown.value)
    ensures id in t1.entries && t1.entries[id].citing == w <==> t0.nextRef <= id < t0.nextRef + |parsed|
    ensures id in t0.entries && t0.entries[id].citing != w ==> id in t1.entries && t1.entries[id] == t0.entries[id]
    ensures id in t1.entries && t1.entries[id].citing != w ==> id in t0.entries && t0.entries[id] == t1.entries[id]
  {
    ParsesIff(t0, w, env.markdown.value, force);
    ReparseKeepsEveryReference(t0, t1, env, w, run, force);
    assert id in EntriesOf(t1, w) <==> id in t1.entries && t1.entries[id].citing == w;
    var resolved := env.resolve(parsed).value;
    StageAEntry(t0, w, parsed, resolved, env.markdown.value, id);
    assert id in t0.entries ==> EntryOk(t0, id);
  }

  // ----- The edges of a call -----

  /** After a call the edges are those that were there, without the work's parsed ones if it was parsed anew, and in
      the run one parsed edge to each target of a resolved entry. */
  lemma EdgesAfter(t0: Tables, t1: Tables, env: Environment, w: WorkId, run: RunId, force: bool, k: EdgeKey)
    requires Settled(t0) && Called(t0, t1, env, w, run, force)
    ensures var anew := || force
                        || (forall id :: id in t0.entries ==> t0.entries[id].citing != w)
                        || (exists id :: id in t0.entries && t0.entries[id].citing == w &&
                                         t0.entries[id].markdownHash != env.markdown.value);
            var kept := k in t0.edges && !(anew && k.source == w && k.provenance == ParsedBibliography);
            && (k in t1.edges
                <==> || kept
                     || (&& k.source == w && k.provenance == ParsedBibliography && k.run == run
                         && exists id :: id in t1.entries && t1.entries[id].citing == w &&
                                         t1.entries[id].status == Resolved && t1.entries[id].target == Some(k.target)))
            && (kept ==> t1.edges[k] == t0.edges[k])
            && (k in t1.edges && !kept ==> WrittenFor(t1, k))
  {
    ParsesIff(t0, w, env.markdown.value, force);
    var middle := AfterStageA(t0, env, w, env.markdown.value, force);
    if NeedsParse(t0, w, env.markdown.value, force) {
      StageAEdges(t0, w, Parsed(env), env.resolve(Parsed(env)).value, env.markdown.value);
    }
    assert t1.entries == middle.entries;
    EdgeProjected(middle, t1, w, run, k);
  }

  /** The edge carries a resolved entry of its source to its target, and that entry's confidence, or zero. */
  ghost predicate WrittenFor(t: Tables, k: EdgeKey)
    requires k in t.edges
  {
    exists id :: && id in t.entries && t.entries[id].citing == k.source && t.entries[id].status == Resolved
                 && t.entries[id].target == Some(k.target) && t.edges[k].reference == Some(id)
                 && t.edges[k].confidence
                    == (if t.entries[id].confidence.Some? then t.entries[id].confidence.value else 0.0)
  }

  lemma EdgeProjected(t0: Tables, t1: Tables, w: WorkId, run: RunId, k: EdgeKey)
    requires Projected(t0, t1, w, run)
    ensures k in t1.edges
            <==> || k in t0.edges
                 || (&& k.source == w && k.provenance == ParsedBibliography && k.run == run
                     && exists id :: id in t1.entries && t1.entries[id].citing == w &&
                                     t1.entries[id].status == Resolved && t1.entries[id].target == Some(k.target))
    ensures k in t0.edges ==> t1.edges[k] == t0.edges[k]
    ensures k in t1.edges && k !in t0.edges ==> WrittenFor(t1, k)
  {
    assert HasParsedEdge(t1, w, k.target, run) <==> HasResolvedTarget(t0, w, k.target);
    if k in t1.edges && k !in t0.edges {
      assert StandsFor(t0, k, t1.edges[k], w, run);
      var id :| id in t0.entries && Backs(t0.entries[id], w, k.target) && t1.edges[k] == RowFor(t0.entries[id], id);
      assert k.source == w;
    }
    if exists id :: id in t1.entries && t1.entries[id].citing == w && t1.entries[id].status == Resolved &&
                    t1.entries[id].target == Some(k.target) {
      var id :| id in t1.entries && t1.entries[id].citing == w && t1.entries[id].status == Resolved &&
                t1.entries[id].target == Some(k.target);
      assert Backs(t0.entries[id], w, k.target);
    }
    if HasResolvedTarget(t0, w, k.target) {
      var id :| id in t0.entries && Backs(t0.entries[id], w, k.target);
      assert t1.entries[id].citing == w && t1.entries[id].status == Resolved;
    }
  }
}
