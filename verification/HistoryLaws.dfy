// What each call of a history does to the tables, column by column.
module HistoryLaws {
  import opened Prelude
  import opened CitationTables
  import opened ProviderCache
  import opened ProviderEdges
  import opened ParsedBib
  import opened CitationHistory

  // ----- Approvals -----

  /** An approval is refused exactly if the item is not open, has no run, its choice is unusable or names no work, or
      the entry is gone and the very edge is not there yet. */
  lemma ApprovalRefusedIff(t: Tables, item: RefId, choice: Choice, run: Option<RunId>)
    ensures !Approvable(t, item, choice, run)
            <==> item !in t.reviews || run == None || choice == Unusable
                 || (choice.Named? && choice.work !in t.works)
                 || (item !in t.entries
                     && EdgeKey(t.reviews[item], choice.work, ManualOverride, run.value) !in t.edges)
  {
  }

  /** An approval resolves the entry to the chosen work with full confidence; its text and hash stay, and so does every
      other entry. */
  lemma ApprovedEntries(t: Tables, item: RefId, choice: Choice, run: RunId, id: RefId)
    requires Approvable(t, item, choice, Some(run))
    ensures var t' := Approved(t, item, choice, run);
            && t'.entries.Keys == t.entries.Keys
            && (item in t.entries
                ==> t'.entries[item] == Entry(t.entries[item].citing, t.entries[item].raw, Resolved, Some(choice.work),
                                              Some(1.0), t.entries[item].markdownHash))
            && (id in t.entries && id != item ==> t'.entries[id] == t.entries[id])
  {
  }

  /** It adds one edge from the item's source, of full confidence and naming the entry, unless that edge was there. */
  lemma ApprovedEdges(t: Tables, item: RefId, choice: Choice, run: RunId, k: EdgeKey)
    requires Approvable(t, item, choice, Some(run))
    ensures var t' := Approved(t, item, choice, run);
            var edge := EdgeKey(t.reviews[item], choice.work, ManualOverride, run);
            && (k in t'.edges <==> k in t.edges || k == edge)
            && (k in t.edges ==> t'.edges[k] == t.edges[k])
            && (edge !in t.edges ==> t'.edges[edge] == EdgeRow(1.0, Some(item)))
  {
  }

  /** It closes the item and no other, and only a chosen candidate becomes a work, with metadata alone unless it was a
      member. */
  lemma ApprovedWorks(t: Tables, item: RefId, choice: Choice, run: RunId)
    requires Approvable(t, item, choice, Some(run))
    ensures var t' := Approved(t, item, choice, run);
            && t'.reviews == t.reviews - {item} && t'.nextRef == t.nextRef
            && (choice.Named? ==> t'.works == t.works && t'.members == t.members)
            && (choice.Candidate? ==> t'.works == t.works + {choice.work})
            && (choice.Candidate? && choice.work in t.members ==> t'.members == t.members)
            && (choice.Candidate? && choice.work !in t.members
                ==> t'.members == t.members[choice.work := MetadataOnly])
  {
  }

  // ----- The calls of a history -----

  /** Adding a work adds it, as a member with metadata alone unless it was one, and touches nothing else. */
  lemma NewWorkAdds(t0: Tables, t1: Tables, w: WorkId)
    requires Effected(t0, t1, NewWork(w))
    ensures t1.works == t0.works + {w}
    ensures t1.members == if w in t0.members then t0.members else t0.members[w := MetadataOnly]
    ensures t1.entries == t0.entries && t1.edges == t0.edges && t1.reviews == t0.reviews && t1.nextRef == t0.nextRef
  {
  }

  /** Projecting provider edges only adds provider edges; without the directory's works it does nothing. */
  lemma ProjectionAdds(
      t0: Tables, t1: Tables, dir: Directory, rows: map<Key, seq<CacheRow>>, fold: RawId -> Option<RawId>, now: int,
      run: RunId, k: EdgeKey)
    requires Effected(t0, t1, ProjectProvider(dir, rows, fold, now, run))
    ensures t1.works == t0.works && t1.members == t0.members && t1.entries == t0.entries
    ensures t1.reviews == t0.reviews && t1.nextRef == t0.nextRef
    ensures k in t0.edges ==> k in t1.edges && t1.edges[k] == t0.edges[k]
    ensures k in t1.edges && k !in t0.edges ==> k.provenance == ProviderReference && k.run == run && InTables(dir, t0)
  {
    if InTables(dir, t0) {
      var items := AllItems(dir.works, rows, fold, now);
      var written, unresolved :| ProjectionOf(t0, t1, items, dir, fold, run, written, unresolved);
      ProjectedEdgesAre(t0, t1, rows, now, dir, fold, run, written, unresolved, k);
    }
  }

  /** A call for a work that is missing or has no markdown, and one that has to parse anew but cannot, changes nothing;
      every other one is a call that goes through. */
  lemma ParseIs(t0: Tables, t1: Tables, env: Environment, w: WorkId, run: RunId, force: bool)
    requires Effected(t0, t1, Parse(env, w, run, force))
    ensures env.markdown == None || w !in t0.works ==> t1 == t0
    ensures env.markdown.Some? && w in t0.works
            ==> var anew := || force
                            || (forall q :: q in t0.entries ==> t0.entries[q].citing != w)
                            || (exists q :: q in t0.entries && t0.entries[q].citing == w &&
                                            t0.entries[q].markdownHash != env.markdown.value);
                && (anew && !StageASucceeds(t0, env, w) ==> t1 == t0)
                && (!anew || StageASucceeds(t0, env, w) ==> Called(t0, t1, env, w, run, force))
  {
    if env.markdown.Some? {
      ParsesIff(t0, w, env.markdown.value, force);
    }
  }

  /** A decision closes the item: a rejection does nothing else, a refused approval nothing at all. */
  lemma DecisionIs(t0: Tables, t1: Tables, item: RefId, choice: Choice, run: Option<RunId>)
    ensures Effected(t0, t1, Reject(item)) <==> t1 == t0.(reviews := t0.reviews - {item})
    ensures Effected(t0, t1, Approve(item, choice, run)) && !Approvable(t0, item, choice, run) ==> t1 == t0
    ensures Effected(t0, t1, Approve(item, choice, run)) && Approvable(t0, item, choice, run)
            ==> t1 == Approved(t0, item, choice, run.value)
  {
  }
}
