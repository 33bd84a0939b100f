// Which statements SQLite refuses: those that would leave a foreign key without its row.
module StatementLaws {
  import opened Prelude
  import opened CitationTables

  ghost predicate EdgeKeysHold(t: Tables, k: EdgeKey)
    requires k in t.edges
  {
    && k.source in t.works && k.target in t.works
    && (t.edges[k].reference.Some? ==> t.edges[k].reference.value in t.entries)
  }

  ghost predicate EntryKeysHold(t: Tables, id: RefId)
    requires id in t.entries
  {
    t.entries[id].citing in t.works && (t.entries[id].target.Some? ==> t.entries[id].target.value in t.works)
  }

  /** Every edge joins two works and names no missing entry, every entry is of a work and resolved to none that is
      missing, and every member is a work. */
  ghost predicate ForeignKeysHold(t: Tables) {
    && (forall k :: k in t.edges ==> EdgeKeysHold(t, k))
    && (forall id :: id in t.entries ==> EntryKeysHold(t, id))
    && (forall w :: w in t.members ==> w in t.works)
  }

  lemma EdgeRefusedIff(t: Tables, k: EdgeKey, row: EdgeRow)
    requires ForeignKeysHold(t)
    ensures Accepted(t, InsertEdge(k, row)) <==> ForeignKeysHold(Effect(t, InsertEdge(k, row)))
  {
    var t' := Effect(t, InsertEdge(k, row));
    assert k in t'.edges;
    if ForeignKeysHold(t') {
      assert EdgeKeysHold(t', k);
    }
    if Accepted(t, InsertEdge(k, row)) {
      forall e | e in t'.edges
        ensures EdgeKeysHold(t', e)
      {
        assert e in t.edges ==> EdgeKeysHold(t, e);
      }
      assert forall id :: id in t'.entries ==> EntryKeysHold(t, id);
    }
  }

  lemma ClearRefusedIff(t: Tables, w: WorkId)
    requires ForeignKeysHold(t)
    ensures Accepted(t, ClearEntries(w)) <==> ForeignKeysHold(Effect(t, ClearEntries(w)))
  {
    var t' := Effect(t, ClearEntries(w));
    if k :| NamesEntryOf(t, k, w) {
      assert !EdgeKeysHold(t', k);
    }
    if Accepted(t, ClearEntries(w)) {
      forall k | k in t'.edges
        ensures EdgeKeysHold(t', k)
      {
        assert EdgeKeysHold(t, k) && !NamesEntryOf(t, k, w);
      }
      assert forall id :: id in t'.entries ==> EntryKeysHold(t, id);
    }
  }

  lemma InsertRefusedIff(t: Tables, w: WorkId, raw: string, hash: Digest)
    requires ForeignKeysHold(t) && t.nextRef !in t.entries
    ensures Accepted(t, InsertReference(w, raw, hash)) <==> ForeignKeysHold(Effect(t, InsertReference(w, raw, hash)))
  {
    var t' := Effect(t, InsertReference(w, raw, hash));
    assert t.nextRef in t'.entries && t'.entries[t.nextRef].citing == w;
    assert forall k :: k in t'.edges ==> EdgeKeysHold(t, k);
    assert forall id :: id in t'.entries && id != t.nextRef ==> EntryKeysHold(t, id);
    if ForeignKeysHold(t') {
      assert EntryKeysHold(t', t.nextRef);
    }
  }

  lemma UpdateRefusedIff(t: Tables, id: RefId, status: Status, target: Option<WorkId>, confidence: Option<real>)
    requires ForeignKeysHold(t)
    ensures var s := SetResolution(id, status, target, confidence);
            Accepted(t, s) <==> ForeignKeysHold(Effect(t, s))
  {
    var t' := Effect(t, SetResolution(id, status, target, confidence));
    assert forall k :: k in t'.edges ==> EdgeKeysHold(t, k);
    assert forall q :: q in t'.entries ==> EntryKeysHold(t, q);
    if ForeignKeysHold(t') && id in t.entries {
      assert EntryKeysHold(t', id);
    }
  }

  lemma OthersAreAccepted(t: Tables, s: Statement)
    requires ForeignKeysHold(t) && (s.ClearEdges? || s.InsertWork? || s.InsertMember? || s.OpenReview? || s.EndReview?)
    ensures Accepted(t, s) <==> ForeignKeysHold(Effect(t, s))
  {
    var t' := Effect(t, s);
    assert forall k :: k in t'.edges ==> EdgeKeysHold(t, k);
    assert forall id :: id in t'.entries ==> EntryKeysHold(t, id);
    if s.InsertMember? {
      assert s.w in t'.members;
    }
  }

  /** A statement is refused exactly if its effect would break a foreign key. */
  lemma RefusedIffDangling(t: Tables, s: Statement)
    requires ForeignKeysHold(t) && t.nextRef !in t.entries
    ensures Accepted(t, s) <==> ForeignKeysHold(Effect(t, s))
  {
    match s
    case InsertEdge(k, row) => EdgeRefusedIff(t, k, row);
    case ClearEntries(w) => ClearRefusedIff(t, w);
    case InsertReference(w, raw, hash) => InsertRefusedIff(t, w, raw, hash);
    case SetResolution(id, status, target, confidence) => UpdateRefusedIff(t, id, status, target, confidence);
    case _ => OthersAreAccepted(t, s);
  }
}
