// What a citation says, column by column, and in which order citations and their spans stand.
module CitationLaws {
  import opened Prelude
  import opened Lists
  import opened Compose
  import opened Citations

  /** Each citation is built for its work from the work's spans. */
  lemma CitationAt(es: seq<Evidence>, details: Details, fallback: map<nat, Fallback>, i: nat)
    requires i < |Cited(es, details, fallback)|
    ensures var c := Cited(es, details, fallback)[i];
            c == BuildCitation(c.work, c.spans, details, fallback) && c.spans == SpanOrder(es, c.work)
  {
    CiteAt(WorkOrder(es), es, details, fallback, i);
  }

  /** Title and year are those of the work, if there is such a work. */
  lemma WorkColumns(es: seq<Evidence>, details: Details, fallback: map<nat, Fallback>, i: nat)
    requires i < |Cited(es, details, fallback)|
    ensures var c := Cited(es, details, fallback)[i];
            && (c.work in details.works ==> c.title == details.works[c.work].title)
            && (c.work in details.works ==> c.year == details.works[c.work].year)
            && (c.work !in details.works ==> c.title == None && c.year == None)
  {
    CitationAt(es, details, fallback, i);
  }

  /** Quote and section are those of the first span; without a span, or with one that is not stored, there is none. */
  lemma QuoteColumns(es: seq<Evidence>, details: Details, fallback: map<nat, Fallback>, i: nat)
    requires i < |Cited(es, details, fallback)|
    ensures var c := Cited(es, details, fallback)[i];
            && (c.spans != [] && c.spans[0] in details.spans
                ==> c.quote == Some(details.spans[c.spans[0]].quote) && c.section == details.spans[c.spans[0]].section)
            && (c.spans == [] || c.spans[0] !in details.spans ==> c.quote == None && c.section == None)
  {
    CitationAt(es, details, fallback, i);
  }

  /** The provenance is that of the first span's claim, where it says something, else that of the candidate, else
      deterministic and unknown. */
  lemma ProvenanceColumns(es: seq<Evidence>, details: Details, fallback: map<nat, Fallback>, i: nat)
    requires i < |Cited(es, details, fallback)|
    ensures var c := Cited(es, details, fallback)[i];
            var stored := c.spans != [] && c.spans[0] in details.spans;
            && (stored && details.spans[c.spans[0]].epistemic.Some?
                ==> c.epistemic == details.spans[c.spans[0]].epistemic.value)
            && (stored && details.spans[c.spans[0]].assertion.Some?
                ==> c.assertion == details.spans[c.spans[0]].assertion.value)
            && (!stored || details.spans[c.spans[0]].epistemic == None
                ==> if c.work in fallback && fallback[c.work].epistemic.Some?
                    then c.epistemic == fallback[c.work].epistemic.value else c.epistemic == Deterministic)
            && (!stored || details.spans[c.spans[0]].assertion == None
                ==> c.assertion == if c.work in fallback then fallback[c.work].assertion else Unknown)
  {
    CitationAt(es, details, fallback, i);
  }

  /** The provenance a citation falls back to is that of the first candidate of its work. */
  lemma {:induction false} FallsBackToFirst(cs: seq<Candidate>, work: nat)
    ensures work in FirstProvenances(cs) <==> exists i :: 0 <= i < |cs| && cs[i].item.work == work
    ensures forall i :: 0 <= i < |cs| && cs[i].item.work == work && (forall j :: 0 <= j < i ==> cs[j].item.work != work)
              ==> FirstProvenances(cs)[work] == Fallback(cs[i].item.epistemic, cs[i].item.assertion)
  {
    if cs != [] {
      var n := |cs| - 1;
      FallsBackToFirst(cs[..n], work);
      assert forall i :: 0 <= i < n ==> cs[..n][i] == cs[i];
    }
  }

  lemma NewOnesGrow(vs: seq<nat>, more: seq<nat>)
    ensures NewOnes(vs, []) <= NewOnes(vs + more, [])
  {
    NewOnesJoin(vs, more);
  }

  lemma {:induction false} NamesJoin(es: seq<Evidence>, more: seq<Evidence>, work: nat)
    ensures WorksNamed(es + more) == WorksNamed(es) + WorksNamed(more)
    ensures SpansNamed(es + more, work) == SpansNamed(es, work) + SpansNamed(more, work)
  {
    if more == [] {
      assert es + more == es;
    } else {
      var n := |more| - 1;
      assert (es + more)[..|es + more| - 1] == es + more[..n];
      NamesJoin(es, more[..n], work);
    }
  }

  /** Works and spans stand in the order of their first mention: further evidence only appends citations, and to each
      citation only appends spans. */
  lemma MoreEvidenceAppends(
      es: seq<Evidence>, more: seq<Evidence>, details: Details, fallback: map<nat, Fallback>, i: nat)
    requires i < |Cited(es, details, fallback)|
    ensures i < |Cited(es + more, details, fallback)|
    ensures Cited(es, details, fallback)[i].work == Cited(es + more, details, fallback)[i].work
    ensures Cited(es, details, fallback)[i].spans <= Cited(es + more, details, fallback)[i].spans
  {
    var work := WorkOrder(es)[i];
    NamesJoin(es, more, work);
    NewOnesGrow(WorksNamed(es), WorksNamed(more));
    NewOnesGrow(SpansNamed(es, work), SpansNamed(more, work));
    CiteAt(WorkOrder(es), es, details, fallback, i);
    CiteAt(WorkOrder(es + more), es + more, details, fallback, i);
  }

  /** A model's markers name the evidence of the blocks they number, one after the other. */
  lemma {:induction false} NamedIs(markers: seq<Marker>, m: Marker, shown: seq<Candidate>)
    ensures Named([], Index(shown)) == []
    ensures m.Some? && 1 <= m.value <= |shown|
            ==> Named(markers + [m], Index(shown))
                == Named(markers, Index(shown)) + [EvidenceOf(shown[m.value - 1].item)]
    ensures m == None || m.value < 1 || m.value > |shown|
            ==> Named(markers + [m], Index(shown)) == Named(markers, Index(shown))
  {
    assert (markers + [m])[..|markers|] == markers;
    if m.Some? {
      IndexAt(shown, m.value);
    }
  }

  /** Markers that name no shown block are reported in their order. */
  lemma {:induction false} InventedIs(markers: seq<Marker>, m: Marker, shown: seq<Candidate>)
    ensures Invented([], Index(shown)) == []
    ensures Invented(markers + [m], Index(shown))
            == Invented(markers, Index(shown)) + if m.Some? && 1 <= m.value <= |shown| then [] else [m]
  {
    assert (markers + [m])[..|markers|] == markers;
    if m.Some? {
      IndexAt(shown, m.value);
    }
  }

  /** The evidence of all candidates, in their order. */
  lemma {:induction false} EvidenceAt(cs: seq<Candidate>, i: nat)
    requires i < |cs|
    ensures |EvidenceIn(cs)| == |cs| && EvidenceIn(cs)[i].work == cs[i].item.work
    ensures EvidenceIn(cs)[i].spans == if cs[i].item.span.Some? then [cs[i].item.span.value] else []
  {
    var n := |cs| - 1;
    if i < n {
      EvidenceAt(cs[..n], i);
    } else if n > 0 {
      EvidenceAt(cs[..n], 0);
    }
  }
}
