// answer/compose.py: markers become citations of shown evidence; without a model, every candidate is cited.
module Citations {
  import opened Prelude
  import opened Lists
  import opened Compose

  // What the tables hold about a work.
  datatype Meta = Meta(title: Option<string>, year: Option<int>)

  // A stored span: its verbatim quote, its section, and the provenance of its first linked claim.
  datatype Detail = Detail(
    quote: string, section: Option<string>, epistemic: Option<Epistemic>, assertion: Option<Assertion>)

  datatype Details = Details(works: map<nat, Meta>, spans: map<nat, Detail>)

  // The provenance of a candidate, which a citation falls back to.
  datatype Fallback = Fallback(epistemic: Option<Epistemic>, assertion: Assertion)

  datatype Citation = Citation(
    work: nat, title: Option<string>, year: Option<int>, spans: seq<nat>, quote: Option<string>,
    section: Option<string>, epistemic: Epistemic, assertion: Assertion)

  function OrElse<T>(o: Option<T>, other: T): T {
    if o.Some? then o.value else other
  }

  /** Quote, section and provenance come from the first span; the provenance falls back to the candidate's, and
      without one to deterministic. */
  function BuildCitation(work: nat, spans: seq<nat>, details: Details, fallback: map<nat, Fallback>): Citation {
    var meta := if work in details.works then details.works[work] else Meta(None, None);
    var other := if work in fallback then fallback[work] else Fallback(None, Unknown);
    var epistemic := OrElse(other.epistemic, Deterministic);
    if spans == [] || spans[0] !in details.spans then
      Citation(work, meta.title, meta.year, spans, None, None, epistemic, other.assertion)
    else
      var d := details.spans[spans[0]];
      Citation(work, meta.title, meta.year, spans, Some(d.quote), d.section, OrElse(d.epistemic, epistemic),
               OrElse(d.assertion, other.assertion))
  }

  // ----- Grouping evidence by work -----

  function WorksNamed(es: seq<Evidence>): seq<nat> {
    if es == [] then [] else WorksNamed(es[..|es| - 1]) + [es[|es| - 1].work]
  }

  function SpansNamed(es: seq<Evidence>, work: nat): seq<nat> {
    if es == [] then []
    else SpansNamed(es[..|es| - 1], work) + if es[|es| - 1].work == work then es[|es| - 1].spans else []
  }

  /** The works, each at its first mention. */
  function WorkOrder(es: seq<Evidence>): seq<nat> {
    NewOnes(WorksNamed(es), [])
  }

  /** The spans mentioned for a work, each at its first mention. */
  function SpanOrder(es: seq<Evidence>, work: nat): seq<nat> {
    NewOnes(SpansNamed(es, work), [])
  }

  function CiteEach(
      works: seq<nat>, es: seq<Evidence>, details: Details, fallback: map<nat, Fallback>):
    (cites: seq<Citation>)
    ensures |cites| == |works|
  {
    if works == [] then []
    else
      var w := works[|works| - 1];
      CiteEach(works[..|works| - 1], es, details, fallback)
      + [BuildCitation(w, SpanOrder(es, w), details, fallback)]
  }

  /** One citation a work, in order of first mention, with the work's spans in order of first mention. */
  function Cited(es: seq<Evidence>, details: Details, fallback: map<nat, Fallback>): seq<Citation> {
    CiteEach(WorkOrder(es), es, details, fallback)
  }

  /** The works in order of first mention, and the spans gathered for each. */
  ghost predicate Gathered(es: seq<Evidence>, ordered: seq<nat>, spansBy: map<nat, seq<nat>>) {
    && ordered == WorkOrder(es)
    && (forall w :: w in spansBy <==> w in ordered)
    && (forall w :: w in spansBy ==> spansBy[w] == SpanOrder(es, w))
  }

  lemma NoneNamed(es: seq<Evidence>, w: nat)
    requires w !in WorksNamed(es)
    ensures SpansNamed(es, w) == []
  {
  }

  method Gather(ghost es: seq<Evidence>, e: Evidence, ordered: seq<nat>, spansBy: map<nat, seq<nat>>)
    returns (ordered': seq<nat>, spansBy': map<nat, seq<nat>>)
    requires Gathered(es, ordered, spansBy)
    ensures Gathered(es + [e], ordered', spansBy')
  {
    ordered', spansBy' := ordered, spansBy;
    if e.work !in spansBy {
      GatherNew(es, e, ordered, spansBy);
      spansBy' := spansBy'[e.work := []];
      ordered' := ordered' + [e.work];
    } else {
      GatherKnown(es, e, ordered, spansBy);
    }
    spansBy' := spansBy'[e.work := AddSpans(spansBy'[e.work], e.spans)];
  }

  lemma GatherKnown(es: seq<Evidence>, e: Evidence, ordered: seq<nat>, spansBy: map<nat, seq<nat>>)
    requires Gathered(es, ordered, spansBy) && e.work in spansBy
    ensures Gathered(es + [e], ordered, spansBy[e.work := AddSpans(spansBy[e.work], e.spans)])
  {
    var all, next := es + [e], spansBy[e.work := AddSpans(spansBy[e.work], e.spans)];
    assert WorkOrder(all) == ordered by {
      NamedWorksNext(es, e);
    }
    forall w | w in next
      ensures next[w] == SpanOrder(all, w)
    {
      NamedSpansNext(es, e, w);
    }
  }

  lemma GatherNew(es: seq<Evidence>, e: Evidence, ordered: seq<nat>, spansBy: map<nat, seq<nat>>)
    requires Gathered(es, ordered, spansBy) && e.work !in spansBy
    ensures Gathered(es + [e], ordered + [e.work], spansBy[e.work := AddSpans([], e.spans)])
  {
    var all, next := es + [e], spansBy[e.work := AddSpans([], e.spans)];
    assert WorkOrder(all) == ordered + [e.work] by {
      FirstNamed(es, e);
    }
    forall w | w in next
      ensures next[w] == SpanOrder(all, w)
    {
      GatheredSpans(es, e, ordered, spansBy, w);
    }
  }

  lemma GatheredSpans(es: seq<Evidence>, e: Evidence, ordered: seq<nat>, spansBy: map<nat, seq<nat>>, w: nat)
    requires Gathered(es, ordered, spansBy) && e.work !in spansBy && (w in spansBy || w == e.work)
    ensures SpanOrder(es + [e], w) == if w == e.work then AddSpans([], e.spans) else spansBy[w]
  {
    if w == e.work {
      FirstNamed(es, e);
    } else {
      NamedSpansNext(es, e, w);
    }
  }

  lemma FirstNamed(es: seq<Evidence>, e: Evidence)
    requires e.work !in WorkOrder(es)
    ensures WorkOrder(es + [e]) == WorkOrder(es) + [e.work]
    ensures SpanOrder(es + [e], e.work) == AddSpans([], e.spans)
  {
    NamedWorksNext(es, e);
    NamedSpansNext(es, e, e.work);
    assert SpanOrder(es, e.work) == [] by {
      NewOnesHas(WorksNamed(es), [], e.work);
      NoneNamed(es, e.work);
    }
  }

  lemma NamedWorksNext(es: seq<Evidence>, e: Evidence)
    ensures WorkOrder(es + [e])
            == var ordered := WorkOrder(es); if e.work in ordered then ordered else ordered + [e.work]
  {
    assert (es + [e])[..|es|] == es;
    NewOnesStep(WorksNamed(es), e.work, []);
  }

  lemma NamedSpansNext(es: seq<Evidence>, e: Evidence, w: nat)
    ensures SpanOrder(es + [e], w)
            == if w == e.work then AddSpans(SpanOrder(es, w), e.spans) else SpanOrder(es, w)
  {
    assert (es + [e])[..|es|] == es;
    NewOnesJoin(SpansNamed(es, w), e.spans);
    assert SpansNamed(es, w) + [] == SpansNamed(es, w);
  }

  lemma CiteNext(works: seq<nat>, es: seq<Evidence>, details: Details, fallback: map<nat, Fallback>, i: nat)
    requires i < |works|
    ensures CiteEach(works[..i + 1], es, details, fallback)
            == CiteEach(works[..i], es, details, fallback)
               + [BuildCitation(works[i], SpanOrder(es, works[i]), details, fallback)]
  {
    assert works[..i + 1][..i] == works[..i];
  }

  method CiteGathered(
      ghost es: seq<Evidence>, ordered: seq<nat>, spansBy: map<nat, seq<nat>>, details: Details,
      fallback: map<nat, Fallback>)
    returns (cites: seq<Citation>)
    requires Gathered(es, ordered, spansBy)
    ensures cites == Cited(es, details, fallback)
  {
    cites := [];
    for i := 0 to |ordered|
      invariant cites == CiteEach(ordered[..i], es, details, fallback)
    {
      CiteNext(ordered, es, details, fallback, i);
      cites := cites + [BuildCitation(ordered[i], spansBy[ordered[i]], details, fallback)];
    }
    assert ordered[..|ordered|] == ordered;
  }

  // ----- materialize_citations -----

  // A marker the model returned; one that is not a number is None.
  type Marker = Option<int>

  function Named(markers: seq<Marker>, index: map<int, Evidence>): seq<Evidence> {
    if markers == [] then []
    else
      var m := markers[|markers| - 1];
      Named(markers[..|markers| - 1], index) + if InRange(m, index) then [index[m.value]] else []
  }

  /** The markers that name no shown block: each is warned about. */
  function Invented(markers: seq<Marker>, index: map<int, Evidence>): seq<Marker> {
    if markers == [] then []
    else
      var m := markers[|markers| - 1];
      Invented(markers[..|markers| - 1], index) + if InRange(m, index) then [] else [m]
  }

  predicate InRange(m: Marker, index: map<int, Evidence>) {
    m.Some? && m.value in index
  }

  lemma NamedNext(markers: seq<Marker>, index: map<int, Evidence>, i: nat)
    requires i < |markers|
    ensures var m, named := markers[i], Named(markers[..i], index);
            Named(markers[..i + 1], index) == if InRange(m, index) then named + [index[m.value]] else named
    ensures var m, invented := markers[i], Invented(markers[..i], index);
            Invented(markers[..i + 1], index) == if InRange(m, index) then invented else invented + [m]
  {
    assert markers[..i + 1][..i] == markers[..i];
  }

  method MaterializeCitations(markers: seq<Marker>, index: map<int, Evidence>, details: Details)
    returns (cites: seq<Citation>, warnings: seq<Marker>)
    ensures cites == Cited(Named(markers, index), details, map[])
    ensures warnings == Invented(markers, index)
  {
    var ordered: seq<nat>, spansBy: map<nat, seq<nat>> := [], map[];
    warnings := [];
    for i := 0 to |markers|
      invariant Gathered(Named(markers[..i], index), ordered, spansBy)
      invariant warnings == Invented(markers[..i], index)
    {
      NamedNext(markers, index, i);
      var m := markers[i];
      if !InRange(m, index) {
        warnings := warnings + [m];
        continue;
      }
      ordered, spansBy := Gather(Named(markers[..i], index), index[m.value], ordered, spansBy);
    }
    assert markers[..|markers|] == markers;
    cites := CiteGathered(Named(markers, index), ordered, spansBy, details, map[]);
  }

  // ----- The retrieval-only citations -----

  function EvidenceIn(cs: seq<Candidate>): seq<Evidence> {
    if cs == [] then [] else EvidenceIn(cs[..|cs| - 1]) + [EvidenceOf(cs[|cs| - 1].item)]
  }

  /** The provenance of each work's first candidate. */
  function FirstProvenances(cs: seq<Candidate>): map<nat, Fallback> {
    if cs == [] then map[]
    else
      var item := cs[|cs| - 1].item;
      var before := FirstProvenances(cs[..|cs| - 1]);
      if item.work in before then before else before[item.work := Fallback(item.epistemic, item.assertion)]
  }

  lemma CandidateNext(cs: seq<Candidate>, i: nat)
    requires i < |cs|
    ensures EvidenceIn(cs[..i + 1]) == EvidenceIn(cs[..i]) + [EvidenceOf(cs[i].item)]
    ensures var item, first := cs[i].item, FirstProvenances(cs[..i]);
            FirstProvenances(cs[..i + 1])
            == if item.work in first then first else first[item.work := Fallback(item.epistemic, item.assertion)]
  {
    assert cs[..i + 1][..i] == cs[..i];
  }

  method CiteAll(cs: seq<Candidate>, details: Details) returns (cites: seq<Citation>)
    ensures cites == Cited(EvidenceIn(cs), details, FirstProvenances(cs))
  {
    var ordered: seq<nat>, spansBy: map<nat, seq<nat>>, fallback := [], map[], map[];
    for i := 0 to |cs|
      invariant Gathered(EvidenceIn(cs[..i]), ordered, spansBy)
      invariant fallback == FirstProvenances(cs[..i])
    {
      CandidateNext(cs, i);
      if cs[i].item.work !in fallback {
        fallback := fallback[cs[i].item.work := Fallback(cs[i].item.epistemic, cs[i].item.assertion)];
      }
      ordered, spansBy := Gather(EvidenceIn(cs[..i]), EvidenceOf(cs[i].item), ordered, spansBy);
    }
    assert cs[..|cs|] == cs;
    cites := CiteGathered(EvidenceIn(cs), ordered, spansBy, details, fallback);
  }

  // ----- What a citation can say -----

  /** `cs[k]` is a candidate of the cited work. */
  ghost predicate Supports(c: Candidate, work: nat, span: nat) {
    c.item.work == work && c.item.span == Some(span)
  }

  /** Every evidence record is that of a candidate. */
  ghost predicate FromCandidates(es: seq<Evidence>, cs: seq<Candidate>) {
    forall e :: e in es ==> exists c :: c in cs && e == EvidenceOf(c.item)
  }

  lemma {:induction false} NamedFromShown(markers: seq<Marker>, cs: seq<Candidate>)
    ensures FromCandidates(Named(markers, Index(cs)), cs)
  {
    if markers != [] {
      var m := markers[|markers| - 1];
      NamedFromShown(markers[..|markers| - 1], cs);
      if m.Some? && m.value in Index(cs) {
        IndexAt(cs, m.value);
        assert cs[m.value - 1] in cs;
      }
    }
  }

  lemma {:induction false} EvidenceFromAll(cs: seq<Candidate>)
    ensures FromCandidates(EvidenceIn(cs), cs)
  {
    if cs != [] {
      var n := |cs| - 1;
      EvidenceFromAll(cs[..n]);
      assert cs == cs[..n] + [cs[n]];
    }
  }

  lemma {:induction false} WorkNamed(es: seq<Evidence>, work: nat)
    ensures work in WorksNamed(es) <==> exists e :: e in es && e.work == work
  {
    if es != [] {
      var n := |es| - 1;
      assert es == es[..n] + [es[n]];
      WorkNamed(es[..n], work);
    }
  }

  lemma {:induction false} SpanNamed(es: seq<Evidence>, work: nat, span: nat)
    ensures span in SpansNamed(es, work) <==> exists e :: e in es && e.work == work && span in e.spans
  {
    if es != [] {
      var n := |es| - 1;
      assert es == es[..n] + [es[n]];
      SpanNamed(es[..n], work, span);
    }
  }

  lemma {:induction false} CiteAt(
      works: seq<nat>, es: seq<Evidence>, details: Details, fallback: map<nat, Fallback>, i: nat)
    requires i < |works|
    ensures CiteEach(works, es, details, fallback)[i]
            == BuildCitation(works[i], SpanOrder(es, works[i]), details, fallback)
  {
    if i < |works| - 1 {
      CiteAt(works[..|works| - 1], es, details, fallback, i);
    }
  }

  /** A work is cited exactly once if some evidence names it, and not at all otherwise. */
  lemma CitedWorks(es: seq<Evidence>, details: Details, fallback: map<nat, Fallback>, i: nat, j: nat)
    requires i < |Cited(es, details, fallback)| && j < |Cited(es, details, fallback)|
    ensures Cited(es, details, fallback)[i].work == Cited(es, details, fallback)[j].work ==> i == j
    ensures exists e :: e in es && e.work == Cited(es, details, fallback)[i].work
  {
    var works := WorkOrder(es);
    NewOnesDistinct(WorksNamed(es), []);
    CiteAt(works, es, details, fallback, i);
    CiteAt(works, es, details, fallback, j);
    NewOnesHas(WorksNamed(es), [], works[i]);
    WorkNamed(es, works[i]);
  }

  /** Every named work has its citation. */
  lemma CitationOf(es: seq<Evidence>, details: Details, fallback: map<nat, Fallback>, e: Evidence)
    returns (i: nat)
    requires e in es
    ensures i < |Cited(es, details, fallback)| && Cited(es, details, fallback)[i].work == e.work
  {
    var works := WorkOrder(es);
    WorkIsOrdered(es, e);
    i :| 0 <= i < |works| && works[i] == e.work;
    CiteAt(works, es, details, fallback, i);
  }

  lemma WorkIsOrdered(es: seq<Evidence>, e: Evidence)
    requires e in es
    ensures e.work in WorkOrder(es)
  {
    WorkNamed(es, e.work);
    NewOnesHas(WorksNamed(es), [], e.work);
  }

  lemma {:induction false} EvidenceOfEach(cs: seq<Candidate>, c: Candidate)
    requires c in cs
    ensures EvidenceOf(c.item) in EvidenceIn(cs)
  {
    var n := |cs| - 1;
    assert cs == cs[..n] + [cs[n]];
    if c in cs[..n] {
      EvidenceOfEach(cs[..n], c);
    }
  }

  /** A citation carries exactly the spans that evidence for its work names, without duplicates. */
  lemma CitedSpans(es: seq<Evidence>, details: Details, fallback: map<nat, Fallback>, i: nat, span: nat)
    requires i < |Cited(es, details, fallback)|
    ensures var c := Cited(es, details, fallback)[i];
            && NoDuplicates(c.spans)
            && (span in c.spans <==> exists e :: e in es && e.work == c.work && span in e.spans)
  {
    var works := WorkOrder(es);
    CiteAt(works, es, details, fallback, i);
    NewOnesDistinct(SpansNamed(es, works[i]), []);
    NewOnesHas(SpansNamed(es, works[i]), [], span);
    SpanNamed(es, works[i], span);
  }

  /** Whatever the evidence names comes from a candidate: its work is that of a candidate, and each span
      is the span of a candidate of that very work. */
  ghost predicate Grounded(c: Citation, cs: seq<Candidate>) {
    && (exists k :: k in cs && k.item.work == c.work)
    && (forall s :: s in c.spans ==> exists k :: k in cs && Supports(k, c.work, s))
  }

  lemma CitationsAreGrounded(
      es: seq<Evidence>, cs: seq<Candidate>, details: Details, fallback: map<nat, Fallback>, i: nat)
    requires FromCandidates(es, cs) && i < |Cited(es, details, fallback)|
    ensures Grounded(Cited(es, details, fallback)[i], cs)
  {
    var c := Cited(es, details, fallback)[i];
    CitedWorks(es, details, fallback, i, i);
    forall s | s in c.spans
      ensures exists k :: k in cs && Supports(k, c.work, s)
    {
      CitedSpans(es, details, fallback, i, s);
      var e :| e in es && e.work == c.work && s in e.spans;
      var k :| k in cs && e == EvidenceOf(k.item);
      assert Supports(k, c.work, s);
    }
  }

  /** For any list of markers, the citations are grounded in the blocks that were shown. */
  lemma MarkersCiteOnlyShown(markers: seq<Marker>, shown: seq<Candidate>, details: Details, i: nat)
    requires i < |Cited(Named(markers, Index(shown)), details, map[])|
    ensures Grounded(Cited(Named(markers, Index(shown)), details, map[])[i], shown)
  {
    NamedFromShown(markers, shown);
    CitationsAreGrounded(Named(markers, Index(shown)), shown, details, map[], i);
  }

  lemma {:induction false} InIds(cs: seq<Candidate>, c: Candidate)
    requires c in cs
    ensures c.item.work in WorksIn(cs)
    ensures c.item.span.Some? ==> c.item.span.value in SpansIn(cs)
  {
    var n := |cs| - 1;
    assert cs == cs[..n] + [cs[n]];
    if c in cs[..n] {
      InIds(cs[..n], c);
    }
  }

  /** What is grounded in the shown candidates is in the allowed set. */
  lemma GroundedIsAllowed(c: Citation, cs: seq<Candidate>)
    requires Grounded(c, cs)
    ensures c.work in AllowedFrom(cs).works
    ensures forall s :: s in c.spans ==> s in AllowedFrom(cs).spans
  {
    var k :| k in cs && k.item.work == c.work;
    InIds(cs, k);
    forall s | s in c.spans
      ensures s in AllowedFrom(cs).spans
    {
      var m :| m in cs && Supports(m, c.work, s);
      InIds(cs, m);
    }
  }
}
