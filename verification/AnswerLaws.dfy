// End to end: what the model never saw cannot be cited, and the trace says exactly what it saw.
module AnswerLaws {
  import opened Prelude
  import opened Compose
  import opened Citations
  import opened Guard
  import opened GuardLaws
  import opened AnswerHarness

  /** The candidates a draft may cite. */
  ghost function Source(cs: seq<Candidate>, s: Setting, d: Draft): seq<Candidate> {
    if s.route.Prompt? && s.reply.Parsed? && d.cut.Some? && d.cut.value <= |cs| then cs[..d.cut.value] else cs
  }

  lemma AllIsGrounded(cs: seq<Candidate>, details: Details, v: Citation)
    requires v in Cited(EvidenceIn(cs), details, FirstProvenances(cs))
    ensures Grounded(v, cs)
  {
    var cites := Cited(EvidenceIn(cs), details, FirstProvenances(cs));
    var i :| 0 <= i < |cites| && cites[i] == v;
    EvidenceFromAll(cs);
    CitationsAreGrounded(EvidenceIn(cs), cs, details, FirstProvenances(cs), i);
  }

  lemma MarkedIsGrounded(markers: seq<Marker>, shown: seq<Candidate>, details: Details, v: Citation)
    requires v in Cited(Named(markers, Index(shown)), details, map[])
    ensures Grounded(v, shown)
  {
    var cites := Cited(Named(markers, Index(shown)), details, map[]);
    var i :| 0 <= i < |cites| && cites[i] == v;
    MarkersCiteOnlyShown(markers, shown, details, i);
  }

  lemma DraftIsGrounded(cs: seq<Candidate>, s: Setting, d: Draft, v: Citation)
    requires Drafted(cs, s, d) && v in d.answer.citations
    ensures Grounded(v, Source(cs, s, d)) && d.allowed == AllowedFrom(Source(cs, s, d))
  {
    if s.route.NoPrompt? || s.reply.Failed? {
      AllIsGrounded(cs, s.details, v);
    } else {
      MarkedIsGrounded(s.reply.markers, cs[..d.cut.value], s.details, v);
    }
  }

  lemma DraftIsAllowed(cs: seq<Candidate>, s: Setting, d: Draft, v: Citation)
    requires Drafted(cs, s, d) && v in d.answer.citations
    ensures InAllowed(v, d.allowed)
  {
    DraftIsGrounded(cs, s, d, v);
    GroundedIsAllowed(v, Source(cs, s, d));
  }

  /** For any markers whatsoever, the guard's membership step has nothing to correct. */
  lemma MembershipStepIsIdle(ranked: seq<Candidate>, s: Setting, r: Outcome, d: Draft)
    requires FromDraft(ranked, s, r, d)
    ensures Members(d.answer.citations, d.allowed) == d.answer.citations
    ensures MemberWarnings(d.answer.citations, d.allowed) == []
    ensures r.answer.citations == CitableOnly(d.answer.citations, s.status)
  {
    forall v | v in d.answer.citations
      ensures InAllowed(v, d.allowed)
    {
      DraftIsAllowed(Head(ranked, s.maxCandidates), s, d, v);
    }
    MembershipIsIdentity(d.answer.citations, d.allowed);
    Ungraded(d.answer, d.allowed, Policy(d.answer.mode, s.supportFloor, s.notFound), s.status);
  }

  lemma AnswerIsDrafted(ranked: seq<Candidate>, s: Setting, r: Outcome, d: Draft, v: Citation)
    requires FromDraft(ranked, s, r, d)
    ensures v in r.answer.citations <==> v in d.answer.citations && Citable(v.work, s.status)
  {
    MembershipStepIsIdle(ranked, s, r, d);
    CitableIff(d.answer.citations, s.status, v);
  }

  lemma AnswerIsGrounded(ranked: seq<Candidate>, s: Setting, r: Outcome, d: Draft, v: Citation)
    requires FromDraft(ranked, s, r, d) && v in r.answer.citations
    ensures Grounded(v, Source(Head(ranked, s.maxCandidates), s, d))
  {
    AnswerIsDrafted(ranked, s, r, d, v);
    DraftIsGrounded(Head(ranked, s.maxCandidates), s, d, v);
  }

  // ----- The trace -----

  /** With a nonnegative candidate limit, the full ranked list falls into what was shown, then what the token
      budget cut, then what the rank limit cut. When a prompt was built, as many are shown as it has blocks. */
  lemma DispositionsAreThreeRuns(ranked: seq<Candidate>, s: Setting, r: Outcome, d: Draft, i: nat)
    requires s.maxCandidates >= 0 && Traced(ranked, s, r) && FromDraft(ranked, s, r, d) && i < |ranked|
    ensures var kept := |Head(ranked, s.maxCandidates)|;
            var shown := if r.cut.Some? then r.cut.value else kept;
            && shown <= kept <= |ranked|
            && (r.trace[i] == WasShown <==> i < shown)
            && (r.trace[i] == CutBudget <==> shown <= i < kept)
            && (r.trace[i] == CutRank <==> kept <= i)
    ensures r.cut.Some? ==> |r.shown| == r.cut.value && (i < |r.shown| ==> r.shown[i].item == ranked[i].item)
  {
    var cs := Head(ranked, s.maxCandidates);
    assert cs == ranked[..|cs|];
  }

  /** A prompt is built exactly if the route allows one and there is a candidate; the blocks it shows are then the
      longest affordable prefix, which the arguments determine. */
  lemma PromptIsDetermined(ranked: seq<Candidate>, s: Setting, r: Outcome, d: Draft, cut: nat)
    requires FromDraft(ranked, s, r, d)
    ensures r.cut.Some? <==> s.route.Prompt? && Head(ranked, s.maxCandidates) != []
    ensures r.cut.Some? && LongestAffordable(Head(ranked, s.maxCandidates), s.route.limits, cut) ==> r.cut.value == cut
  {
    var cs := Head(ranked, s.maxCandidates);
    if r.cut.Some? && LongestAffordable(cs, s.route.limits, cut) {
      assert Affordable(cs, s.route.limits, cut) && Affordable(cs, s.route.limits, r.cut.value);
    }
  }

  /** When a prompt was built, the trace marks exactly its blocks as shown if and only if the candidate limit
      is not negative: a negative one slices from the end of the list but marks every row as cut by rank. */
  lemma TraceMatchesPromptIff(ranked: seq<Candidate>, s: Setting, r: Outcome, d: Draft)
    requires Traced(ranked, s, r) && FromDraft(ranked, s, r, d)
    requires s.route.Prompt? && Head(ranked, s.maxCandidates) != []
    ensures (forall i :: 0 <= i < |ranked| ==> (r.trace[i] == WasShown <==> i < |r.shown|)) <==> s.maxCandidates >= 0
  {
    var cs := Head(ranked, s.maxCandidates);
    if s.maxCandidates >= 0 {
      forall i | 0 <= i < |ranked|
        ensures r.trace[i] == WasShown <==> i < |r.shown|
      {
        DispositionsAreThreeRuns(ranked, s, r, d, i);
      }
    } else {
      assert 0 < |r.shown| <= |ranked|;
      assert r.trace[0] == CutRank;
    }
  }

  /** Two candidates and a limit of minus one: the prompt shows the first, the trace marks both as cut by rank. */
  lemma NegativeLimitHidesThePrompt(a: Candidate, b: Candidate, s: Setting, r: Outcome, d: Draft)
    requires s.maxCandidates == -1 && s.route.Prompt? && Traced([a, b], s, r) && FromDraft([a, b], s, r, d)
    ensures |r.shown| == 1 && r.shown[0].item == a.item && r.trace == [CutRank, CutRank]
  {
    assert Head([a, b], -1) == [a];
    assert [a][..1] == [a];
  }

  /** `v` rests on candidates that the trace marks as shown. */
  ghost predicate RestsOnShown(ranked: seq<Candidate>, trace: seq<Disposition>, v: Citation)
    requires |trace| == |ranked|
  {
    && (exists i :: 0 <= i < |ranked| && trace[i] == WasShown && ranked[i].item.work == v.work)
    && (forall span :: span in v.spans
          ==> exists i :: 0 <= i < |ranked| && trace[i] == WasShown && Supports(ranked[i], v.work, span))
  }

  /** What was not shown is not cited: unless a dispatched prompt failed, every cited work and span is that
      of a candidate the trace marks as shown. */
  lemma CitedWasShown(ranked: seq<Candidate>, s: Setting, r: Outcome, d: Draft, v: Citation)
    requires s.maxCandidates >= 0 && Traced(ranked, s, r) && FromDraft(ranked, s, r, d)
    requires s.route.NoPrompt? || s.reply.Parsed?
    requires v in r.answer.citations
    ensures RestsOnShown(ranked, r.trace, v)
  {
    var shown := Source(Head(ranked, s.maxCandidates), s, d);
    AnswerIsGrounded(ranked, s, r, d, v);
    forall k | k in shown
      ensures MarkedShown(ranked, r.trace, k)
    {
      SourceIsMarked(ranked, s, r, d, k);
    }
    GroundedRests(ranked, r.trace, shown, v);
  }

  lemma SourceIsMarked(ranked: seq<Candidate>, s: Setting, r: Outcome, d: Draft, k: Candidate)
    requires s.maxCandidates >= 0 && Traced(ranked, s, r) && FromDraft(ranked, s, r, d)
    requires s.route.NoPrompt? || s.reply.Parsed?
    requires k in Source(Head(ranked, s.maxCandidates), s, d)
    ensures MarkedShown(ranked, r.trace, k)
  {
    var shown := Source(Head(ranked, s.maxCandidates), s, d);
    var i :| 0 <= i < |shown| && shown[i] == k;
    DispositionsAreThreeRuns(ranked, s, r, d, i);
    assert ranked[i] == k;
  }

  /** The trace marks `k` as shown. */
  ghost predicate MarkedShown(ranked: seq<Candidate>, trace: seq<Disposition>, k: Candidate)
    requires |trace| == |ranked|
  {
    exists i :: 0 <= i < |ranked| && trace[i] == WasShown && ranked[i] == k
  }

  lemma GroundedRests(ranked: seq<Candidate>, trace: seq<Disposition>, shown: seq<Candidate>, v: Citation)
    requires |trace| == |ranked| && Grounded(v, shown)
    requires forall k :: k in shown ==> MarkedShown(ranked, trace, k)
    ensures RestsOnShown(ranked, trace, v)
  {
    forall span | span in v.spans
      ensures exists i :: 0 <= i < |ranked| && trace[i] == WasShown && Supports(ranked[i], v.work, span)
    {
      var k :| k in shown && Supports(k, v.work, span);
      assert MarkedShown(ranked, trace, k);
    }
  }

  /** Even after a failed dispatch nothing cut by the rank limit is cited. */
  lemma CutByRankIsNotCited(ranked: seq<Candidate>, s: Setting, r: Outcome, d: Draft, v: Citation)
    requires FromDraft(ranked, s, r, d) && v in r.answer.citations
    ensures Grounded(v, Head(ranked, s.maxCandidates))
  {
    var cs := Head(ranked, s.maxCandidates);
    AnswerIsGrounded(ranked, s, r, d, v);
    assert forall k :: k in Source(cs, s, d) ==> k in cs;
  }

  // ----- After a failed dispatch -----

  /** Some shown candidate has the same work, and one has the same work and span. */
  ghost predicate Covered(k: Candidate, shown: seq<Candidate>) {
    && (exists m :: m in shown && m.item.work == k.item.work)
    && (k.item.span.Some? ==> exists m :: m in shown && Supports(m, k.item.work, k.item.span.value))
  }

  ghost predicate CoversAll(cs: seq<Candidate>, status: Membership, shown: seq<Candidate>) {
    forall k :: k in cs && Citable(k.item.work, status) ==> Covered(k, shown)
  }

  /** The retrieval-only draft cites every candidate. */
  lemma AllAreCited(cs: seq<Candidate>, details: Details, k: Candidate) returns (v: Citation)
    requires k in cs
    ensures v in Cited(EvidenceIn(cs), details, FirstProvenances(cs)) && v.work == k.item.work
    ensures k.item.span.Some? ==> k.item.span.value in v.spans
  {
    var es, fallback := EvidenceIn(cs), FirstProvenances(cs);
    EvidenceOfEach(cs, k);
    var i := CitationOf(es, details, fallback, EvidenceOf(k.item));
    v := Cited(es, details, fallback)[i];
    if k.item.span.Some? {
      CitedSpans(es, details, fallback, i, k.item.span.value);
    }
  }

  /** The trace marks exactly the first `cut` rows as shown. */
  ghost predicate MarksPrefix(trace: seq<Disposition>, cut: nat) {
    cut <= |trace| && forall i :: 0 <= i < |trace| ==> (trace[i] == WasShown <==> i < cut)
  }

  lemma MarkedIffPrefix(ranked: seq<Candidate>, trace: seq<Disposition>, cut: nat, k: Candidate)
    requires |trace| == |ranked| && MarksPrefix(trace, cut)
    ensures MarkedShown(ranked, trace, k) <==> k in ranked[..cut]
  {
    if k in ranked[..cut] {
      var i :| 0 <= i < cut && ranked[..cut][i] == k;
      assert ranked[i] == k;
    }
    if MarkedShown(ranked, trace, k) {
      var i :| 0 <= i < |ranked| && trace[i] == WasShown && ranked[i] == k;
      assert ranked[..cut][i] == k;
    }
  }

  lemma RestsIffGrounded(ranked: seq<Candidate>, trace: seq<Disposition>, cut: nat, v: Citation)
    requires |trace| == |ranked| && MarksPrefix(trace, cut)
    ensures RestsOnShown(ranked, trace, v) <==> Grounded(v, ranked[..cut])
  {
    var shown := ranked[..cut];
    if RestsOnShown(ranked, trace, v) {
      var i :| 0 <= i < |ranked| && trace[i] == WasShown && ranked[i].item.work == v.work;
      assert shown[i] == ranked[i];
      forall span | span in v.spans
        ensures exists k :: k in shown && Supports(k, v.work, span)
      {
        var j :| 0 <= j < |ranked| && trace[j] == WasShown && Supports(ranked[j], v.work, span);
        assert shown[j] == ranked[j];
      }
    }
    if Grounded(v, shown) {
      forall k | k in shown
        ensures MarkedShown(ranked, trace, k)
      {
        MarkedIffPrefix(ranked, trace, cut, k);
      }
      GroundedRests(ranked, trace, shown, v);
    }
  }

  lemma CoveredIsGrounded(cs: seq<Candidate>, shown: seq<Candidate>, v: Citation)
    requires Grounded(v, cs) && forall k :: k in cs && k.item.work == v.work ==> Covered(k, shown)
    ensures Grounded(v, shown)
  {
    forall span | span in v.spans
      ensures exists m :: m in shown && Supports(m, v.work, span)
    {
      var k :| k in cs && Supports(k, v.work, span);
      assert Covered(k, shown);
    }
  }

  /** When all candidates are cited, the citable citations rest on the shown ones exactly if those cover the rest. */
  lemma AllCitedIff(cs: seq<Candidate>, shown: seq<Candidate>, details: Details, status: Membership)
    ensures var cites := Cited(EvidenceIn(cs), details, FirstProvenances(cs));
            (forall v :: v in cites && Citable(v.work, status) ==> Grounded(v, shown)) <==> CoversAll(cs, status, shown)
  {
    var cites := Cited(EvidenceIn(cs), details, FirstProvenances(cs));
    if forall v :: v in cites && Citable(v.work, status) ==> Grounded(v, shown) {
      forall k | k in cs && Citable(k.item.work, status)
        ensures Covered(k, shown)
      {
        var v := AllAreCited(cs, details, k);
        assert Grounded(v, shown);
      }
    }
    if CoversAll(cs, status, shown) {
      forall v | v in cites && Citable(v.work, status)
        ensures Grounded(v, shown)
      {
        AllIsGrounded(cs, details, v);
        CoveredIsGrounded(cs, shown, v);
      }
    }
  }

  lemma PromptMarksPrefix(ranked: seq<Candidate>, s: Setting, r: Outcome, d: Draft)
    requires s.maxCandidates >= 0 && Traced(ranked, s, r) && FromDraft(ranked, s, r, d) && r.cut.Some?
    ensures MarksPrefix(r.trace, r.cut.value)
  {
    assert r.cut.value <= |Head(ranked, s.maxCandidates)|;
    forall i | 0 <= i < |ranked|
      ensures r.trace[i] == WasShown <==> i < r.cut.value
    {
      DispositionsAreThreeRuns(ranked, s, r, d, i);
    }
  }

  /** After a failed dispatch the answer cites all candidates while the trace keeps the prompt's cut: cited means
      shown if and only if every citable candidate beyond the longest affordable prefix repeats a work and span
      of that prefix. */
  lemma FailedDispatchIff(ranked: seq<Candidate>, s: Setting, r: Outcome, d: Draft, cut: nat)
    requires s.maxCandidates >= 0 && Traced(ranked, s, r) && FromDraft(ranked, s, r, d)
    requires s.route.Prompt? && s.reply.Failed? && Head(ranked, s.maxCandidates) != []
    requires LongestAffordable(Head(ranked, s.maxCandidates), s.route.limits, cut)
    ensures cut <= |ranked|
    ensures (forall v :: v in r.answer.citations ==> RestsOnShown(ranked, r.trace, v))
            <==> CoversAll(Head(ranked, s.maxCandidates), s.status, ranked[..cut])
  {
    PromptIsDetermined(ranked, s, r, d, cut);
    PromptMarksPrefix(ranked, s, r, d);
    var shown := ranked[..cut];
    forall v
      ensures v in r.answer.citations <==> v in d.answer.citations && Citable(v.work, s.status)
      ensures RestsOnShown(ranked, r.trace, v) <==> Grounded(v, shown)
    {
      AnswerIsDrafted(ranked, s, r, d, v);
      RestsIffGrounded(ranked, r.trace, cut, v);
    }
    AllCitedIff(Head(ranked, s.maxCandidates), shown, s.details, s.status);
  }

  /** Candidates of two works and a budget for one block: after a failed dispatch the second work is cited though
      the trace marks only the first as shown. */
  lemma UnshownIsCitedAfterFailure(a: Candidate, b: Candidate, s: Setting, r: Outcome, d: Draft)
    requires a.item.work != b.item.work && s.maxCandidates == 2 && s.status == None && s.reply.Failed?
    requires s.route == Prompt(Limits(1, None, 0, 0, 0))
    requires Traced([a, b], s, r) && FromDraft([a, b], s, r, d)
    ensures exists v :: v in r.answer.citations && !RestsOnShown([a, b], r.trace, v)
  {
    var ranked := [a, b];
    OneBlockFits(a, b, s.route.limits);
    FailedDispatchIff(ranked, s, r, d, 1);
    assert b in Head(ranked, 2) && Citable(b.item.work, None);
    assert !Covered(b, ranked[..1]);
  }

  lemma OneBlockFits(a: Candidate, b: Candidate, l: Limits)
    requires Cap(l) == 1
    ensures Head([a, b], 2) == [a, b] && LongestAffordable([a, b], l, 1)
  {
    var cs := [a, b];
    assert Total(cs, l, 2) == Total(cs, l, 1) + Block(2, b.item, l).tokens;
    assert Total(cs, l, 1) == Total(cs, l, 0) + Block(1, a.item, l).tokens;
    CutIsLongest(cs, l, 1);
  }
}
