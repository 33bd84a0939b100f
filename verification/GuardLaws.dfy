// What the guard guarantees for every envelope, allowed set and mode.
module GuardLaws {
  import opened Prelude
  import opened Text
  import opened Lists
  import opened Compose
  import opened Citations
  import opened Guard

  // ----- Which citations survive -----

  lemma {:induction false} MemberIff(cs: seq<Citation>, allowed: Allowed, v: Citation)
    ensures v in Members(cs, allowed) <==> exists c :: c in cs && Kept(c, allowed) && v == Stripped(c, allowed)
  {
    if cs != [] {
      var n := |cs| - 1;
      assert cs == cs[..n] + [cs[n]];
      MemberIff(cs[..n], allowed, v);
    }
  }

  lemma {:induction false} CitableIff(cs: seq<Citation>, status: Membership, v: Citation)
    ensures v in CitableOnly(cs, status) <==> v in cs && Citable(v.work, status)
  {
    if cs != [] {
      var n := |cs| - 1;
      assert cs == cs[..n] + [cs[n]];
      CitableIff(cs[..n], status, v);
    }
  }

  lemma Ungraded(a: Answer, allowed: Allowed, p: Policy, status: Membership)
    ensures var r := Enforced(a, allowed, p, status);
            r.citations == Survivors(a, allowed, status) && WithIds(r) == r
  {
    DecidedKeepsCitations(CitationsChecked(a, allowed, status), p);
  }

  lemma DecidedKeepsCitations(a: Answer, p: Policy)
    ensures var r := Decided(a, p);
            r.citations == a.citations && r.citedWorks == a.citedWorks && r.citedSpans == a.citedSpans
  {
  }

  /** A citation is in the final answer exactly if it is an original one with its spans cut down to the
      allowed ones, its work is allowed and citable, and it kept a span if it had one. */
  lemma SurvivesIff(a: Answer, allowed: Allowed, p: Policy, status: Membership, v: Citation)
    ensures v in Enforced(a, allowed, p, status).citations
            <==> exists c :: c in a.citations && Kept(c, allowed) && Citable(c.work, status) &&
                             v == Stripped(c, allowed)
  {
    Ungraded(a, allowed, p, status);
    CitableIff(Members(a.citations, allowed), status, v);
    MemberIff(a.citations, allowed, v);
  }

  /** Nothing that was not retrieved, and no work the project excludes, is left in the answer. */
  lemma OnlyAllowedIsCited(a: Answer, allowed: Allowed, p: Policy, status: Membership, v: Citation, s: nat)
    requires v in Enforced(a, allowed, p, status).citations
    ensures v.work in allowed.works && Citable(v.work, status)
    ensures s in v.spans ==> s in allowed.spans
  {
    SurvivesIff(a, allowed, p, status, v);
  }

  lemma {:induction false} InWorkList(cs: seq<Citation>, w: nat)
    ensures w in CitedWorkList(cs) <==> exists c :: c in cs && c.work == w
  {
    if cs != [] {
      var n := |cs| - 1;
      assert cs == cs[..n] + [cs[n]];
      InWorkList(cs[..n], w);
    }
  }

  lemma {:induction false} InSpanList(cs: seq<Citation>, s: nat)
    ensures s in CitedSpanList(cs) <==> exists c :: c in cs && s in c.spans
  {
    if cs != [] {
      var n := |cs| - 1;
      assert cs == cs[..n] + [cs[n]];
      InSpanList(cs[..n], s);
    }
  }

  /** The cited ids are exactly the works and spans of the citations, without duplicates, so they too are allowed. */
  lemma CitedIdsMatch(a: Answer, allowed: Allowed, p: Policy, status: Membership, id: nat)
    ensures var r := Enforced(a, allowed, p, status);
            && NoDuplicates(r.citedWorks) && NoDuplicates(r.citedSpans)
            && (id in r.citedWorks <==> exists c :: c in r.citations && c.work == id)
            && (id in r.citedSpans <==> exists c :: c in r.citations && id in c.spans)
  {
    Ungraded(a, allowed, p, status);
    IdsOf(Enforced(a, allowed, p, status), id);
  }

  lemma IdsOf(r: Answer, id: nat)
    requires WithIds(r) == r
    ensures NoDuplicates(r.citedWorks) && NoDuplicates(r.citedSpans)
    ensures id in r.citedWorks <==> exists c :: c in r.citations && c.work == id
    ensures id in r.citedSpans <==> exists c :: c in r.citations && id in c.spans
  {
    var cs := r.citations;
    NewOnesDistinct(CitedWorkList(cs), []);
    NewOnesDistinct(CitedSpanList(cs), []);
    NewOnesHas(CitedWorkList(cs), [], id);
    NewOnesHas(CitedSpanList(cs), [], id);
    InWorkList(cs, id);
    InSpanList(cs, id);
  }

  // ----- Abstention -----

  /** Answers whose grounding is not graded: no model wrote them, or they openly rest outside the corpus,
      or they were just suppressed for doing so. */
  predicate Exempt(a: Answer, mode: Mode) {
    mode == RetrievalOnly || a.category == OutsideCorpus
  }

  /** Outside the exempt cases an answer is marked insufficient exactly when too few citations survive; it
      is then unresolved and says nothing beyond the not-found message. Otherwise its text is untouched and
      the category follows from the evidence. */
  lemma InsufficientIff(a: Answer, allowed: Allowed, p: Policy, status: Membership)
    requires !Exempt(a, p.mode)
    ensures var r := Enforced(a, allowed, p, status);
            && (r.insufficient <==> |r.citations| < p.floor)
            && (r.insufficient ==> r.category == Unresolved)
            && (r.insufficient ==> r.text == p.notFound || (r.text == a.text && Blank(r.text)))
            && (!r.insufficient ==> r.text == a.text && r.category == Reconciled(a.category, r.citations))
  {
  }

  /** The reconciled category, read off the evidence: synthesis takes spans of two works and nothing stated. */
  lemma CategoryMeans(declared: Category, cs: seq<Citation>)
    requires cs != []
    ensures Reconciled(declared, cs) == CorpusSynthesis
            <==> TwoWorks(cs) && forall c :: c in cs && c.spans != [] ==> c.assertion != Stated
    ensures Reconciled(declared, cs) == ProjectGraphInference <==> forall c :: c in cs ==> c.spans == []
    ensures Reconciled(declared, cs) in {CorpusSynthesis, ProjectGraphInference, SourceGrounded}
  {
    if TwoWorks(cs) {
      var i, j :| 0 <= i < j < |cs| && cs[i].spans != [] && cs[j].spans != [] && cs[i].work != cs[j].work;
      assert cs[i] in cs;
    }
  }

  /** In a closed project no answer rests outside the corpus, and one that tried to is blank. */
  lemma ProjectOnlyStaysInside(a: Answer, allowed: Allowed, p: Policy, status: Membership)
    requires p.mode == ProjectOnly
    ensures var r := Enforced(a, allowed, p, status);
            && r.category != OutsideCorpus
            && (a.category == OutsideCorpus ==> r.category == Unresolved && r.insufficient && r.text == "")
  {
    TwoOrNot(Survivors(a, allowed, status));
  }

  lemma TwoOrNot(cs: seq<Citation>)
    ensures forall d :: d != OutsideCorpus ==> Reconciled(d, cs) != OutsideCorpus
  {
  }

  /** Warnings are only added. */
  lemma WarningsGrow(a: Answer, allowed: Allowed, p: Policy, status: Membership)
    ensures a.warnings <= Enforced(a, allowed, p, status).warnings
  {
    var b := CitationsChecked(a, allowed, status);
    assert a.warnings <= b.warnings;
    DecidedWarns(b, p);
  }

  lemma DecidedWarns(a: Answer, p: Policy)
    ensures a.warnings <= Decided(a, p).warnings
  {
  }

  /** An exempt answer that is not suppressed keeps its category, its text and its flag. */
  lemma ExemptIsKept(a: Answer, allowed: Allowed, p: Policy, status: Membership)
    requires Exempt(a, p.mode) && !(p.mode == ProjectOnly && a.category == OutsideCorpus)
    ensures var r := Enforced(a, allowed, p, status);
            r.category == a.category && r.text == a.text && r.insufficient == a.insufficient
  {
  }

  /** An answer below the floor carries the not-found message exactly if it had any text. */
  lemma BannerIff(a: Answer, allowed: Allowed, p: Policy, status: Membership)
    requires !Exempt(a, p.mode)
    ensures var r := Enforced(a, allowed, p, status);
            |r.citations| < p.floor ==> r.text == if Blank(a.text) then a.text else p.notFound
  {
  }

  /** The mode of an answer is never changed. */
  lemma ModeIsKept(a: Answer, allowed: Allowed, p: Policy, status: Membership)
    ensures Enforced(a, allowed, p, status).mode == a.mode
  {
  }

  // ----- The warnings -----

  /** The guard warns of each citation it touched, then of each excluded work, then of its verdict. */
  lemma GuardWarns(a: Answer, allowed: Allowed, p: Policy, status: Membership)
    ensures var r := Enforced(a, allowed, p, status);
            r.warnings == a.warnings + MemberWarnings(a.citations, allowed)
                          + ExcludedWarnings(Members(a.citations, allowed), status)
                          + if a.category == OutsideCorpus && p.mode == ProjectOnly then [OutsideSuppressed]
                            else if a.category == OutsideCorpus || p.mode == RetrievalOnly then []
                            else if |r.citations| >= p.floor then if a.insufficient then [FlagOverridden] else []
                            else if Blank(a.text) then [] else [ProseSuppressed]
  {
    var b := CitationsChecked(a, allowed, status);
    assert b.warnings + [] == b.warnings;
  }

  /** Citations are judged one by one, in their order. */
  lemma {:induction false} MembershipJoins(cs: seq<Citation>, ds: seq<Citation>, allowed: Allowed)
    ensures Members(cs + ds, allowed) == Members(cs, allowed) + Members(ds, allowed)
    ensures MemberWarnings(cs + ds, allowed) == MemberWarnings(cs, allowed) + MemberWarnings(ds, allowed)
  {
    if ds == [] {
      assert cs + ds == cs;
    } else {
      var n := |ds| - 1;
      assert (cs + ds)[..|cs + ds| - 1] == cs + ds[..n];
      MembershipJoins(cs, ds[..n], allowed);
    }
  }

  lemma {:induction false} InclusionJoins(cs: seq<Citation>, ds: seq<Citation>, status: Membership)
    ensures CitableOnly(cs + ds, status) == CitableOnly(cs, status) + CitableOnly(ds, status)
    ensures ExcludedWarnings(cs + ds, status) == ExcludedWarnings(cs, status) + ExcludedWarnings(ds, status)
  {
    if ds == [] {
      assert cs + ds == cs;
    } else {
      var n := |ds| - 1;
      assert (cs + ds)[..|cs + ds| - 1] == cs + ds[..n];
      InclusionJoins(cs, ds[..n], status);
    }
  }

  lemma {:induction false} ValidSpansJoin(ss: seq<nat>, ts: seq<nat>, allowed: Allowed)
    ensures ValidSpans(ss + ts, allowed) == ValidSpans(ss, allowed) + ValidSpans(ts, allowed)
  {
    if ts == [] {
      assert ss + ts == ss;
    } else {
      var n := |ts| - 1;
      assert (ss + ts)[..|ss + ts| - 1] == ss + ts[..n];
      ValidSpansJoin(ss, ts[..n], allowed);
    }
  }

  predicate AllAllowed(spans: seq<nat>, allowed: Allowed) {
    forall s :: s in spans ==> s in allowed.spans
  }

  predicate NoneAllowed(spans: seq<nat>, allowed: Allowed) {
    forall s :: s in spans ==> s !in allowed.spans
  }

  lemma {:induction false} SpansOnlyLost(spans: seq<nat>, allowed: Allowed)
    ensures |ValidSpans(spans, allowed)| <= |spans|
    ensures |ValidSpans(spans, allowed)| == |spans| <==> AllAllowed(spans, allowed)
    ensures ValidSpans(spans, allowed) == [] <==> NoneAllowed(spans, allowed)
  {
    if spans != [] {
      var n := |spans| - 1;
      assert spans == spans[..n] + [spans[n]];
      SpansOnlyLost(spans[..n], allowed);
    }
  }

  /** What becomes of one citation: dropped with its work, dropped with its last span, cut down to its allowed
      spans, or kept as it is, with a warning that says which. */
  lemma JudgedAlone(c: Citation, allowed: Allowed)
    ensures var members, warned := Members([c], allowed), MemberWarnings([c], allowed);
            if c.work !in allowed.works then members == [] && warned == [WorkNotRetrieved(c.work)]
            else if AllAllowed(c.spans, allowed) then members == [c] && warned == []
            else if NoneAllowed(c.spans, allowed) then members == [] && warned == [NoValidSpan(c.work)]
            else members == [c.(spans := ValidSpans(c.spans, allowed))] && warned == [InventedSpan(c.work)]
  {
    assert [c][..0] == [];
    assert Members([], allowed) == [] && MemberWarnings([], allowed) == [];
    SpansOnlyLost(c.spans, allowed);
    if AllAllowed(c.spans, allowed) {
      AllSpansValid(c.spans, allowed);
    }
  }

  /** A citation is dropped as excluded exactly if there is a connection and the work has no membership row, or one
      that is neither included nor metadata only. */
  lemma ExcludedAlone(c: Citation, status: Membership)
    ensures var out := status.Some?
              && (c.work !in status.value || status.value[c.work] !in {Included, MetadataOnly});
            && CitableOnly([c], status) == (if out then [] else [c])
            && ExcludedWarnings([c], status) == (if out then [ExcludedWork(c.work)] else [])
  {
    assert [c][..0] == [];
  }

  // ----- Citations that need no correction -----

  predicate InAllowed(c: Citation, allowed: Allowed) {
    c.work in allowed.works && forall s :: s in c.spans ==> s in allowed.spans
  }

  lemma {:induction false} AllSpansValid(spans: seq<nat>, allowed: Allowed)
    requires forall s :: s in spans ==> s in allowed.spans
    ensures ValidSpans(spans, allowed) == spans
  {
    if spans != [] {
      var n := |spans| - 1;
      assert spans == spans[..n] + [spans[n]];
      AllSpansValid(spans[..n], allowed);
    }
  }

  /** The membership step leaves citations of allowed works and spans as they are, without a warning. */
  lemma {:induction false} MembershipIsIdentity(cs: seq<Citation>, allowed: Allowed)
    requires forall c :: c in cs ==> InAllowed(c, allowed)
    ensures Members(cs, allowed) == cs && MemberWarnings(cs, allowed) == []
  {
    if cs != [] {
      var n := |cs| - 1;
      assert cs == cs[..n] + [cs[n]];
      MembershipIsIdentity(cs[..n], allowed);
      assert InAllowed(cs[n], allowed);
      AllSpansValid(cs[n].spans, allowed);
    }
  }

  lemma {:induction false} CitableIsIdentity(cs: seq<Citation>, status: Membership)
    requires forall c :: c in cs ==> Citable(c.work, status)
    ensures CitableOnly(cs, status) == cs && ExcludedWarnings(cs, status) == []
  {
    if cs != [] {
      var n := |cs| - 1;
      assert cs == cs[..n] + [cs[n]];
      CitableIsIdentity(cs[..n], status);
    }
  }

  // ----- Applying the guard twice -----

  lemma SurvivorsSurvive(a: Answer, allowed: Allowed, status: Membership)
    ensures var cs := Survivors(a, allowed, status);
            Members(cs, allowed) == cs && MemberWarnings(cs, allowed) == []
            && CitableOnly(cs, status) == cs && ExcludedWarnings(cs, status) == []
  {
    var cs := Survivors(a, allowed, status);
    forall v | v in cs
      ensures InAllowed(v, allowed) && Citable(v.work, status)
    {
      CitableIff(Members(a.citations, allowed), status, v);
      MemberIff(a.citations, allowed, v);
    }
    MembershipIsIdentity(cs, allowed);
    CitableIsIdentity(cs, status);
  }

  ghost predicate SameButWarnings(a: Answer, b: Answer) {
    a.(warnings := []) == b.(warnings := [])
  }

  lemma ReconciledTwice(declared: Category, cs: seq<Citation>)
    ensures Reconciled(Reconciled(declared, cs), cs) == Reconciled(declared, cs)
  {
  }

  /** The verdict on an already decided answer is the same, unless it was suppressed for leakage while keeping
      enough citations: that one is graded as grounded the second time. */
  lemma DecidedTwice(a: Answer, p: Policy)
    ensures SameButWarnings(Decided(Decided(a, p), p), Decided(a, p))
            <==> !(Leaks(a, p.mode) && |a.citations| >= p.floor)
  {
    ReconciledTwice(a.category, a.citations);
    TwoOrNot(a.citations);
    assert p.notFound[0] in p.notFound;
  }

  lemma CheckedTwice(a: Answer, allowed: Allowed, p: Policy, status: Membership)
    ensures CitationsChecked(Enforced(a, allowed, p, status), allowed, status) == Enforced(a, allowed, p, status)
  {
    SurvivorsSurvive(a, allowed, status);
    Ungraded(a, allowed, p, status);
    var once := Enforced(a, allowed, p, status);
    assert once.warnings + [] + [] == once.warnings;
  }

  /** Applying the guard again changes nothing but warnings, if and only if the answer was not suppressed
      for leakage while keeping enough citations. */
  lemma SecondTimeIff(a: Answer, allowed: Allowed, p: Policy, status: Membership)
    ensures var once := Enforced(a, allowed, p, status);
            SameButWarnings(Enforced(once, allowed, p, status), once)
            <==> !(Leaks(a, p.mode) && |Survivors(a, allowed, status)| >= p.floor)
  {
    CheckedTwice(a, allowed, p, status);
    DecidedTwice(CitationsChecked(a, allowed, status), p);
  }

  /** A leakage-suppressed answer with enough citations is graded as grounded the second time. */
  lemma SuppressedIsRegraded(a: Answer, allowed: Allowed, p: Policy, status: Membership)
    requires Leaks(a, p.mode) && |Survivors(a, allowed, status)| >= p.floor
    ensures var once := Enforced(a, allowed, p, status);
            && once.insufficient && once.category == Unresolved
            && !Enforced(once, allowed, p, status).insufficient
  {
    CheckedTwice(a, allowed, p, status);
  }

  /** A closed project, an answer that declares itself outside the corpus, and one citation of an allowed work. */
  function LeakingAnswer(): Answer {
    var c := Citation(1, None, None, [], None, None, Deterministic, Unknown);
    Answer(OutsideCorpus, "x", [c], [], [], false, [], ProjectOnly)
  }

  lemma LeakingAnswerKeepsItsCitation(allowed: Allowed)
    requires allowed.works == {1}
    ensures Survivors(LeakingAnswer(), allowed, None) == LeakingAnswer().citations
  {
    var cs := LeakingAnswer().citations;
    assert forall c :: c in cs ==> InAllowed(c, allowed) && Citable(c.work, None);
    MembershipIsIdentity(cs, allowed);
    CitableIsIdentity(cs, None);
  }

  lemma LeakingAnswerIsRegraded(notFound: Message)
    ensures var allowed, p := Allowed({1}, {}, [1]), Policy(ProjectOnly, 1, notFound);
            var once := Enforced(LeakingAnswer(), allowed, p, None);
            once.insufficient && !Enforced(once, allowed, p, None).insufficient
  {
    var allowed, p := Allowed({1}, {}, [1]), Policy(ProjectOnly, 1, notFound);
    LeakingAnswerKeepsItsCitation(allowed);
    SuppressedIsRegraded(LeakingAnswer(), allowed, p, None);
  }
}
