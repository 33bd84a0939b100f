// What the answer says in each case, read off the question's ranked list and setting.
module OutcomeLaws {
  import opened Prelude
  import opened Text
  import opened Lists
  import opened Compose
  import opened Citations
  import opened Guard
  import opened GuardLaws
  import opened AnswerHarness
  import opened AnswerLaws

  // ----- The slice and the floors -----

  /** The candidates kept: with a limit that is not negative the first so many, with a negative one all but that
      many from the end. */
  lemma SliceKeeps(ranked: seq<Candidate>, n: int, i: nat)
    requires i < |ranked|
    ensures var cs := Head(ranked, n);
            && (i < |cs| <==> if n >= 0 then i < n else i < |ranked| + n)
            && (i < |cs| ==> cs[i] == ranked[i])
  {
  }

  /** The question is answered by abstaining exactly if no kept candidate scores above the absent floor. */
  lemma AbstainsIff(ranked: seq<Candidate>, s: Setting)
    ensures Abstains(ranked, s)
            <==> forall i :: 0 <= i < |ranked| && (if s.maxCandidates >= 0 then i < s.maxCandidates
                                                   else i < |ranked| + s.maxCandidates)
                   ==> ranked[i].score <= s.floors.absent
  {
    var cs := Head(ranked, s.maxCandidates);
    forall i | 0 <= i < |ranked|
      ensures i < |cs| <==> if s.maxCandidates >= 0 then i < s.maxCandidates else i < |ranked| + s.maxCandidates
      ensures i < |cs| ==> cs[i] == ranked[i]
    {
      SliceKeeps(ranked, s.maxCandidates, i);
    }
    assert Abstains(ranked, s) <==> forall i :: 0 <= i < |cs| ==> cs[i].score <= s.floors.absent;
    assert |cs| <= |ranked|;
  }

  /** An abstention says nothing, cites nothing, and is marked as resting on too little. */
  lemma AbstentionIs(warnings: seq<Warning>, mode: Mode)
    ensures Abstained(warnings, mode) == Answer(Unresolved, "", [], [], [], true, warnings, mode)
  {
  }

  // ----- The draft -----

  /** The warnings a draft starts with: weak evidence exactly if no kept candidate reaches the weak floor, then
      those of the graph. */
  lemma WarnsOfWeakEvidence(cs: seq<Candidate>, s: Setting)
    ensures (exists i :: 0 <= i < |cs| && cs[i].score >= s.floors.weak) ==> PassedWarnings(cs, s) == s.graphWarnings
    ensures !(exists i :: 0 <= i < |cs| && cs[i].score >= s.floors.weak)
            ==> PassedWarnings(cs, s) == [WeakEvidence] + s.graphWarnings
  {
    if i :| 0 <= i < |cs| && cs[i].score >= s.floors.weak {
      assert cs[i] in cs;
    }
  }

  /** Without a prompt, or after a failed dispatch, the draft has no text, is not marked insufficient, and counts as
      grounded exactly if a citation names a span. It adds the route's reasons, or the failure of the dispatch. */
  lemma WithoutReply(cs: seq<Candidate>, s: Setting, d: Draft)
    requires cs != [] && Drafted(cs, s, d) && (s.route.NoPrompt? || s.reply.Failed?)
    ensures d.answer.text == "" && !d.answer.insufficient && d.answer.mode == RetrievalOnly
    ensures (exists c :: c in d.answer.citations && c.spans != []) ==> d.answer.category == SourceGrounded
    ensures (forall c :: c in d.answer.citations ==> c.spans == []) ==> d.answer.category == Unresolved
    ensures s.route.NoPrompt? ==> d.answer.warnings == PassedWarnings(cs, s) + s.route.reasons && d.shown == []
    ensures s.route.Prompt? ==> d.answer.warnings == PassedWarnings(cs, s) + [s.reply.warning] && d.shown != []
  {
  }

  /** After a reply the draft says what the reply says, and warns of each marker that names no shown block. */
  lemma WithReply(cs: seq<Candidate>, s: Setting, d: Draft)
    requires Drafted(cs, s, d) && s.route.Prompt? && s.reply.Parsed?
    ensures d.answer.category == s.reply.category && d.answer.text == s.reply.text
    ensures d.answer.insufficient == s.reply.insufficient && d.answer.mode == s.mode
    ensures var given := |PassedWarnings(cs, s)|;
            && given <= |d.answer.warnings| && d.answer.warnings[..given] == PassedWarnings(cs, s)
            && forall w :: w in d.answer.warnings[given..]
                 <==> exists m :: m in s.reply.markers && (m == None || m.value < 1 || m.value > |d.shown|) &&
                                  w == InventedMarker(m)
  {
    var shown := cs[..d.cut.value];
    var invented := Invented(s.reply.markers, Index(shown));
    var given := |PassedWarnings(cs, s)|;
    assert d.answer.warnings == PassedWarnings(cs, s) + MarkerWarnings(invented);
    assert d.answer.warnings[given..] == MarkerWarnings(invented);
    forall w
      ensures w in MarkerWarnings(invented) <==> exists m :: m in invented && w == InventedMarker(m)
    {
      WarnedOfEach(invented, w);
    }
    forall m
      ensures m in invented <==> m in s.reply.markers && (m == None || m.value < 1 || m.value > |d.shown|)
    {
      InventedIff(s.reply.markers, shown, m);
    }
  }

  lemma WarnedOfEach(invented: seq<Marker>, w: Warning)
    ensures w in MarkerWarnings(invented) <==> exists m :: m in invented && w == InventedMarker(m)
  {
    if w in MarkerWarnings(invented) {
      var i :| 0 <= i < |invented| && MarkerWarnings(invented)[i] == w;
      assert invented[i] in invented;
    }
    if m :| m in invented && w == InventedMarker(m) {
      var i :| 0 <= i < |invented| && invented[i] == m;
      assert MarkerWarnings(invented)[i] == w;
    }
  }

  lemma {:induction false} InventedIn(markers: seq<Marker>, index: map<int, Evidence>, m: Marker)
    ensures m in Invented(markers, index) <==> m in markers && (m == None || m.value !in index)
  {
    if markers != [] {
      var n := |markers| - 1;
      assert markers == markers[..n] + [markers[n]];
      InventedIn(markers[..n], index, m);
    }
  }

  /** A marker is invented exactly if it is no number, or not the number of a shown block. */
  lemma InventedIff(markers: seq<Marker>, shown: seq<Candidate>, m: Marker)
    ensures m in Invented(markers, Index(shown))
            <==> m in markers && (m == None || m.value < 1 || m.value > |shown|)
  {
    InventedIn(markers, Index(shown), m);
    if m.Some? {
      IndexAt(shown, m.value);
    }
  }

  // ----- The answer -----

  /** An answer without a reply keeps its draft's category and text, whatever is cited. */
  lemma AnswerWithoutReply(ranked: seq<Candidate>, s: Setting, r: Outcome, d: Draft)
    requires FromDraft(ranked, s, r, d) && Head(ranked, s.maxCandidates) != []
    requires s.route.NoPrompt? || s.reply.Failed?
    ensures r.answer.text == "" && !r.answer.insufficient && r.answer.mode == RetrievalOnly
    ensures r.answer.category == d.answer.category
    ensures r.answer.warnings == d.answer.warnings + ExcludedWarnings(d.answer.citations, s.status)
  {
    WithoutReply(Head(ranked, s.maxCandidates), s, d);
    MembershipStepIsIdle(ranked, s, r, d);
    UngradedIsKept(d.answer, d.allowed, Policy(d.answer.mode, s.supportFloor, s.notFound), s.status);
  }

  lemma UngradedIsKept(a: Answer, allowed: Allowed, p: Policy, status: Membership)
    requires p.mode == RetrievalOnly && a.mode == RetrievalOnly
    requires Members(a.citations, allowed) == a.citations && MemberWarnings(a.citations, allowed) == []
    ensures var r := Enforced(a, allowed, p, status);
            && r.text == a.text && r.insufficient == a.insufficient && r.mode == a.mode && r.category == a.category
            && r.warnings == a.warnings + ExcludedWarnings(a.citations, status)
  {
    GuardWarns(a, allowed, p, status);
    ExemptIsKept(a, allowed, p, status);
    assert a.warnings + [] == a.warnings;
  }

  /** An answer with a reply keeps the reply's text exactly if enough citable works are cited, or the reply declares
      itself outside the corpus and the project allows that; otherwise the not-found message or nothing is said. */
  lemma AnswerWithReply(ranked: seq<Candidate>, s: Setting, r: Outcome, d: Draft)
    requires FromDraft(ranked, s, r, d) && s.route.Prompt? && s.reply.Parsed? && s.mode != RetrievalOnly
    ensures var enough := |r.answer.citations| >= s.supportFloor;
            && (s.reply.category == OutsideCorpus && s.mode == AllowOutside
                ==> r.answer.text == s.reply.text && r.answer.category == OutsideCorpus
                    && r.answer.insufficient == s.reply.insufficient)
            && (s.reply.category == OutsideCorpus && s.mode == ProjectOnly
                ==> r.answer.text == "" && r.answer.category == Unresolved && r.answer.insufficient)
            && (s.reply.category != OutsideCorpus && enough
                ==> r.answer.text == s.reply.text && !r.answer.insufficient)
            && (s.reply.category != OutsideCorpus && !enough
                ==> r.answer.text == (if Blank(s.reply.text) then s.reply.text else s.notFound)
                    && r.answer.category == Unresolved && r.answer.insufficient)
  {
    var p := Policy(d.answer.mode, s.supportFloor, s.notFound);
    WithReply(Head(ranked, s.maxCandidates), s, d);
    if Exempt(d.answer, p.mode) && !Leaks(d.answer, p.mode) {
      ExemptIsKept(d.answer, d.allowed, p, s.status);
    } else if Leaks(d.answer, p.mode) {
      ProjectOnlyStaysInside(d.answer, d.allowed, p, s.status);
    } else {
      InsufficientIff(d.answer, d.allowed, p, s.status);
      BannerIff(d.answer, d.allowed, p, s.status);
    }
  }
}
