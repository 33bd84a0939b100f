// answer/harness.py and the order of steps in compose.generate: from a ranked list to a guarded answer and its trace.
module AnswerHarness {
  import opened Prelude
  import opened Compose
  import opened Citations
  import opened Guard

  // ----- Python slices of a list from its start -----

  /** s[:n]; a negative bound counts from the end. */
  function Head<T>(s: seq<T>, n: int): (h: seq<T>)
    ensures h <= s
    ensures 0 <= n <= |s| ==> |h| == n
    ensures n > |s| ==> h == s
  {
    if n > |s| then s else if n >= 0 then s[..n] else if |s| + n > 0 then s[..|s| + n] else []
  }

  // ----- Trace dispositions -----

  datatype Disposition = WasShown | CutBudget | CutRank

  /** What became of the candidate at `position`, counted from one. `cut` is missing if no prompt was built. */
  function DispositionAt(position: nat, cut: Option<nat>, maxCandidates: int): Disposition {
    if position > maxCandidates then CutRank
    else if cut.Some? && position > cut.value then CutBudget
    else WasShown
  }

  method TraceCandidates(ranked: seq<Candidate>, cut: Option<nat>, maxCandidates: int) returns (trace: seq<Disposition>)
    ensures |trace| == |ranked|
    ensures forall i :: 0 <= i < |ranked| ==> trace[i] == DispositionAt(i + 1, cut, maxCandidates)
  {
    trace := [];
    for i := 0 to |ranked|
      invariant |trace| == i
      invariant forall j :: 0 <= j < i ==> trace[j] == DispositionAt(j + 1, cut, maxCandidates)
    {
      trace := trace + [DispositionAt(i + 1, cut, maxCandidates)];
    }
  }

  // ----- compose.generate -----

  // What the route, the access gate and the pricing gate decided: no prompt, or a prompt within limits.
  datatype Route = NoPrompt(reasons: seq<Warning>) | Prompt(limits: Limits)

  // What came back: a failed dispatch, or the parsed reply.
  datatype Reply =
    | Failed(warning: Warning)
    | Parsed(category: Category, text: string, insufficient: bool, markers: seq<Marker>)

  // The envelope before the guard, what may be cited, and what the prompt showed.
  datatype Draft = Draft(answer: Answer, allowed: Allowed, cut: Option<nat>, shown: seq<Shown>)

  function Fresh(
      category: Category, text: string, cites: seq<Citation>, insufficient: bool, warnings: seq<Warning>, mode: Mode):
    Answer
  {
    WithIds(Answer(category, text, cites, [], [], insufficient, warnings, mode))
  }

  /** The envelope without a model: every candidate is cited. */
  function RetrievalOnlyAnswer(cites: seq<Citation>, warnings: seq<Warning>): Answer {
    Fresh(if AnySpans(cites) then SourceGrounded else Unresolved, "", cites, false, warnings, RetrievalOnly)
  }

  method RetrievalOnlyDraft(
      cs: seq<Candidate>, details: Details, warnings: seq<Warning>, cut: Option<nat>, shown: seq<Shown>)
    returns (d: Draft)
    ensures var a := RetrievalOnlyAnswer(Cited(EvidenceIn(cs), details, FirstProvenances(cs)), warnings);
            d == Draft(a, AllowedFrom(cs), cut, shown)
  {
    var cites := CiteAll(cs, details);
    d := Draft(RetrievalOnlyAnswer(cites, warnings), AllowedFrom(cs), cut, shown);
  }

  function MarkerWarnings(markers: seq<Marker>): seq<Warning> {
    seq(|markers|, i requires 0 <= i < |markers| => InventedMarker(markers[i]))
  }

  /** Without a prompt or after a failed dispatch every candidate is cited, and may be. */
  ghost predicate CitesAll(cs: seq<Candidate>, details: Details, warnings: seq<Warning>, d: Draft) {
    && d.answer == RetrievalOnlyAnswer(Cited(EvidenceIn(cs), details, FirstProvenances(cs)), warnings)
    && d.allowed == AllowedFrom(cs)
  }

  /** The answer of a model that saw `shown`: its markers are looked up among the shown blocks. */
  ghost function RepliedAnswer(
      shown: seq<Candidate>, reply: Reply, details: Details, mode: Mode, warnings: seq<Warning>): Answer
    requires reply.Parsed?
  {
    Fresh(reply.category, reply.text, Cited(Named(reply.markers, Index(shown)), details, map[]), reply.insufficient,
          warnings + MarkerWarnings(Invented(reply.markers, Index(shown))), mode)
  }

  /** After a reply the shown prefix is cited through its markers, and only that may be cited. */
  ghost predicate CitesShown(
      cs: seq<Candidate>, reply: Reply, details: Details, mode: Mode, warnings: seq<Warning>, d: Draft)
  {
    && reply.Parsed? && d.cut.Some? && d.cut.value <= |cs|
    && d.answer == RepliedAnswer(cs[..d.cut.value], reply, details, mode, warnings)
    && d.allowed == AllowedFrom(cs[..d.cut.value])
  }

  /** The warnings of a draft without a reply: why there was none. */
  function DegradeReasons(cs: seq<Candidate>, route: Route, reply: Reply, budgetExceeded: Warning): seq<Warning> {
    if route.NoPrompt? then route.reasons
    else if cs == [] then [budgetExceeded]
    else if reply.Failed? then [reply.warning]
    else []
  }

  /** The trace of the draft: no cut without a prompt, else the longest affordable prefix was shown. */
  ghost predicate TracesPrompt(cs: seq<Candidate>, route: Route, d: Draft) {
    if route.NoPrompt? || cs == [] then d.cut == None && d.shown == []
    else
      && d.cut.Some? && LongestAffordable(cs, route.limits, d.cut.value) && d.cut.value >= 1
      && AreBlocks(cs[..d.cut.value], route.limits, d.shown)
  }

  method Generate(
      cs: seq<Candidate>, route: Route, reply: Reply, details: Details, mode: Mode, warnings: seq<Warning>,
      budgetExceeded: Warning)
    returns (d: Draft)
    ensures TracesPrompt(cs, route, d)
    ensures route.NoPrompt? || cs == [] || reply.Failed?
            ==> CitesAll(cs, details, warnings + DegradeReasons(cs, route, reply, budgetExceeded), d)
    ensures route.Prompt? && cs != [] && reply.Parsed? ==> CitesShown(cs, reply, details, mode, warnings, d)
  {
    if route.NoPrompt? {
      d := RetrievalOnlyDraft(cs, details, warnings + route.reasons, None, []);
      return;
    }
    var index, allowed, shown, cut := BuildPrompt(cs, route.limits);
    assert cs != [] ==> Affordable(cs, route.limits, 1) && cut >= 1;
    IndexAt(cs[..cut], 1);
    if index == map[] {
      d := RetrievalOnlyDraft(cs, details, warnings + [budgetExceeded], None, []);
      return;
    }
    if reply.Failed? {
      d := RetrievalOnlyDraft(cs, details, warnings + [reply.warning], Some(cut), shown);
      return;
    }
    var cites, invented := MaterializeCitations(reply.markers, index, details);
    var a := Fresh(reply.category, reply.text, cites, reply.insufficient, warnings + MarkerWarnings(invented), mode);
    d := Draft(a, allowed, Some(cut), shown);
  }

  // ----- answer(): slice, short circuit, compose, guard, trace -----

  datatype Floors = Floors(weak: real, absent: real)

  predicate AllAtMost(cs: seq<Candidate>, bound: real) {
    forall c :: c in cs ==> c.score <= bound
  }

  function WeakWarnings(cs: seq<Candidate>, floors: Floors): seq<Warning> {
    if exists c :: c in cs && c.score >= floors.weak then [] else [WeakEvidence]
  }

  /** short_circuit_if_empty: nothing scores above the absent floor. */
  method ShortCircuit(cs: seq<Candidate>, floors: Floors) returns (stop: bool, warnings: seq<Warning>)
    ensures stop <==> AllAtMost(cs, floors.absent)
    ensures stop ==> warnings == [EmptyCorpus]
    ensures !stop ==> warnings == WeakWarnings(cs, floors)
  {
    if cs == [] {
      return true, [EmptyCorpus];
    }
    var top := cs[0].score;
    for i := 0 to |cs|
      invariant exists c :: c in cs && c.score == top
      invariant forall j :: 0 <= j < i ==> cs[j].score <= top
    {
      if cs[i].score > top {
        top := cs[i].score;
      }
    }
    if top <= floors.absent {
      return true, [EmptyCorpus];
    }
    return false, if top < floors.weak then [WeakEvidence] else [];
  }

  datatype Outcome = Outcome(answer: Answer, trace: seq<Disposition>, cut: Option<nat>, shown: seq<Shown>)

  // Everything the run depends on besides the ranked list. A gap-finding question is answered by recommendations
  // alone; a citation search brings warnings from the graph.
  datatype Setting = Setting(
    gapFinding: bool, graphWarnings: seq<Warning>, maxCandidates: int, floors: Floors, route: Route, reply: Reply,
    details: Details, mode: Mode, supportFloor: int, notFound: Message, status: Membership, budgetExceeded: Warning)

  /** The envelope without prose, citations or a call to a model. */
  function Abstained(warnings: seq<Warning>, mode: Mode): Answer {
    Fresh(Unresolved, "", [], true, warnings, mode)
  }

  function PassedWarnings(cs: seq<Candidate>, s: Setting): seq<Warning> {
    WeakWarnings(cs, s.floors) + s.graphWarnings
  }

  /** An empty or too weak evidence set is answered by abstaining: nothing cited, nothing sent to a model. */
  predicate Abstains(ranked: seq<Candidate>, s: Setting) {
    AllAtMost(Head(ranked, s.maxCandidates), s.floors.absent)
  }

  ghost predicate Traced(ranked: seq<Candidate>, s: Setting, r: Outcome) {
    && |r.trace| == |ranked|
    && forall i :: 0 <= i < |ranked| ==> r.trace[i] == DispositionAt(i + 1, r.cut, s.maxCandidates)
  }

  /** What compose hands to the guard for the sliced candidates. */
  ghost predicate Drafted(cs: seq<Candidate>, s: Setting, d: Draft) {
    && TracesPrompt(cs, s.route, d)
    && if s.route.NoPrompt? || s.reply.Failed? then
         CitesAll(cs, s.details, PassedWarnings(cs, s) + DegradeReasons(cs, s.route, s.reply, s.budgetExceeded), d)
       else
         CitesShown(cs, s.reply, s.details, s.mode, PassedWarnings(cs, s), d)
  }

  /** The answer is the guarded form of the draft, and the outcome reports the draft's prompt. */
  ghost predicate Guarded(s: Setting, r: Outcome, d: Draft) {
    && r.answer == Enforced(d.answer, d.allowed, Policy(d.answer.mode, s.supportFloor, s.notFound), s.status)
    && r.cut == d.cut && r.shown == d.shown
  }

  ghost predicate FromDraft(ranked: seq<Candidate>, s: Setting, r: Outcome, d: Draft) {
    Guarded(s, r, d) && Drafted(Head(ranked, s.maxCandidates), s, d)
  }

  method AnswerQuestion(ranked: seq<Candidate>, s: Setting) returns (r: Outcome)
    ensures s.gapFinding ==> r == Outcome(Abstained([GapFinding], s.mode), [], None, [])
    ensures !s.gapFinding ==> Traced(ranked, s, r)
    ensures !s.gapFinding && Abstains(ranked, s)
            ==> r.answer == Abstained([EmptyCorpus] + s.graphWarnings, s.mode) && r.cut == None && r.shown == []
    ensures !s.gapFinding && !Abstains(ranked, s) ==> exists d :: FromDraft(ranked, s, r, d)
  {
    if s.gapFinding {
      return Outcome(Abstained([GapFinding], s.mode), [], None, []);
    }
    var cs := Head(ranked, s.maxCandidates);
    var stop, warnings := ShortCircuit(cs, s.floors);
    if stop {
      var trace := TraceCandidates(ranked, None, s.maxCandidates);
      return Outcome(Abstained(warnings + s.graphWarnings, s.mode), trace, None, []);
    }
    var d := Generate(cs, s.route, s.reply, s.details, s.mode, warnings + s.graphWarnings, s.budgetExceeded);
    var envelope := new Envelope(d.answer);
    envelope.Enforce(d.allowed, Policy(d.answer.mode, s.supportFloor, s.notFound), s.status);
    var a := Answer(
      envelope.category, envelope.text, envelope.citations, envelope.citedWorks, envelope.citedSpans,
      envelope.insufficient, envelope.warnings, envelope.mode);
    var trace := TraceCandidates(ranked, d.cut, s.maxCandidates);
    r := Outcome(a, trace, d.cut, d.shown);
    assert FromDraft(ranked, s, r, d);
  }
}
