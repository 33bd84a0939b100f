// answer/guard.py: the checks that have the final say over an answer.
module Guard {
  import opened Prelude
  import opened Text
  import opened Lists
  import opened Compose
  import opened Citations

  datatype Category = SourceGrounded | CorpusSynthesis | ProjectGraphInference | OutsideCorpus | Unresolved

  datatype Mode = ProjectOnly | AllowOutside | RetrievalOnly

  // project_documents.inclusion_status.
  datatype Inclusion = Included | MetadataOnly | NotIncluded

  datatype Warning =
    | WorkNotRetrieved(work: nat) | NoValidSpan(work: nat) | InventedSpan(work: nat) | ExcludedWork(work: nat)
    | OutsideSuppressed | FlagOverridden | ProseSuppressed
    | InventedMarker(marker: Marker) | WeakEvidence | EmptyCorpus | GapFinding | FromGraph(n: nat)
    | Degraded(reason: nat)

  datatype Answer = Answer(
    category: Category, text: string, citations: seq<Citation>, citedWorks: seq<nat>, citedSpans: seq<nat>,
    insufficient: bool, warnings: seq<Warning>, mode: Mode)

  // The text put in place of unsupported prose.
  type Message = s: string | s != "" && !IsSpace(s[0]) witness "-"

  // How the guard is called: the answer mode, the least number of supporting citations, the not-found text.
  datatype Policy = Policy(mode: Mode, floor: int, notFound: Message)

  // ----- Membership -----

  function ValidSpans(spans: seq<nat>, allowed: Allowed): (valid: seq<nat>)
    ensures forall s :: s in valid <==> s in spans && s in allowed.spans
  {
    if spans == [] then []
    else
      var n := |spans| - 1;
      assert spans == spans[..n] + [spans[n]];
      ValidSpans(spans[..n], allowed) + if spans[n] in allowed.spans then [spans[n]] else []
  }

  /** A citation stays if its work is allowed and it does not lose all its spans. */
  predicate Kept(c: Citation, allowed: Allowed) {
    c.work in allowed.works && (c.spans == [] || ValidSpans(c.spans, allowed) != [])
  }

  function Stripped(c: Citation, allowed: Allowed): Citation {
    c.(spans := ValidSpans(c.spans, allowed))
  }

  function Members(cs: seq<Citation>, allowed: Allowed): seq<Citation> {
    if cs == [] then []
    else
      var c := cs[|cs| - 1];
      Members(cs[..|cs| - 1], allowed) + if Kept(c, allowed) then [Stripped(c, allowed)] else []
  }

  function MemberWarning(c: Citation, allowed: Allowed): seq<Warning> {
    var valid := ValidSpans(c.spans, allowed);
    if c.work !in allowed.works then [WorkNotRetrieved(c.work)]
    else if c.spans != [] && valid == [] then [NoValidSpan(c.work)]
    else if |valid| != |c.spans| then [InventedSpan(c.work)]
    else []
  }

  function MemberWarnings(cs: seq<Citation>, allowed: Allowed): seq<Warning> {
    if cs == [] then [] else MemberWarnings(cs[..|cs| - 1], allowed) + MemberWarning(cs[|cs| - 1], allowed)
  }

  // ----- Inclusion -----

  // The inclusion status of each work with a membership row; missing without a connection.
  type Membership = Option<map<nat, Inclusion>>

  predicate Citable(work: nat, status: Membership) {
    status.Some? ==> work in status.value && status.value[work] != NotIncluded
  }

  function CitableOnly(cs: seq<Citation>, status: Membership): seq<Citation> {
    if cs == [] then []
    else
      var c := cs[|cs| - 1];
      CitableOnly(cs[..|cs| - 1], status) + if Citable(c.work, status) then [c] else []
  }

  function ExcludedWarnings(cs: seq<Citation>, status: Membership): seq<Warning> {
    if cs == [] then []
    else
      var c := cs[|cs| - 1];
      ExcludedWarnings(cs[..|cs| - 1], status) + if Citable(c.work, status) then [] else [ExcludedWork(c.work)]
  }

  // ----- The cited ids -----

  function CitedWorkList(cs: seq<Citation>): seq<nat> {
    if cs == [] then [] else CitedWorkList(cs[..|cs| - 1]) + [cs[|cs| - 1].work]
  }

  function CitedSpanList(cs: seq<Citation>): seq<nat> {
    if cs == [] then [] else CitedSpanList(cs[..|cs| - 1]) + cs[|cs| - 1].spans
  }

  function WithIds(a: Answer): Answer {
    a.(citedWorks := NewOnes(CitedWorkList(a.citations), []), citedSpans := NewOnes(CitedSpanList(a.citations), []))
  }

  // ----- The category from the evidence -----

  /** Spans of two different works support the answer. */
  predicate TwoWorks(cs: seq<Citation>) {
    exists i, j :: 0 <= i < j < |cs| && cs[i].spans != [] && cs[j].spans != [] && cs[i].work != cs[j].work
  }

  predicate AnySpans(cs: seq<Citation>) {
    exists c :: c in cs && c.spans != []
  }

  predicate AnyStated(cs: seq<Citation>) {
    exists c :: c in cs && c.spans != [] && c.assertion == Stated
  }

  function Reconciled(declared: Category, cs: seq<Citation>): Category {
    if AnySpans(cs) then
      if TwoWorks(cs) && !AnyStated(cs) then CorpusSynthesis else SourceGrounded
    else if cs != [] then ProjectGraphInference
    else declared
  }

  // ----- The whole guard -----

  predicate Leaks(a: Answer, mode: Mode) {
    mode == ProjectOnly && a.category == OutsideCorpus
  }

  function Survivors(a: Answer, allowed: Allowed, status: Membership): seq<Citation> {
    CitableOnly(Members(a.citations, allowed), status)
  }

  function CitationsChecked(a: Answer, allowed: Allowed, status: Membership): Answer {
    var members := Members(a.citations, allowed);
    WithIds(a.(citations := CitableOnly(members, status),
               warnings := a.warnings + MemberWarnings(a.citations, allowed) + ExcludedWarnings(members, status)))
  }

  function LeakSuppressed(a: Answer): Answer {
    a.(category := Unresolved, insufficient := true, text := "", warnings := a.warnings + [OutsideSuppressed])
  }

  function Graded(a: Answer, p: Policy): Answer {
    if |a.citations| >= p.floor then
      a.(insufficient := false, category := Reconciled(a.category, a.citations),
         warnings := if a.insufficient then a.warnings + [FlagOverridden] else a.warnings)
    else
      var b := a.(insufficient := true, category := Unresolved);
      if Blank(a.text) then b else b.(text := p.notFound, warnings := a.warnings + [ProseSuppressed])
  }

  /** The verdict on an answer whose citations have been checked. */
  function Decided(a: Answer, p: Policy): Answer {
    if Leaks(a, p.mode) then LeakSuppressed(a)
    else if p.mode == RetrievalOnly || a.category == OutsideCorpus then a
    else Graded(a, p)
  }

  function Enforced(a: Answer, allowed: Allowed, p: Policy, status: Membership): Answer {
    Decided(CitationsChecked(a, allowed, status), p)
  }

  // ----- The envelope and its methods -----

  class Envelope {
    var category: Category
    var text: string
    var citations: seq<Citation>
    var citedWorks: seq<nat>
    var citedSpans: seq<nat>
    var insufficient: bool
    var warnings: seq<Warning>
    var mode: Mode

    ghost function Value(): Answer
      reads this
    {
      Answer(category, text, citations, citedWorks, citedSpans, insufficient, warnings, mode)
    }

    constructor (a: Answer)
      ensures Value() == a
    {
      category, text, citations, citedWorks := a.category, a.text, a.citations, a.citedWorks;
      citedSpans, insufficient, warnings, mode := a.citedSpans, a.insufficient, a.warnings, a.mode;
    }

    method RecomputeCitedIds()
      modifies this`citedWorks, this`citedSpans
      ensures Value() == WithIds(old(Value()))
    {
      var cs := citations;
      var works: seq<nat>, spans: seq<nat> := [], [];
      for i := 0 to |cs|
        invariant works == NewOnes(CitedWorkList(cs[..i]), [])
        invariant spans == NewOnes(CitedSpanList(cs[..i]), [])
      {
        IdsNext(cs, i);
        works := if cs[i].work in works then works else works + [cs[i].work];
        spans := AddSpans(spans, cs[i].spans);
      }
      assert cs[..|cs|] == cs;
      citedWorks, citedSpans := works, spans;
    }

    /** The category the gathered support allows; without citations the declared one stands. */
    method Reconcile()
      modifies this`category
      ensures Value() == old(Value()).(category := Reconciled(old(category), citations))
    {
      var works, stated := GatherSupport(citations);
      SupportMeans(citations);
      if works != {} {
        category := if |works| >= 2 && !stated then CorpusSynthesis else SourceGrounded;
      } else if citations != [] {
        category := ProjectGraphInference;
      }
    }

    /** Drops what may not be cited from the citations, with a warning each; spans are stripped in place. */
    method KeepMembers(allowed: Allowed)
      modifies this`citations, this`warnings
      ensures Value() == old(Value()).(
                citations := Members(old(citations), allowed),
                warnings := old(warnings) + MemberWarnings(old(citations), allowed))
    {
      var cs, before := citations, warnings;
      var survivors: seq<Citation>, warned: seq<Warning> := [], before;
      for i := 0 to |cs|
        invariant survivors == Members(cs[..i], allowed)
        invariant warned == before + MemberWarnings(cs[..i], allowed)
      {
        MembersNext(cs, allowed, i, before);
        var c := cs[i];
        warned := warned + MemberWarning(c, allowed);
        if Kept(c, allowed) {
          survivors := survivors + [Stripped(c, allowed)];
        }
      }
      assert cs[..|cs|] == cs;
      citations, warnings := survivors, warned;
    }

    method DropExcluded(status: Membership)
      modifies this`citations, this`warnings
      ensures Value() == old(Value()).(
                citations := CitableOnly(old(citations), status),
                warnings := old(warnings) + ExcludedWarnings(old(citations), status))
    {
      var cs, before := citations, warnings;
      var kept: seq<Citation>, warned: seq<Warning> := [], before;
      for i := 0 to |cs|
        invariant kept == CitableOnly(cs[..i], status)
        invariant warned == before + ExcludedWarnings(cs[..i], status)
      {
        CitableNext(cs, status, i, before);
        var c := cs[i];
        if Citable(c.work, status) {
          kept := kept + [c];
        } else {
          warned := warned + [ExcludedWork(c.work)];
        }
      }
      assert cs[..|cs|] == cs;
      citations, warnings := kept, warned;
    }

    method Enforce(allowed: Allowed, p: Policy, status: Membership)
      modifies this
      ensures Value() == Enforced(old(Value()), allowed, p, status)
    {
      KeepMembers(allowed);
      DropExcluded(status);
      RecomputeCitedIds();
      ghost var checked := Value();
      assert checked == CitationsChecked(old(Value()), allowed, status);
      if p.mode == ProjectOnly && category == OutsideCorpus {
        category, insufficient, text := Unresolved, true, "";
        warnings := warnings + [OutsideSuppressed];
      } else if p.mode != RetrievalOnly && category != OutsideCorpus {
        if |citations| >= p.floor {
          if insufficient {
            warnings := warnings + [FlagOverridden];
          }
          insufficient := false;
          Reconcile();
        } else {
          insufficient, category := true, Unresolved;
          if !Blank(text) {
            text := p.notFound;
            warnings := warnings + [ProseSuppressed];
          }
        }
      }
    }
  }

  /** The works of the citations that carry spans. */
  function SupportingWorks(cs: seq<Citation>): set<nat> {
    set c | c in cs && c.spans != [] :: c.work
  }

  /** The works with supporting spans, and whether one of these citations states its claim. */
  method GatherSupport(cs: seq<Citation>) returns (works: set<nat>, stated: bool)
    ensures works == SupportingWorks(cs) && stated == AnyStated(cs)
  {
    works, stated := {}, false;
    for i := 0 to |cs|
      invariant works == SupportingWorks(cs[..i]) && stated == AnyStated(cs[..i])
    {
      SupportNext(cs, i);
      if cs[i].spans != [] {
        works := works + {cs[i].work};
        stated := stated || cs[i].assertion == Stated;
      }
    }
    assert cs[..|cs|] == cs;
  }

  lemma SupportNext(cs: seq<Citation>, i: nat)
    requires i < |cs|
    ensures var works := SupportingWorks(cs[..i]);
            SupportingWorks(cs[..i + 1]) == if cs[i].spans != [] then works + {cs[i].work} else works
    ensures AnyStated(cs[..i + 1]) <==> AnyStated(cs[..i]) || (cs[i].spans != [] && cs[i].assertion == Stated)
  {
    assert cs[..i + 1] == cs[..i] + [cs[i]];
    forall c
      ensures c in cs[..i + 1] <==> c in cs[..i] || c == cs[i]
    {
    }
  }

  lemma TwoElements(s: set<nat>)
    ensures |s| >= 2 <==> exists a, b :: a in s && b in s && a != b
  {
    if |s| >= 2 {
      var a :| a in s;
      assert |s - {a}| >= 1;
      var b :| b in s - {a};
    }
    if a, b :| a in s && b in s && a != b {
      assert s == {a, b} + (s - {a, b});
      assert |s| == 2 + |s - {a, b}|;
    }
  }

  /** The gathered works say whether there is support, and support of two works. */
  lemma SupportMeans(cs: seq<Citation>)
    ensures SupportingWorks(cs) != {} <==> AnySpans(cs)
    ensures |SupportingWorks(cs)| >= 2 <==> TwoWorks(cs)
  {
    var works := SupportingWorks(cs);
    TwoElements(works);
    if AnySpans(cs) {
      var c :| c in cs && c.spans != [];
      assert c.work in works;
    }
    if TwoWorks(cs) {
      var i, j :| 0 <= i < j < |cs| && cs[i].spans != [] && cs[j].spans != [] && cs[i].work != cs[j].work;
      assert cs[i].work in works && cs[j].work in works;
    }
    if a, b :| a in works && b in works && a != b {
      SupportedBy(cs, a);
      SupportedBy(cs, b);
    }
  }

  lemma SupportedBy(cs: seq<Citation>, work: nat)
    requires work in SupportingWorks(cs)
    ensures exists i :: 0 <= i < |cs| && cs[i].spans != [] && cs[i].work == work
  {
    var c :| c in cs && c.spans != [] && c.work == work;
    var i :| 0 <= i < |cs| && cs[i] == c;
  }

  lemma IdsNext(cs: seq<Citation>, i: nat)
    requires i < |cs|
    ensures NewOnes(CitedWorkList(cs[..i + 1]), [])
            == var works, work := NewOnes(CitedWorkList(cs[..i]), []), cs[i].work;
               if work in works then works else works + [work]
    ensures NewOnes(CitedSpanList(cs[..i + 1]), []) == AddSpans(NewOnes(CitedSpanList(cs[..i]), []), cs[i].spans)
  {
    assert cs[..i + 1][..i] == cs[..i];
    NewOnesStep(CitedWorkList(cs[..i]), cs[i].work, []);
    NewOnesJoin(CitedSpanList(cs[..i]), cs[i].spans);
  }

  lemma MembersNext(cs: seq<Citation>, allowed: Allowed, i: nat, before: seq<Warning>)
    requires i < |cs|
    ensures Members(cs[..i + 1], allowed)
            == var m := Members(cs[..i], allowed); if Kept(cs[i], allowed) then m + [Stripped(cs[i], allowed)] else m
    ensures before + MemberWarnings(cs[..i + 1], allowed)
            == before + MemberWarnings(cs[..i], allowed) + MemberWarning(cs[i], allowed)
  {
    assert cs[..i + 1][..i] == cs[..i];
  }

  lemma CitableNext(cs: seq<Citation>, status: Membership, i: nat, before: seq<Warning>)
    requires i < |cs|
    ensures CitableOnly(cs[..i + 1], status)
            == var m := CitableOnly(cs[..i], status); if Citable(cs[i].work, status) then m + [cs[i]] else m
    ensures before + ExcludedWarnings(cs[..i + 1], status)
            == var w := before + ExcludedWarnings(cs[..i], status);
               if Citable(cs[i].work, status) then w else w + [ExcludedWork(cs[i].work)]
  {
    assert cs[..i + 1][..i] == cs[..i];
  }
}
