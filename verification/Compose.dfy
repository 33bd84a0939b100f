// answer/compose.py: the token-budgeted prompt, and citations built from the markers a model returns.
module Compose {
  import opened Prelude
  import opened Lists

  datatype Assertion = Stated | Inferred | Unknown

  // The epistemic type of a claim.
  datatype Epistemic = Deterministic | OtherType(n: nat)

  // A retrieved row. `span` is missing for rows that are not verbatim evidence; `workText` is the work id as text.
  datatype Item = Item(
    itemId: nat, work: nat, workText: string, span: Option<nat>, section: string, text: string,
    epistemic: Option<Epistemic>, assertion: Assertion)

  datatype Candidate = Candidate(item: Item, score: real)

  datatype Limits = Limits(maxEvidence: int, window: Option<int>, maxChars: nat, overhead: int, reserved: int)

  datatype Evidence = Evidence(work: nat, spans: seq<nat>)

  datatype Shown = Shown(n: nat, item: Item, quote: string, tokens: nat, truncated: bool)

  // What may be cited: the sets the guard checks, and the same ids in shown order.
  datatype Allowed = Allowed(works: set<nat>, spans: set<nat>, retrieved: seq<nat>)

  // ----- Rendering a block -----

  /** The bounded fragment of the evidence text that may enter a prompt. */
  function Quote(text: string, maxChars: nat): (q: string)
    ensures |text| <= maxChars ==> q == text
    ensures |text| > maxChars ==> |q| == maxChars + 1 && q[..maxChars] == text[..maxChars]
  {
    if |text| > maxChars then text[..maxChars] + "\U{2026}" else text
  }

  function Decimal(n: nat): string {
    if n < 10 then [('0' as int + n) as char] else Decimal(n / 10) + [('0' as int + n % 10) as char]
  }

  /** The block as it stands in the prompt. */
  function Rendered(n: nat, item: Item, maxChars: nat): string {
    var section := if item.section != "" then ", section=" + item.section else "";
    "[E" + Decimal(n) + "] (work=" + item.workText + section + ")\n<<<EVIDENCE\n" + Quote(item.text, maxChars)
    + "\nEVIDENCE>>>"
  }

  /** estimate_tokens: four characters a token, at least one. */
  function Tokens(text: string): (t: nat)
    ensures t >= 1
  {
    if |text| / 4 < 1 then 1 else |text| / 4
  }

  function Block(n: nat, item: Item, l: Limits): Shown {
    Shown(n, item, Quote(item.text, l.maxChars), Tokens(Rendered(n, item, l.maxChars)), |item.text| > l.maxChars)
  }

  // ----- The budget -----

  function Min(a: int, b: int): int {
    if a < b then a else b
  }

  /** The tokens the evidence may take. */
  function Cap(l: Limits): nat {
    var cap := if l.window.Some? then Min(l.maxEvidence, l.window.value - l.overhead - l.reserved) else l.maxEvidence;
    if cap < 1 then 1 else cap
  }

  /** The tokens of the first `k` candidates as blocks 1 to `k`. */
  function Total(cs: seq<Candidate>, l: Limits, k: nat): nat
    requires k <= |cs|
  {
    if k == 0 then 0 else Total(cs, l, k - 1) + Block(k, cs[k - 1].item, l).tokens
  }

  /** The first candidate is always shown; more only within the budget. */
  predicate Affordable(cs: seq<Candidate>, l: Limits, k: nat)
    requires k <= |cs|
  {
    k <= 1 || Total(cs, l, k) <= Cap(l)
  }

  /** `cut` is the length of the longest affordable prefix, and every shorter prefix is affordable too. */
  ghost predicate LongestAffordable(cs: seq<Candidate>, l: Limits, cut: nat) {
    cut <= |cs| && forall k: nat :: k <= |cs| ==> (Affordable(cs, l, k) <==> k <= cut)
  }

  lemma {:induction false} TotalGrows(cs: seq<Candidate>, l: Limits, j: nat, k: nat)
    requires j <= k <= |cs|
    ensures Total(cs, l, j) <= Total(cs, l, k)
  {
    if j < k {
      TotalGrows(cs, l, j, k - 1);
    }
  }

  lemma CutIsLongest(cs: seq<Candidate>, l: Limits, cut: nat)
    requires cut <= |cs| && Affordable(cs, l, cut)
    requires cut < |cs| ==> !Affordable(cs, l, cut + 1)
    ensures LongestAffordable(cs, l, cut)
  {
    forall k: nat | k <= |cs|
      ensures Affordable(cs, l, k) <==> k <= cut
    {
      if k <= cut {
        TotalGrows(cs, l, k, cut);
      } else {
        TotalGrows(cs, l, cut + 1, k);
      }
    }
  }

  // ----- What is shown is what may be cited -----

  function SpansOf(item: Item): seq<nat> {
    if item.span.Some? then [item.span.value] else []
  }

  function EvidenceOf(item: Item): Evidence {
    Evidence(item.work, SpansOf(item))
  }

  function WorksIn(cs: seq<Candidate>): seq<nat> {
    if cs == [] then [] else WorksIn(cs[..|cs| - 1]) + [cs[|cs| - 1].item.work]
  }

  function SpansIn(cs: seq<Candidate>): seq<nat> {
    if cs == [] then [] else SpansIn(cs[..|cs| - 1]) + SpansOf(cs[|cs| - 1].item)
  }

  /** Exactly the works and spans of the candidates. */
  function AllowedFrom(cs: seq<Candidate>): Allowed {
    Allowed(Elements(WorksIn(cs)), Elements(SpansIn(cs)), NewOnes(WorksIn(cs), []) + NewOnes(SpansIn(cs), []))
  }

  /** The candidates by block number, counted from one. */
  ghost function Index(cs: seq<Candidate>): map<int, Evidence> {
    if cs == [] then map[] else Index(cs[..|cs| - 1])[|cs| := EvidenceOf(cs[|cs| - 1].item)]
  }

  lemma {:induction false} IndexAt(cs: seq<Candidate>, n: int)
    ensures n in Index(cs) <==> 1 <= n <= |cs|
    ensures 1 <= n <= |cs| ==> Index(cs)[n] == EvidenceOf(cs[n - 1].item)
  {
    if cs != [] {
      IndexAt(cs[..|cs| - 1], n);
    }
  }

  ghost predicate AreBlocks(cs: seq<Candidate>, l: Limits, shown: seq<Shown>) {
    |shown| == |cs| && forall i :: 0 <= i < |cs| ==> shown[i] == Block(i + 1, cs[i].item, l)
  }

  method BuildPrompt(cs: seq<Candidate>, l: Limits)
    returns (index: map<int, Evidence>, allowed: Allowed, shown: seq<Shown>, cut: nat)
    ensures LongestAffordable(cs, l, cut)
    ensures AreBlocks(cs[..cut], l, shown)
    ensures index == Index(cs[..cut]) && allowed == AllowedFrom(cs[..cut])
  {
    index, shown, cut := map[], [], 0;
    var works: seq<nat>, spans: seq<nat>, running: nat := [], [], 0;
    while cut < |cs|
      invariant cut <= |cs| && Taken(cs, l, cut, running, shown)
      invariant index == Index(cs[..cut]) && Listed(cs[..cut], works, spans)
    {
      var item := cs[cut].item;
      var block := Block(cut + 1, item, l);
      if shown != [] && running + block.tokens > Cap(l) {
        StopHere(cs, l, cut, running, shown);
        break;
      }
      TakeNext(cs, l, cut, running, shown);
      NextIds(cs, cut, works, spans);
      running := running + block.tokens;
      shown := shown + [block];
      index := index[cut + 1 := EvidenceOf(item)];
      works := if item.work in works then works else works + [item.work];
      spans := AddSpans(spans, SpansOf(item));
      cut := cut + 1;
    }
    if cut == |cs| {
      CutIsLongest(cs, l, cut);
    }
    AllowedAsLists(cs[..cut], works, spans);
    allowed := Allowed(Elements(works), Elements(spans), works + spans);
  }

  /** The first `k` candidates are shown and fit. */
  ghost predicate Taken(cs: seq<Candidate>, l: Limits, k: nat, running: nat, shown: seq<Shown>)
    requires k <= |cs|
  {
    running == Total(cs, l, k) && Affordable(cs, l, k) && AreBlocks(cs[..k], l, shown)
  }

  lemma StopHere(cs: seq<Candidate>, l: Limits, k: nat, running: nat, shown: seq<Shown>)
    requires k < |cs| && Taken(cs, l, k, running, shown)
    requires shown != [] && running + Block(k + 1, cs[k].item, l).tokens > Cap(l)
    ensures LongestAffordable(cs, l, k)
  {
    assert |shown| == k;
    CutIsLongest(cs, l, k);
  }

  lemma TakeNext(cs: seq<Candidate>, l: Limits, k: nat, running: nat, shown: seq<Shown>)
    requires k < |cs| && Taken(cs, l, k, running, shown)
    requires shown == [] || running + Block(k + 1, cs[k].item, l).tokens <= Cap(l)
    ensures var block := Block(k + 1, cs[k].item, l);
            Taken(cs, l, k + 1, running + block.tokens, shown + [block])
    ensures Index(cs[..k + 1]) == Index(cs[..k])[k + 1 := EvidenceOf(cs[k].item)]
  {
    NextShown(cs, l, k, shown);
    assert |shown| == k;
  }

  /** The works and spans of the candidates, each at its first mention. */
  ghost predicate Listed(cs: seq<Candidate>, works: seq<nat>, spans: seq<nat>) {
    works == NewOnes(WorksIn(cs), []) && spans == NewOnes(SpansIn(cs), [])
  }

  function AddSpans(spans: seq<nat>, more: seq<nat>): seq<nat> {
    spans + NewOnes(more, spans)
  }

  lemma NextShown(cs: seq<Candidate>, l: Limits, k: nat, shown: seq<Shown>)
    requires k < |cs| && AreBlocks(cs[..k], l, shown)
    ensures AreBlocks(cs[..k + 1], l, shown + [Block(k + 1, cs[k].item, l)])
    ensures Index(cs[..k + 1]) == Index(cs[..k])[k + 1 := EvidenceOf(cs[k].item)]
  {
    assert cs[..k + 1][..k] == cs[..k];
  }

  lemma {:induction false} NewOnesJoin(s: seq<nat>, t: seq<nat>)
    ensures NewOnes(s + t, []) == NewOnes(s, []) + NewOnes(t, NewOnes(s, []))
  {
    if t != [] {
      var n := |t| - 1;
      assert s + t == s + t[..n] + [t[n]];
      NewOnesJoin(s, t[..n]);
      NewOnesStep(s + t[..n], t[n], []);
    } else {
      assert s + t == s;
    }
  }

  lemma NextIds(cs: seq<Candidate>, k: nat, works: seq<nat>, spans: seq<nat>)
    requires k < |cs| && Listed(cs[..k], works, spans)
    ensures var work := cs[k].item.work;
            Listed(cs[..k + 1], if work in works then works else works + [work], AddSpans(spans, SpansOf(cs[k].item)))
  {
    assert cs[..k + 1][..k] == cs[..k];
    NewOnesStep(WorksIn(cs[..k]), cs[k].item.work, []);
    NewOnesJoin(SpansIn(cs[..k]), SpansOf(cs[k].item));
  }

  lemma AllowedAsLists(cs: seq<Candidate>, works: seq<nat>, spans: seq<nat>)
    requires Listed(cs, works, spans)
    ensures AllowedFrom(cs) == Allowed(Elements(works), Elements(spans), works + spans)
  {
    forall v
      ensures v in NewOnes(WorksIn(cs), []) <==> v in WorksIn(cs)
      ensures v in NewOnes(SpansIn(cs), []) <==> v in SpansIn(cs)
    {
      NewOnesHas(WorksIn(cs), [], v);
      NewOnesHas(SpansIn(cs), [], v);
    }
  }
}
