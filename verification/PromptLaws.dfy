// The prompt told by its blocks: what each shows, what they cost together, and what the model may cite.
module PromptLaws {
  import opened Prelude
  import opened Lists
  import opened Compose

  // ----- One block -----

  /** The number that a text of digits stands for. */
  function Value(digits: string): int {
    if digits == "" then 0
    else 10 * Value(digits[..|digits| - 1]) + (digits[|digits| - 1] as int - '0' as int)
  }

  /** Block numbers are written in decimal, without a leading zero. */
  lemma {:induction false} DecimalReads(n: nat)
    ensures Value(Decimal(n)) == n && Decimal(n) != "" && (n > 0 ==> Decimal(n)[0] != '0')
    ensures forall i :: 0 <= i < |Decimal(n)| ==> '0' <= Decimal(n)[i] <= '9'
  {
    if n < 10 {
      assert Decimal(n)[..0] == "";
    } else {
      DecimalReads(n / 10);
      assert Decimal(n)[..|Decimal(n)| - 1] == Decimal(n / 10);
    }
  }

  /** A block shows its candidate under its number, the text cut at the limit, and costs a quarter of the characters
      of its text in the prompt, at least one token. */
  lemma BlockIs(n: nat, item: Item, l: Limits)
    ensures var b, cut := Block(n, item, l), |item.text| > l.maxChars;
            && b.n == n && b.item == item && b.truncated == cut
            && b.quote == (if cut then item.text[..l.maxChars] + "\U{2026}" else item.text)
    ensures var b := Block(n, item, l);
            var section := if item.section == "" then "" else ", section=" + item.section;
            var text := "[E" + Decimal(n) + "] (work=" + item.workText + section + ")\n<<<EVIDENCE\n" + b.quote
                        + "\nEVIDENCE>>>";
            b.tokens == if |text| < 4 then 1 else |text| / 4
  {
  }

  // ----- The budget -----

  function TokenSum(shown: seq<Shown>): nat {
    if shown == [] then 0 else TokenSum(shown[..|shown| - 1]) + shown[|shown| - 1].tokens
  }

  /** This many tokens fit the evidence limit, and with overhead and reserve the context window. */
  predicate Fits(l: Limits, tokens: nat) {
    && tokens <= l.maxEvidence
    && (l.window.Some? ==> tokens + l.overhead + l.reserved <= l.window.value)
  }

  lemma {:induction false} TotalIsSum(cs: seq<Candidate>, l: Limits, shown: seq<Shown>, k: nat)
    requires k <= |cs| && AreBlocks(cs[..k], l, shown)
    ensures TokenSum(shown) == Total(cs, l, k) && TokenSum(shown) >= k
  {
    if k > 0 {
      var fewer := shown[..k - 1];
      assert AreBlocks(cs[..k - 1], l, fewer) by {
        assert forall i :: 0 <= i < k - 1 ==> cs[..k][i] == cs[..k - 1][i];
      }
      TotalIsSum(cs, l, fewer, k - 1);
      assert shown[k - 1] == Block(k, cs[k - 1].item, l);
    }
  }

  lemma FitsCap(l: Limits, tokens: nat)
    requires tokens >= 2
    ensures tokens <= Cap(l) <==> Fits(l, tokens)
  {
  }

  /** Two or more blocks never exceed the evidence limit or the context window. */
  lemma PromptIsWithinBudget(cs: seq<Candidate>, l: Limits, shown: seq<Shown>, cut: nat)
    requires LongestAffordable(cs, l, cut) && AreBlocks(cs[..cut], l, shown)
    ensures |shown| >= 2
            ==> && TokenSum(shown) <= l.maxEvidence
                && (l.window.Some? ==> TokenSum(shown) + l.overhead + l.reserved <= l.window.value)
  {
    TotalIsSum(cs, l, shown, cut);
    assert Affordable(cs, l, cut);
    if |shown| >= 2 {
      FitsCap(l, TokenSum(shown));
    }
  }

  /** The first candidate is always shown, and the block of a candidate that was cut would have broken a bound. */
  lemma CutBreaksTheBudget(cs: seq<Candidate>, l: Limits, shown: seq<Shown>, cut: nat)
    requires LongestAffordable(cs, l, cut) && AreBlocks(cs[..cut], l, shown) && cut < |cs|
    ensures cut >= 1
    ensures var more := TokenSum(shown) + Block(cut + 1, cs[cut].item, l).tokens;
            more > l.maxEvidence || (l.window.Some? && more + l.overhead + l.reserved > l.window.value)
  {
    TotalIsSum(cs, l, shown, cut);
    assert Affordable(cs, l, 1) && !Affordable(cs, l, cut + 1);
    FitsCap(l, TokenSum(shown) + Block(cut + 1, cs[cut].item, l).tokens);
  }

  // ----- What may be cited -----

  /** A block number stands for the work and the span of its candidate. */
  lemma IndexIs(cs: seq<Candidate>, n: int)
    ensures n in Index(cs) <==> 1 <= n <= |cs|
    ensures 1 <= n <= |cs|
            ==> && Index(cs)[n].work == cs[n - 1].item.work
                && Index(cs)[n].spans == (if cs[n - 1].item.span.Some? then [cs[n - 1].item.span.value] else [])
  {
    IndexAt(cs, n);
  }

  lemma {:induction false} WorkIdIn(cs: seq<Candidate>, v: nat)
    ensures v in WorksIn(cs) <==> exists i :: 0 <= i < |cs| && cs[i].item.work == v
  {
    if cs != [] {
      var n := |cs| - 1;
      WorkIdIn(cs[..n], v);
      assert forall i :: 0 <= i < n ==> cs[..n][i] == cs[i];
    }
  }

  lemma {:induction false} SpanIdIn(cs: seq<Candidate>, v: nat)
    ensures v in SpansIn(cs) <==> exists i :: 0 <= i < |cs| && cs[i].item.span == Some(v)
  {
    if cs != [] {
      var n := |cs| - 1;
      SpanIdIn(cs[..n], v);
      assert forall i :: 0 <= i < n ==> cs[..n][i] == cs[i];
      assert v in SpansOf(cs[n].item) <==> cs[n].item.span == Some(v);
    }
  }

  /** Exactly the works and the spans of the shown candidates may be cited; the list has each once, works first. */
  lemma AllowedIs(cs: seq<Candidate>, v: nat)
    ensures v in AllowedFrom(cs).works <==> exists i :: 0 <= i < |cs| && cs[i].item.work == v
    ensures v in AllowedFrom(cs).spans <==> exists i :: 0 <= i < |cs| && cs[i].item.span == Some(v)
    ensures exists works, spans :: && AllowedFrom(cs).retrieved == works + spans
                                   && NoDuplicates(works) && Elements(works) == AllowedFrom(cs).works
                                   && NoDuplicates(spans) && Elements(spans) == AllowedFrom(cs).spans
  {
    WorkIdIn(cs, v);
    SpanIdIn(cs, v);
    var works, spans := NewOnes(WorksIn(cs), []), NewOnes(SpansIn(cs), []);
    NewOnesDistinct(WorksIn(cs), []);
    NewOnesDistinct(SpansIn(cs), []);
    AllowedAsLists(cs, works, spans);
    assert AllowedFrom(cs).retrieved == works + spans;
  }
}
