// What a project loads with at each named ceiling, from the two files alone.
module CeilingLaws {
  import opened Prelude
  import opened ConfigMerge
  import opened ConfigClamp
  import opened ConfigLoad

  // ----- One leaf through merge, clamp and strip -----

  /** A value of the project that is no mapping replaces the global one; where the project says nothing, the global
      value stays. */
  lemma {:induction false} MergedAt(g: Tree, project: Tree, a: Address)
    ensures Lookup(project, a).Some? && !Lookup(project, a).value.Dict?
            ==> Lookup(Merge(g, project), a) == Lookup(project, a)
    ensures Lookup(project, a).None? && !CutsOff(project, a) ==> Lookup(Merge(g, project), a) == Lookup(g, a)
    decreases a
  {
    if a.Down? && project.Dict? && a.key in project.m {
      if g.Dict? {
        MergedDict(g, project, a.key);
      }
      if g.Dict? && a.key in g.m {
        MergedAt(g.m[a.key], project.m[a.key], a.rest);
      }
    }
  }

  lemma {:induction false} GlobalAtIs(g: Tree, a: Address)
    ensures GlobalAt(g, a) == if Lookup(g, a).Some? then Lookup(g, a).value else Null
    decreases a
  {
    if a.Down? {
      if g.Dict? && a.key in g.m {
        GlobalAtIs(g.m[a.key], a.rest);
      } else {
        NullBelow(a.rest);
      }
    }
  }

  lemma {:induction false} NullBelow(a: Address)
    ensures GlobalAt(Null, a) == Null
    decreases a
  {
    if a.Down? {
      NullBelow(a.rest);
    }
  }

  /** The leaf of ceiling `i` is what its rule makes of the global and the merged leaf. */
  lemma LoadedLeaf(g: Tree, project: Tree, i: nat, a: Address)
    requires i < |CeilingSpec()| && Selects(CeilingSpec()[i].path, a)
    ensures var before := Lookup(Merge(g, project), a);
            var ceiling := if Lookup(g, a).Some? then Lookup(g, a).value else Null;
            Lookup(Effective(g, project), a)
            == if before.Some? then Some(Rule(CeilingSpec()[i].kind, ceiling, before.value)) else None
  {
    GlobalAtIs(g, a);
    CeilingSpecIsIndependent();
    CeilingAddress(i, a);
    StripElsewhere(g, Candidate(g, project), a);
    CeilingLeaf(CeilingSpec(), g, Merge(g, project), i, a);
  }

  // ----- The permission gates -----

  /** Each gate is open exactly if both files open it; where the project says nothing, the global one decides. */
  lemma GateIsConjunction(g: Tree, project: Tree, section: Key, field: Key, x: bool, y: bool)
    requires (section, field) in [
               (ContentPolicy, ExternalForPrivateText), (ContentPolicy, AllowExternal),
               (ContentPolicy, ExternalForAnswers), (Budget, UnverifiedPricing), (AnswerPolicy, ExternalSearch)]
    requires Lookup(g, Down(section, Down(field, Here))) == Some(Bool(x))
    ensures var a := Down(section, Down(field, Here));
            && (Lookup(project, a) == Some(Bool(y)) ==> Lookup(Effective(g, project), a) == Some(Bool(x && y)))
            && (Lookup(project, a) == Some(Null) ==> Lookup(Effective(g, project), a) == Some(Bool(false)))
            && (Lookup(project, a) == None && !CutsOff(project, a)
                ==> Lookup(Effective(g, project), a) == Some(Bool(x)))
  {
    var a := Down(section, Down(field, Here));
    var i := GateIndex(section, field);
    MergedAt(g, project, a);
    LoadedLeaf(g, project, i, a);
  }

  lemma GateIndex(section: Key, field: Key) returns (i: nat)
    requires (section, field) in [
               (ContentPolicy, ExternalForPrivateText), (ContentPolicy, AllowExternal),
               (ContentPolicy, ExternalForAnswers), (Budget, UnverifiedPricing), (AnswerPolicy, ExternalSearch)]
    ensures i < |CeilingSpec()| && CeilingSpec()[i].kind == And
    ensures Selects(CeilingSpec()[i].path, Down(section, Down(field, Here)))
  {
    i := if field == ExternalForPrivateText then 0
    else if field == AllowExternal then 1
    else if field == ExternalForAnswers then 2
    else if field == UnverifiedPricing then 8
    else 9;
  }

  /** In the clamp a gate is open under an open ceiling unless its leaf is null, false, zero or empty. */
  lemma OpenUnless(v: Tree)
    ensures Rule(And, Bool(true), v) == Bool(false)
            <==> v in [Null, Bool(false), Num(Finite(0.0)), Str(""), List([]), Dict(map[])]
    ensures Rule(And, Bool(false), v) == Bool(false)
    ensures Rule(And, v, Bool(true)) == Rule(And, Bool(true), v)
  {
    if v.Dict? && |v.m| == 0 {
      assert v.m == map[];
    }
  }

  /** The schema takes true, one and six words for a permission, false, zero and six words for none, and refuses
      everything else. */
  lemma SchemaReads(v: Tree)
    ensures AsFlag(v) == Some(true)
            <==> v == Bool(true) || v == Num(Finite(1.0))
                 || (v.Str? && LowerCase(v.s) in ["1", "t", "true", "y", "yes", "on"])
    ensures AsFlag(v) == Some(false)
            <==> v == Bool(false) || v == Num(Finite(0.0))
                 || (v.Str? && LowerCase(v.s) in ["0", "f", "false", "n", "no", "off"])
  {
  }

  /** Words are compared letter by letter, capitals counting as small letters. */
  lemma CapitalsDoNotMatter(s: string, i: nat, k: nat)
    requires i < |s| && k < 26
    ensures |LowerCase(s)| == |s|
    ensures s[i] == "ABCDEFGHIJKLMNOPQRSTUVWXYZ"[k] ==> LowerCase(s)[i] == "abcdefghijklmnopqrstuvwxyz"[k]
    ensures s[i] < 'A' || s[i] > 'Z' ==> LowerCase(s)[i] == s[i]
  {
    assert LowerCase(s)[i] == Lower(s[i]);
    CapitalIs(k);
  }

  lemma CapitalIs(k: nat)
    requires k < 26
    ensures "ABCDEFGHIJKLMNOPQRSTUVWXYZ"[k] == 'A' + k as char
    ensures "abcdefghijklmnopqrstuvwxyz"[k] == 'a' + k as char
  {
  }

  // ----- The caps -----

  /** Each cap is the smaller of the two numbers; a missing or null project cap is the global one, and under no global
      cap the project's value stays. */
  lemma CapIsSmaller(g: Tree, project: Tree, section: Key, field: Key, x: real, y: real)
    requires (section, field) in [
               (Budget, UsdLimit), (Budget, MaxTokens), (Budget, PerRunSoftLimit), (Budget, MonthlySoftLimit),
               (Budget, ConfirmAbove)]
    ensures var a := Down(section, Down(field, Here));
            && (Lookup(g, a) == Some(Num(Finite(x))) && Lookup(project, a) == Some(Num(Finite(y)))
                ==> Lookup(Effective(g, project), a) == Some(Num(Finite(if y > x then x else y))))
            && (Lookup(g, a) == Some(Num(Finite(x))) && Lookup(project, a) == Some(Null)
                ==> Lookup(Effective(g, project), a) == Some(Num(Finite(x))))
            && (Lookup(g, a) == Some(Num(Finite(x))) && Lookup(project, a) == None && !CutsOff(project, a)
                ==> Lookup(Effective(g, project), a) == Some(Num(Finite(x))))
            && ((Lookup(g, a) == None || Lookup(g, a) == Some(Null)) && Lookup(project, a) == Some(Num(Finite(y)))
                ==> Lookup(Effective(g, project), a) == Some(Num(Finite(y))))
  {
    var a := Down(section, Down(field, Here));
    var i := CapIndex(section, field);
    MergedAt(g, project, a);
    LoadedLeaf(g, project, i, a);
  }

  lemma CapIndex(section: Key, field: Key) returns (i: nat)
    requires (section, field) in [
               (Budget, UsdLimit), (Budget, MaxTokens), (Budget, PerRunSoftLimit), (Budget, MonthlySoftLimit),
               (Budget, ConfirmAbove)]
    ensures i < |CeilingSpec()| && CeilingSpec()[i].kind == Min
    ensures Selects(CeilingSpec()[i].path, Down(section, Down(field, Here)))
  {
    i := if field == UsdLimit then 3
    else if field == MaxTokens then 4
    else if field == PerRunSoftLimit then 5
    else if field == MonthlySoftLimit then 6
    else 7;
  }

  /** `v` is read as the number `x`: it is that number, or true and one, or false and zero. */
  ghost predicate Amounts(v: Tree, x: real) {
    v == Num(Finite(x)) || (v == Bool(true) && x == 1.0) || (v == Bool(false) && x == 0.0)
  }

  /** Of two numbers a cap takes the smaller leaf, the project's if they are equal; infinity is above every number, and
      its negative below. */
  lemma CapTakesTheSmaller(g: Tree, v: Tree, x: real, y: real)
    requires Amounts(g, x) && Amounts(v, y)
    ensures Rule(Min, g, v) == if y > x then g else v
    ensures Rule(Min, g, Num(Infinite(true))) == g && Rule(Min, g, Num(Infinite(false))) == Num(Infinite(false))
    ensures Rule(Min, Num(Infinite(true)), v) == v && Rule(Min, Num(Infinite(false)), v) == Num(Infinite(false))
    ensures Rule(Min, Num(Infinite(false)), Num(Infinite(true))) == Num(Infinite(false))
    ensures Rule(Min, Num(Infinite(true)), Num(Infinite(false))) == Num(Infinite(false))
  {
  }

  /** A clamped cap is always one of the two leaves. */
  lemma CapIsOneOfTheTwo(g: Tree, v: Tree)
    ensures Rule(Min, g, v) == g || Rule(Min, g, v) == v
  {
  }

  // ----- The allow-sets of the routes -----

  /** For every route the project may only narrow the allowed access classes: with two lists the loaded one has
      exactly the members of both, and a missing or null project list is the global one. */
  lemma RouteIsNarrowed(g: Tree, project: Tree, route: Key, x: seq<Tree>, y: seq<Tree>)
    requires Lookup(g, Down(Llm, Down(Routes, Down(route, Down(AllowedClasses, Here))))) == Some(List(x))
    ensures var a := Down(Llm, Down(Routes, Down(route, Down(AllowedClasses, Here))));
            && (Lookup(project, a) == Some(List(y))
                ==> exists r :: Lookup(Effective(g, project), a) == Some(List(r)) &&
                                forall v :: v in r <==> v in x && v in y)
            && (Lookup(project, a) == Some(Null) ==> Lookup(Effective(g, project), a) == Some(List(x)))
            && (Lookup(project, a) == None && !CutsOff(project, a)
                ==> Lookup(Effective(g, project), a) == Some(List(x)))
  {
    var a := Down(Llm, Down(Routes, Down(route, Down(AllowedClasses, Here))));
    RouteSelected(route);
    MergedAt(g, project, a);
    LoadedLeaf(g, project, 10, a);
    NarrowedIs(x, y);
  }

  lemma RouteSelected(route: Key)
    ensures 10 < |CeilingSpec()| && CeilingSpec()[10].kind == Subset
    ensures Selects(CeilingSpec()[10].path, Down(Llm, Down(Routes, Down(route, Down(AllowedClasses, Here)))))
  {
    var path := Then(At(Llm), Then(At(Routes), Then(Wild, Last(At(AllowedClasses)))));
    assert CeilingSpec()[10].path == path;
    assert Selects(path.rest.rest.rest, Down(AllowedClasses, Here));
    assert Selects(path.rest.rest, Down(route, Down(AllowedClasses, Here)));
  }

  lemma NarrowedIs(x: seq<Tree>, y: seq<Tree>)
    ensures Rule(Subset, List(x), List(y)).List?
    ensures forall v :: v in Rule(Subset, List(x), List(y)).items <==> v in x && v in y
    ensures Rule(Subset, List(x), Null) == List(x) && Rule(Subset, List(x), List(x)) == List(x)
  {
    IntersectAgain(x, x);
  }

  // ----- Everything else -----

  /** The address is at or below one of the eleven ceilings. */
  predicate AtCeiling(a: Address) {
    && a.Down? && a.rest.Down?
    && (|| (a.key, a.rest.key) in [
             (ContentPolicy, ExternalForPrivateText), (ContentPolicy, AllowExternal),
             (ContentPolicy, ExternalForAnswers), (Budget, UsdLimit), (Budget, MaxTokens), (Budget, PerRunSoftLimit),
             (Budget, MonthlySoftLimit), (Budget, ConfirmAbove), (Budget, UnverifiedPricing),
             (AnswerPolicy, ExternalSearch)]
        || (&& a.key == Llm && a.rest.key == Routes && a.rest.rest.Down? && a.rest.rest.rest.Down?
            && a.rest.rest.rest.key == AllowedClasses))
  }

  lemma UnderCeiling(c: Ceiling, a: Address)
    requires c in CeilingSpec() && LiesUnder(c.path, a)
    ensures a.Down? && (a.rest.Down? ==> AtCeiling(a))
  {
    assert c.path.Then? && c.path.part.At? && c.path.rest.part.At?;
    assert LiesUnder(c.path.rest, a.rest);
    if c.path.rest.Then? {
      assert c.path.rest.rest == Then(Wild, Last(At(AllowedClasses)));
      assert LiesUnder(c.path.rest.rest, a.rest.rest);
      assert LiesUnder(Last(At(AllowedClasses)), a.rest.rest.rest);
    }
  }

  /** Every other setting of a section is loaded as the merge of the files has it; the profiles aside. */
  lemma OthersAreMerged(g: Tree, project: Tree, a: Address)
    requires a.Down? && a.rest.Down? && !AtCeiling(a) && !(a.key == Llm && a.rest.key == Profiles)
    requires Scalar(Lookup(Merge(g, project), a))
    ensures Lookup(Effective(g, project), a) == Lookup(Merge(g, project), a)
  {
    forall c | c in CeilingSpec()
      ensures !LiesUnder(c.path, a)
    {
      if LiesUnder(c.path, a) {
        UnderCeiling(c, a);
      }
    }
    FreeLeafUnchanged(CeilingSpec(), g, Merge(g, project), a);
    StripElsewhere(g, Candidate(g, project), a);
  }
}
