// config/loader.py: configuration trees and their recursive merge.
module ConfigMerge {

  // Section and field names the loader treats specially; all others are `Setting`. Routing names are the
  // profile-definition fields besides `profiles`; secret names are the ones that would hold a raw key.
  datatype Key =
    | ContentPolicy | Budget | AnswerPolicy | Llm | Routes | Profiles | Slug
    | ExternalForPrivateText | AllowExternal | ExternalForAnswers
    | UsdLimit | MaxTokens | PerRunSoftLimit | MonthlySoftLimit | ConfirmAbove | UnverifiedPricing
    | ExternalSearch | AllowedClasses
    | Routing(n: nat) | Secret(n: nat) | Setting(n: nat)

  // YAML writes infinities and NaN as .inf, -.inf and .nan.
  datatype Number = Finite(r: real) | Infinite(positive: bool) | NaN

  datatype Tree =
    | Null | Bool(b: bool) | Num(n: Number) | Str(s: string) | List(items: seq<Tree>) | Dict(m: map<Key, Tree>)

  /** _deep_merge on two values: mappings merge key by key, anything else is replaced. */
  function Merge(base: Tree, over: Tree): Tree
    decreases base
  {
    if base.Dict? && over.Dict? then
      Dict(map k | k in base.m.Keys + over.m.Keys ::
             if k in base.m && k in over.m then Merge(base.m[k], over.m[k])
             else if k in over.m then over.m[k] else base.m[k])
    else over
  }

  // ----- Associativity -----

  /** Merging `x` below `z` adds nothing to `z`. */
  ghost predicate Covers(z: Tree, x: Tree)
    decreases x
  {
    x.Dict? && z.Dict? ==> forall k :: k in x.m ==> k in z.m && Covers(z.m[k], x.m[k])
  }

  lemma {:induction false} CoversIff(z: Tree, x: Tree)
    ensures Merge(x, z) == z <==> Covers(z, x)
    decreases x
  {
    if x.Dict? && z.Dict? {
      var r := Merge(x, z);
      forall k | k in x.m && k in z.m
        ensures Merge(x.m[k], z.m[k]) == z.m[k] <==> Covers(z.m[k], x.m[k])
      {
        CoversIff(z.m[k], x.m[k]);
      }
      if r == z {
        forall k | k in x.m
          ensures k in z.m && Covers(z.m[k], x.m[k])
        {
          assert k in r.m;
          assert r.m[k] == z.m[k];
        }
      }
      if Covers(z, x) {
        assert forall k :: k in r.m <==> k in z.m;
        assert forall k :: k in z.m ==> r.m[k] == z.m[k];
      }
    }
  }

  /** The grouping of three layers does not matter here: no mapping, scalar, mapping in that order at one
      place, unless the last mapping covers the first. */
  ghost predicate Associates(x: Tree, y: Tree, z: Tree)
    decreases x
  {
    x.Dict? && z.Dict? ==>
      if y.Dict? then forall k :: k in x.m && k in y.m && k in z.m ==> Associates(x.m[k], y.m[k], z.m[k])
      else Covers(z, x)
  }

  lemma MergedDict(x: Tree, y: Tree, k: Key)
    requires x.Dict? && y.Dict?
    ensures Merge(x, y).Dict?
    ensures k in Merge(x, y).m <==> k in x.m || k in y.m
    ensures k in Merge(x, y).m
            ==> Merge(x, y).m[k]
                == if k in x.m && k in y.m then Merge(x.m[k], y.m[k]) else if k in y.m then y.m[k] else x.m[k]
  {
  }

  lemma AssociatesAt(x: Tree, y: Tree, z: Tree, k: Key)
    requires x.Dict? && y.Dict? && z.Dict?
    requires k in x.m && k in y.m && k in z.m
             ==> (Merge(Merge(x.m[k], y.m[k]), z.m[k]) == Merge(x.m[k], Merge(y.m[k], z.m[k]))
                  <==> Associates(x.m[k], y.m[k], z.m[k]))
    ensures var l, r := Merge(Merge(x, y), z), Merge(x, Merge(y, z));
            && l.Dict? && r.Dict?
            && (k in l.m <==> k in r.m)
            && (k in l.m ==>
                  (l.m[k] == r.m[k] <==> (k in x.m && k in y.m && k in z.m ==> Associates(x.m[k], y.m[k], z.m[k]))))
  {
    MergedDict(x, y, k);
    MergedDict(y, z, k);
    MergedDict(Merge(x, y), z, k);
    MergedDict(x, Merge(y, z), k);
  }

  /** Merging defaults, global and project layers is associative exactly when no scalar sits between two
      mappings that the scalar would have cut off from each other. */
  lemma {:induction false} MergeIsAssociativeIff(x: Tree, y: Tree, z: Tree)
    ensures Merge(Merge(x, y), z) == Merge(x, Merge(y, z)) <==> Associates(x, y, z)
    decreases x
  {
    var l, r := Merge(Merge(x, y), z), Merge(x, Merge(y, z));
    if x.Dict? && y.Dict? && z.Dict? {
      forall k
        ensures l.Dict? && r.Dict? && (k in l.m <==> k in r.m)
        ensures k in l.m ==>
                  (l.m[k] == r.m[k] <==> (k in x.m && k in y.m && k in z.m ==> Associates(x.m[k], y.m[k], z.m[k])))
      {
        if k in x.m && k in y.m && k in z.m {
          MergeIsAssociativeIff(x.m[k], y.m[k], z.m[k]);
        }
        AssociatesAt(x, y, z, k);
      }
      SameDict(l, r);
    } else if x.Dict? && z.Dict? {
      CoversIff(z, x);
    }
  }

  lemma SameDict(l: Tree, r: Tree)
    requires l.Dict? && r.Dict? && forall k :: k in l.m <==> k in r.m
    ensures l == r <==> forall k :: k in l.m ==> l.m[k] == r.m[k]
  {
    if forall k :: k in l.m ==> l.m[k] == r.m[k] {
      assert l.m == r.m;
    }
  }

  /** A scalar layer between two mappings cuts them apart only in one of the two groupings. */
  lemma ScalarBetweenMappings()
    ensures var x, y, z := Dict(map[MaxTokens := Null]), Null, Dict(map[]);
            Merge(Merge(x, y), z) != Merge(x, Merge(y, z))
  {
    var x, z := Dict(map[MaxTokens := Null]), Dict(map[]);
    MergedDict(x, z, MaxTokens);
  }
}
