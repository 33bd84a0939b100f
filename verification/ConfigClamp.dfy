// config/loader.py: the tighten-only clamp, with the ceilings of config/models.py.
module ConfigClamp {
  import opened Prelude
  import opened ConfigMerge

  datatype Kind = And | Min | Subset

  datatype Part = At(key: Key) | Wild

  // A dotted path of one or more parts.
  datatype Path = Last(part: Part) | Then(part: Part, rest: Path)

  datatype Ceiling = Ceiling(path: Path, kind: Kind)

  // ----- The rules -----

  /** bool(v). */
  predicate Truthy(v: Tree) {
    match v
    case Null => false
    case Bool(b) => b
    case Num(n) => n != Finite(0.0)
    case Str(s) => s != ""
    case List(items) => items != []
    case Dict(m) => |m| > 0
  }

  function Intersect(items: seq<Tree>, allowed: seq<Tree>): (r: seq<Tree>)
    ensures forall x :: x in r <==> x in items && x in allowed
  {
    if items == [] then []
    else
      var n := |items| - 1;
      assert items == items[..n] + [items[n]];
      Intersect(items[..n], allowed) + if items[n] in allowed then [items[n]] else []
  }

  function Lower(c: char): char {
    if 'A' <= c <= 'Z' then (c as int + 32) as char else c
  }

  function LowerCase(s: string): string {
    seq(|s|, i requires 0 <= i < |s| => Lower(s[i]))
  }

  /** How the schema reads a leaf that it types as a boolean: booleans, one and zero, and quoted words of any case. */
  function AsFlag(v: Tree): Option<bool> {
    match v
    case Bool(b) => Some(b)
    case Num(n) => if n == Finite(1.0) then Some(true) else if n == Finite(0.0) then Some(false) else None
    case Str(s) =>
      if LowerCase(s) in ["1", "t", "true", "y", "yes", "on"] then Some(true)
      else if LowerCase(s) in ["0", "f", "false", "n", "no", "off"] then Some(false)
      else None
    case _ => None
  }

  /** The schema reads the leaf as a permission. */
  predicate Grants(v: Tree) {
    AsFlag(v) == Some(true)
  }

  /** The clamp takes the leaf for a permission, the schema does not: a quoted "no" is one. */
  predicate Misread(v: Tree) {
    Truthy(v) && !Grants(v)
  }

  /** isinstance(v, (int, float)): True and False are the integers 1 and 0. */
  function AsNumber(v: Tree): Option<Number> {
    match v
    case Num(n) => Some(n)
    case Bool(b) => Some(Finite(if b then 1.0 else 0.0))
    case _ => None
  }

  /** a > b; every comparison with NaN is false. */
  predicate Greater(a: Number, b: Number) {
    match a
    case NaN => false
    case Finite(x) => (b.Finite? && x > b.r) || b == Infinite(false)
    case Infinite(positive) => positive && (b.Finite? || b == Infinite(false))
  }

  /** A number that can be compared. */
  predicate Comparable(v: Tree) {
    AsNumber(v).Some? && !AsNumber(v).value.NaN?
  }

  /** The clamped leaf. */
  function Rule(kind: Kind, g: Tree, v: Tree): Tree {
    match kind
    case And => Bool(Truthy(g) && Truthy(v))
    case Min =>
      if g.Null? then v
      else if v.Null? then g
      else if AsNumber(v).Some? && AsNumber(g).Some? then if Greater(AsNumber(v).value, AsNumber(g).value) then g else v
      else v
    case Subset =>
      if g.Null? then v
      else if v.Null? then g
      else if v.List? && g.List? then List(Intersect(v.items, g.items))
      else v
  }

  /** `v` is at least as restrictive as the ceiling `g`; null is no ceiling. A gate is open if the schema reads it as
      a permission. A number is within a cap if both can be compared and it does not exceed it, so nothing is within
      NaN and NaN is within no cap. */
  ghost predicate Tight(kind: Kind, g: Tree, v: Tree) {
    match kind
    case And => Grants(v) ==> Grants(g)
    case Min =>
      g.Null? || (Comparable(g) && Comparable(v) && !Greater(AsNumber(v).value, AsNumber(g).value))
    case Subset => g.List? ==> v.List? && forall x :: x in v.items ==> x in g.items
  }

  /** The leaves a rule can hold against the ceiling: for a gate, a project leaf that is not truthy or a global one
      that is not misread; for a cap, both sides comparable; for an allow-set, a list. Null in the project stands for
      the ceiling itself. */
  predicate Clampable(kind: Kind, g: Tree, v: Tree) {
    match kind
    case And => !Truthy(v) || !Misread(g)
    case Min => g.Null? || (Comparable(g) && (v.Null? || Comparable(v)))
    case Subset => g.Null? || v.Null? || v.List?
  }

  /** A global allow-set is null or a list. */
  predicate AllowSet(kind: Kind, g: Tree) {
    kind == Subset ==> g.Null? || g.List?
  }

  /** The clamped leaf respects the ceiling exactly when the two leaves are clampable: a cap or allow-set of another
      type, and a NaN, passes through unchanged, and a misread gate counts as open. */
  lemma RuleTightensIff(kind: Kind, g: Tree, v: Tree)
    requires AllowSet(kind, g)
    ensures Tight(kind, g, Rule(kind, g, v)) <==> Clampable(kind, g, v)
  {
  }

  /** A NaN lifts a cap: it is a float, and it is not greater than the cap. */
  lemma NaNLiftsTheCap()
    ensures Rule(Min, Num(Finite(5.0)), Num(NaN)) == Num(NaN)
    ensures !Tight(Min, Num(Finite(5.0)), Num(NaN))
  {
  }

  /** A quoted "no" in the global file is a string that the schema reads as false, but a nonempty string is truthy:
      the project's permission goes through. */
  lemma QuotedNoOpensTheGate()
    ensures Rule(And, Str("no"), Bool(true)) == Bool(true) && AsFlag(Str("no")) == Some(false)
    ensures !Tight(And, Str("no"), Bool(true))
  {
    assert LowerCase("no") == "no";
  }

  /** The project leaves that clamping cannot loosen: a gate that is not misread, or under a closed one; a cap that
      can be compared, or none; any allow-set. */
  predicate Kept(kind: Kind, g: Tree, v: Tree) {
    match kind
    case And => !Truthy(g) || !Misread(v)
    case Min => v.Null? || Comparable(v)
    case Subset => true
  }

  /** Clamping does not loosen what the project already had, exactly for these. */
  lemma RuleKeepsTightIff(kind: Kind, g: Tree, v: Tree)
    ensures Tight(kind, v, Rule(kind, g, v)) <==> Kept(kind, g, v)
  {
  }

  /** A quoted "no" in the project file becomes a permission under an open gate. */
  lemma QuotedNoBecomesYes()
    ensures AsFlag(Str("no")) == Some(false) && Rule(And, Bool(true), Str("no")) == Bool(true)
  {
    assert LowerCase("no") == "no";
  }

  lemma {:induction false} IntersectAgain(items: seq<Tree>, allowed: seq<Tree>)
    requires forall x :: x in items ==> x in allowed
    ensures Intersect(items, allowed) == items
  {
    if items != [] {
      var n := |items| - 1;
      assert items == items[..n] + [items[n]];
      IntersectAgain(items[..n], allowed);
    }
  }

  lemma RuleTwice(kind: Kind, g: Tree, v: Tree)
    ensures Rule(kind, g, Rule(kind, g, v)) == Rule(kind, g, v)
  {
    if kind == Subset && g.List? {
      IntersectAgain(g.items, g.items);
      if v.List? {
        IntersectAgain(Intersect(v.items, g.items), g.items);
      }
    }
  }

  /** A section the project does not mention is shared with the global tree; clamping it writes back what it
      holds, given the types of the schema (a boolean for And). */
  lemma RuleOnItself(kind: Kind, g: Tree)
    requires AllowSet(kind, g) && (kind == And ==> g.Bool?)
    ensures Rule(kind, g, g) == g
  {
    if kind == Subset && g.List? {
      IntersectAgain(g.items, g.items);
    }
  }

  // ----- One ceiling -----

  predicate Matches(part: Part, k: Key) {
    part.Wild? || part.key == k
  }

  /** What the global tree has under a key: null where there is no mapping or no such key. */
  function Below(g: Tree, k: Key): Tree {
    if g.Dict? && k in g.m then g.m[k] else Null
  }

  /** Replaces every leaf that the path selects by its clamped value. */
  function ClampPath(path: Path, kind: Kind, g: Tree, v: Tree): Tree
    decreases path, 1
  {
    if v.Dict? then Dict(map k | k in v.m :: ClampChild(path, kind, Below(g, k), v.m[k], k)) else v
  }

  /** The value under key `k`, if the path may select it. */
  function ClampChild(path: Path, kind: Kind, g: Tree, v: Tree, k: Key): Tree
    decreases path, 0
  {
    if !Matches(path.part, k) then v
    else if path.Last? then Rule(kind, g, v)
    else ClampPath(path.rest, kind, g, v)
  }

  // ----- Addressing values -----

  datatype Address = Here | Down(key: Key, rest: Address)

  function Lookup(v: Tree, a: Address): Option<Tree> {
    if a.Here? then Some(v)
    else if v.Dict? && a.key in v.m then Lookup(v.m[a.key], a.rest)
    else None
  }

  /** The ceiling for an address: null where the global tree has nothing there. */
  function GlobalAt(g: Tree, a: Address): Tree
    decreases a
  {
    if a.Here? then g else GlobalAt(Below(g, a.key), a.rest)
  }

  predicate Selects(path: Path, a: Address) {
    a.Down? && Matches(path.part, a.key) && if path.Last? then a.rest.Here? else Selects(path.rest, a.rest)
  }

  /** The address is selected, or lies below one that is. */
  predicate LiesUnder(path: Path, a: Address) {
    a.Down? && Matches(path.part, a.key) && (path.Last? || LiesUnder(path.rest, a.rest))
  }

  /** The path and the address part ways. */
  predicate Avoids(path: Path, a: Address) {
    a.Down? && (!Matches(path.part, a.key) || (path.Then? && Avoids(path.rest, a.rest)))
  }

  /** A selected leaf becomes its clamped value, and only existing leaves are touched. */
  lemma {:induction false} ClampSelected(path: Path, kind: Kind, g: Tree, v: Tree, a: Address)
    requires Selects(path, a)
    ensures var before := Lookup(v, a);
            Lookup(ClampPath(path, kind, g, v), a)
            == if before.Some? then Some(Rule(kind, GlobalAt(g, a), before.value)) else None
    decreases path
  {
    if v.Dict? && a.key in v.m && path.Then? {
      ClampSelected(path.rest, kind, Below(g, a.key), v.m[a.key], a.rest);
    }
  }

  predicate Scalar(v: Option<Tree>) {
    v.None? || !v.value.Dict?
  }

  /** Everything else stays as the merge left it: away from the selected leaves a scalar, a missing value and
      a mapping stay what they are. */
  lemma {:induction false} ClampElsewhere(path: Path, kind: Kind, g: Tree, v: Tree, a: Address)
    requires !LiesUnder(path, a)
    ensures var before, after := Lookup(v, a), Lookup(ClampPath(path, kind, g, v), a);
            && (Scalar(before) ==> after == before)
            && (!Scalar(before) ==> !Scalar(after) && after.value.m.Keys == before.value.m.Keys)
    decreases path
  {
    if a.Down? && v.Dict? && a.key in v.m && Matches(path.part, a.key) {
      ClampElsewhere(path.rest, kind, Below(g, a.key), v.m[a.key], a.rest);
    }
  }

  lemma {:induction false} ClampAvoided(path: Path, kind: Kind, g: Tree, v: Tree, a: Address)
    requires Avoids(path, a)
    ensures Lookup(ClampPath(path, kind, g, v), a) == Lookup(v, a)
    decreases path
  {
    if v.Dict? && a.key in v.m && Matches(path.part, a.key) {
      ClampAvoided(path.rest, kind, Below(g, a.key), v.m[a.key], a.rest);
    }
  }

  lemma {:induction false} ClampTwice(path: Path, kind: Kind, g: Tree, v: Tree)
    ensures ClampPath(path, kind, g, ClampPath(path, kind, g, v)) == ClampPath(path, kind, g, v)
    decreases path, 1
  {
    if v.Dict? {
      forall k | k in v.m
        ensures ClampChild(path, kind, Below(g, k), ClampChild(path, kind, Below(g, k), v.m[k], k), k)
                == ClampChild(path, kind, Below(g, k), v.m[k], k)
      {
        ClampChildTwice(path, kind, Below(g, k), v.m[k], k);
      }
    }
  }

  lemma {:induction false} ClampChildTwice(path: Path, kind: Kind, g: Tree, v: Tree, k: Key)
    ensures ClampChild(path, kind, g, ClampChild(path, kind, g, v, k), k) == ClampChild(path, kind, g, v, k)
    decreases path, 0
  {
    RuleTwice(kind, g, v);
    if path.Then? {
      ClampTwice(path.rest, kind, g, v);
    }
  }

  // ----- Several ceilings -----

  /** No address is selected by one path and at or below one selected by the other. */
  predicate Independent(p: Path, q: Path) {
    || (p.part.At? && q.part.At? && p.part.key != q.part.key)
    || (p.Then? && q.Then? && Independent(p.rest, q.rest))
  }

  /** Clamping under independent paths commutes. */
  lemma {:induction false} ClampsCommute(p: Path, kp: Kind, q: Path, kq: Kind, g: Tree, v: Tree)
    requires Independent(p, q)
    ensures ClampPath(p, kp, g, ClampPath(q, kq, g, v)) == ClampPath(q, kq, g, ClampPath(p, kp, g, v))
    decreases p, 1
  {
    if v.Dict? {
      forall k | k in v.m
        ensures ClampChild(p, kp, Below(g, k), ClampChild(q, kq, Below(g, k), v.m[k], k), k)
                == ClampChild(q, kq, Below(g, k), ClampChild(p, kp, Below(g, k), v.m[k], k), k)
      {
        ChildrenCommute(p, kp, q, kq, Below(g, k), v.m[k], k);
      }
    }
  }

  lemma {:induction false} ChildrenCommute(p: Path, kp: Kind, q: Path, kq: Kind, g: Tree, v: Tree, k: Key)
    requires Independent(p, q)
    ensures ClampChild(p, kp, g, ClampChild(q, kq, g, v, k), k) == ClampChild(q, kq, g, ClampChild(p, kp, g, v, k), k)
    decreases p, 0
  {
    var pv, qv := ClampChild(p, kp, g, v, k), ClampChild(q, kq, g, v, k);
    if Matches(p.part, k) && Matches(q.part, k) {
      assert ClampChild(p, kp, g, qv, k) == ClampPath(p.rest, kp, g, ClampPath(q.rest, kq, g, v)) by {
        ChildBelow(q, kq, g, v, k);
        ChildBelow(p, kp, g, qv, k);
      }
      assert ClampChild(q, kq, g, pv, k) == ClampPath(q.rest, kq, g, ClampPath(p.rest, kp, g, v)) by {
        ChildBelow(p, kp, g, v, k);
        ChildBelow(q, kq, g, pv, k);
      }
      ClampsCommute(p.rest, kp, q.rest, kq, g, v);
    } else if !Matches(p.part, k) {
      ChildBeside(p, kp, g, v, k);
      ChildBeside(p, kp, g, qv, k);
    } else {
      ChildBeside(q, kq, g, v, k);
      ChildBeside(q, kq, g, pv, k);
    }
  }

  lemma ChildBelow(path: Path, kind: Kind, g: Tree, v: Tree, k: Key)
    requires Matches(path.part, k) && path.Then?
    ensures ClampChild(path, kind, g, v, k) == ClampPath(path.rest, kind, g, v)
  {
  }

  lemma ChildBeside(path: Path, kind: Kind, g: Tree, v: Tree, k: Key)
    requires !Matches(path.part, k)
    ensures ClampChild(path, kind, g, v, k) == v
  {
  }

  /** clamp_project_ceiling: every ceiling in turn. */
  function ClampAll(spec: seq<Ceiling>, g: Tree, v: Tree): Tree {
    if spec == [] then v
    else
      var c := spec[|spec| - 1];
      ClampPath(c.path, c.kind, g, ClampAll(spec[..|spec| - 1], g, v))
  }

  /** All selected keys but those in `todo` hold their clamped values; the others are untouched. */
  ghost predicate ClampedBut(
      path: Path, kind: Kind, g: Tree, was: map<Key, Tree>, now: map<Key, Tree>, todo: set<Key>)
  {
    && todo <= was.Keys == now.Keys
    && (forall k :: k in now ==>
          now[k] == if k in todo then was[k] else ClampChild(path, kind, Below(g, k), was[k], k))
  }

  lemma ClampNext(path: Path, kind: Kind, g: Tree, was: map<Key, Tree>, now: map<Key, Tree>, todo: set<Key>, k: Key)
    requires ClampedBut(path, kind, g, was, now, todo) && k in todo
    ensures now[k] == was[k]
    ensures ClampedBut(path, kind, g, was, now[k := ClampChild(path, kind, Below(g, k), was[k], k)], todo - {k})
  {
  }

  lemma ClampStart(path: Path, kind: Kind, g: Tree, was: map<Key, Tree>, todo: set<Key>)
    requires todo <= was.Keys && forall k :: k in was && Matches(path.part, k) ==> k in todo
    ensures ClampedBut(path, kind, g, was, was, todo)
  {
    forall k | k in was && k !in todo
      ensures was[k] == ClampChild(path, kind, Below(g, k), was[k], k)
    {
      ChildBeside(path, kind, Below(g, k), was[k], k);
    }
  }

  lemma ClampDone(path: Path, kind: Kind, g: Tree, was: map<Key, Tree>, now: map<Key, Tree>)
    requires ClampedBut(path, kind, g, was, now, {})
    ensures Dict(now) == ClampPath(path, kind, g, Dict(was))
  {
    var after := ClampPath(path, kind, g, Dict(was)).m;
    assert after.Keys == now.Keys;
    assert forall k :: k in now ==> after[k] == ClampChild(path, kind, Below(g, k), was[k], k);
    assert after == now;
  }

  /** The loop over the targets of one path: only the keys it selects are assigned. */
  method ClampTargets(path: Path, kind: Kind, g: Tree, merged: Tree) returns (clamped: Tree)
    ensures clamped == ClampPath(path, kind, g, merged)
    decreases path
  {
    if !merged.Dict? {
      return merged;
    }
    var m := merged.m;
    var todo := if path.part.Wild? then m.Keys else if path.part.key in m then {path.part.key} else {};
    ClampStart(path, kind, g, m, todo);
    while todo != {}
      invariant ClampedBut(path, kind, g, merged.m, m, todo)
      invariant forall k :: k in todo ==> Matches(path.part, k)
    {
      var k :| k in todo;
      ClampNext(path, kind, g, merged.m, m, todo, k);
      if path.Last? {
        m := m[k := Rule(kind, Below(g, k), m[k])];
      } else {
        var section := ClampTargets(path.rest, kind, Below(g, k), m[k]);
        m := m[k := section];
      }
      todo := todo - {k};
    }
    ClampDone(path, kind, g, merged.m, m);
    clamped := Dict(m);
  }

  method ClampProjectCeiling(spec: seq<Ceiling>, g: Tree, merged: Tree) returns (clamped: Tree)
    ensures clamped == ClampAll(spec, g, merged)
  {
    clamped := merged;
    for i := 0 to |spec|
      invariant clamped == ClampAll(spec[..i], g, merged)
    {
      assert spec[..i + 1][..i] == spec[..i];
      clamped := ClampTargets(spec[i].path, spec[i].kind, g, clamped);
    }
    assert spec[..|spec|] == spec;
  }

  ghost predicate PairwiseIndependent(spec: seq<Ceiling>) {
    forall i, j :: 0 <= i < |spec| && 0 <= j < |spec| && i != j ==> Independent(spec[i].path, spec[j].path)
  }

  lemma {:induction false} SelectedIsAvoided(p: Path, q: Path, a: Address)
    requires Selects(p, a) && Independent(p, q)
    ensures Avoids(q, a)
    decreases p
  {
    if Matches(q.part, a.key) {
      SelectedIsAvoided(p.rest, q.rest, a.rest);
    }
  }

  lemma {:induction false} ClampAllAvoided(spec: seq<Ceiling>, g: Tree, v: Tree, a: Address)
    requires forall c :: c in spec ==> Avoids(c.path, a)
    ensures Lookup(ClampAll(spec, g, v), a) == Lookup(v, a)
  {
    if spec != [] {
      var n := |spec| - 1;
      assert spec == spec[..n] + [spec[n]];
      ClampAllAvoided(spec[..n], g, v, a);
      assert Avoids(spec[n].path, a);
      ClampAvoided(spec[n].path, spec[n].kind, g, ClampAll(spec[..n], g, v), a);
    }
  }

  lemma OthersAvoid(spec: seq<Ceiling>, n: nat, a: Address)
    requires PairwiseIndependent(spec) && n < |spec| && Selects(spec[n].path, a)
    ensures forall c :: c in spec[..n] ==> Avoids(c.path, a)
  {
    forall c | c in spec[..n]
      ensures Avoids(c.path, a)
    {
      var j :| 0 <= j < n && spec[..n][j] == c;
      assert Independent(spec[n].path, spec[j].path);
      SelectedIsAvoided(spec[n].path, c.path, a);
    }
  }

  /** Every ceiling leaf ends up as its own rule makes it from the global and the merged leaf. */
  lemma {:induction false} CeilingLeaf(spec: seq<Ceiling>, g: Tree, v: Tree, i: nat, a: Address)
    requires PairwiseIndependent(spec) && i < |spec| && Selects(spec[i].path, a)
    ensures var before := Lookup(v, a);
            Lookup(ClampAll(spec, g, v), a)
            == if before.Some? then Some(Rule(spec[i].kind, GlobalAt(g, a), before.value)) else None
  {
    var n := |spec| - 1;
    var rest := ClampAll(spec[..n], g, v);
    if i == n {
      OthersAvoid(spec, n, a);
      ClampAllAvoided(spec[..n], g, v, a);
      ClampSelected(spec[n].path, spec[n].kind, g, rest, a);
    } else {
      assert Independent(spec[i].path, spec[n].path);
      SelectedIsAvoided(spec[i].path, spec[n].path, a);
      ClampAvoided(spec[n].path, spec[n].kind, g, rest, a);
      assert PairwiseIndependent(spec[..n]);
      CeilingLeaf(spec[..n], g, v, i, a);
    }
  }

  /** After the clamp a ceiling leaf is at least as restrictive as the global one exactly when the two leaves are
      clampable, for any global and project trees. */
  lemma CeilingHolds(spec: seq<Ceiling>, g: Tree, v: Tree, i: nat, a: Address)
    requires PairwiseIndependent(spec) && i < |spec| && Selects(spec[i].path, a)
    requires Lookup(v, a).Some? && AllowSet(spec[i].kind, GlobalAt(g, a))
    ensures Lookup(ClampAll(spec, g, v), a).Some?
    ensures Tight(spec[i].kind, GlobalAt(g, a), Lookup(ClampAll(spec, g, v), a).value)
            <==> Clampable(spec[i].kind, GlobalAt(g, a), Lookup(v, a).value)
  {
    CeilingLeaf(spec, g, v, i, a);
    RuleTightensIff(spec[i].kind, GlobalAt(g, a), Lookup(v, a).value);
  }

  /** Leaves without a ceiling are exactly what the merge gave. */
  lemma {:induction false} FreeLeafUnchanged(spec: seq<Ceiling>, g: Tree, v: Tree, a: Address)
    requires forall c :: c in spec ==> !LiesUnder(c.path, a)
    ensures Scalar(Lookup(v, a)) ==> Lookup(ClampAll(spec, g, v), a) == Lookup(v, a)
    ensures !Scalar(Lookup(v, a)) ==> !Scalar(Lookup(ClampAll(spec, g, v), a))
  {
    if spec != [] {
      var n := |spec| - 1;
      assert spec == spec[..n] + [spec[n]];
      FreeLeafUnchanged(spec[..n], g, v, a);
      ClampElsewhere(spec[n].path, spec[n].kind, g, ClampAll(spec[..n], g, v), a);
    }
  }

  /** A ceiling independent of all others may be applied first or last. */
  lemma {:induction false} ClampThrough(spec: seq<Ceiling>, c: Ceiling, g: Tree, v: Tree)
    requires forall d :: d in spec ==> Independent(c.path, d.path)
    ensures ClampPath(c.path, c.kind, g, ClampAll(spec, g, v)) == ClampAll(spec, g, ClampPath(c.path, c.kind, g, v))
  {
    if spec != [] {
      var n := |spec| - 1;
      assert spec == spec[..n] + [spec[n]];
      ClampThrough(spec[..n], c, g, v);
      ClampsCommute(c.path, c.kind, spec[n].path, spec[n].kind, g, ClampAll(spec[..n], g, v));
    }
  }

  /** Clamping a clamped tree changes nothing. */
  lemma {:induction false} ClampAllTwice(spec: seq<Ceiling>, g: Tree, v: Tree)
    requires PairwiseIndependent(spec)
    ensures ClampAll(spec, g, ClampAll(spec, g, v)) == ClampAll(spec, g, v)
  {
    if spec != [] {
      var n := |spec| - 1;
      var c, inner := spec[n], ClampAll(spec[..n], g, v);
      ClampAllTwice(spec[..n], g, v);
      ClampThrough(spec[..n], c, g, inner);
      ClampTwice(c.path, c.kind, g, inner);
    }
  }

  lemma ClampSnoc(spec: seq<Ceiling>, c: Ceiling, g: Tree, v: Tree)
    ensures ClampAll(spec + [c], g, v) == ClampPath(c.path, c.kind, g, ClampAll(spec, g, v))
  {
    assert (spec + [c])[..|spec|] == spec;
  }

  lemma {:induction false} MoveLast(before: seq<Ceiling>, c: Ceiling, after: seq<Ceiling>, g: Tree, v: Tree)
    requires forall d :: d in after ==> Independent(c.path, d.path)
    ensures ClampAll(before + [c] + after, g, v) == ClampPath(c.path, c.kind, g, ClampAll(before + after, g, v))
  {
    if after == [] {
      assert before + [c] + after == before + [c] && before + after == before;
      ClampSnoc(before, c, g, v);
    } else {
      var n := |after| - 1;
      var d, rest := after[n], after[..n];
      assert after == rest + [d];
      assert before + [c] + after == before + [c] + rest + [d] && before + after == before + rest + [d];
      ClampSnoc(before + [c] + rest, d, g, v);
      ClampSnoc(before + rest, d, g, v);
      MoveLast(before, c, rest, g, v);
      ClampsCommute(c.path, c.kind, d.path, d.kind, g, ClampAll(before + rest, g, v));
    }
  }

  /** The order of the ceilings does not matter. */
  lemma {:induction false} OrderDoesNotMatter(s: seq<Ceiling>, t: seq<Ceiling>, g: Tree, v: Tree)
    requires PairwiseIndependent(s) && PairwiseIndependent(t) && multiset(s) == multiset(t)
    ensures ClampAll(s, g, v) == ClampAll(t, g, v)
    decreases |s|
  {
    if s == [] {
      assert |multiset(t)| == 0;
    } else {
      var n := |s| - 1;
      var i := IndexOfLast(s, t);
      assert ClampAll(t, g, v) == ClampPath(s[n].path, s[n].kind, g, ClampAll(t[..i] + t[i + 1..], g, v)) by {
        MoveOut(t, i, g, v);
      }
      assert ClampAll(s[..n], g, v) == ClampAll(t[..i] + t[i + 1..], g, v) by {
        Without(t, i);
        OrderDoesNotMatter(s[..n], t[..i] + t[i + 1..], g, v);
      }
    }
  }

  lemma IndexOfLast(s: seq<Ceiling>, t: seq<Ceiling>) returns (i: nat)
    requires s != [] && multiset(s) == multiset(t)
    ensures i < |t| && t[i] == s[|s| - 1]
    ensures multiset(s[..|s| - 1]) == multiset(t[..i] + t[i + 1..])
  {
    var n := |s| - 1;
    assert s == s[..n] + [s[n]];
    assert s[n] in multiset(t);
    i :| 0 <= i < |t| && t[i] == s[n];
    assert multiset(t) == multiset(t[..i] + t[i + 1..]) + multiset{t[i]} by {
      assert t == t[..i] + [t[i]] + t[i + 1..];
    }
    TakeAway(multiset(s[..n]), multiset(t[..i] + t[i + 1..]), s[n]);
  }

  lemma TakeAway(a: multiset<Ceiling>, b: multiset<Ceiling>, x: Ceiling)
    requires a + multiset{x} == b + multiset{x}
    ensures a == b
  {
    assert a == (a + multiset{x}) - multiset{x} && b == (b + multiset{x}) - multiset{x};
  }

  lemma MoveOut(t: seq<Ceiling>, i: nat, g: Tree, v: Tree)
    requires PairwiseIndependent(t) && i < |t|
    ensures ClampAll(t, g, v) == ClampPath(t[i].path, t[i].kind, g, ClampAll(t[..i] + t[i + 1..], g, v))
  {
    assert t == t[..i] + [t[i]] + t[i + 1..];
    MoveLast(t[..i], t[i], t[i + 1..], g, v);
  }

  lemma Without(t: seq<Ceiling>, i: nat)
    requires PairwiseIndependent(t) && i < |t|
    ensures PairwiseIndependent(t[..i] + t[i + 1..])
  {
    var rest := t[..i] + t[i + 1..];
    forall j, k | 0 <= j < |rest| && 0 <= k < |rest| && j != k
      ensures Independent(rest[j].path, rest[k].path)
    {
      var a, b := if j < i then j else j + 1, if k < i then k else k + 1;
      assert rest[j] == t[a] && rest[k] == t[b];
    }
  }

  // ----- The ceilings of the program -----

  /** CEILING_SPEC. */
  function CeilingSpec(): seq<Ceiling> {
    [ Ceiling(Then(At(ContentPolicy), Last(At(ExternalForPrivateText))), And),
      Ceiling(Then(At(ContentPolicy), Last(At(AllowExternal))), And),
      Ceiling(Then(At(ContentPolicy), Last(At(ExternalForAnswers))), And),
      Ceiling(Then(At(Budget), Last(At(UsdLimit))), Min),
      Ceiling(Then(At(Budget), Last(At(MaxTokens))), Min),
      Ceiling(Then(At(Budget), Last(At(PerRunSoftLimit))), Min),
      Ceiling(Then(At(Budget), Last(At(MonthlySoftLimit))), Min),
      Ceiling(Then(At(Budget), Last(At(ConfirmAbove))), Min),
      Ceiling(Then(At(Budget), Last(At(UnverifiedPricing))), And),
      Ceiling(Then(At(AnswerPolicy), Last(At(ExternalSearch))), And),
      Ceiling(Then(At(Llm), Then(At(Routes), Then(Wild, Last(At(AllowedClasses))))), Subset) ]
  }

  /** No two of the program's ceilings touch the same leaf, so all of the above applies to them. */
  lemma CeilingSpecIsIndependent()
    ensures PairwiseIndependent(CeilingSpec())
  {
    var spec := CeilingSpec();
    forall i, j | 0 <= i < |spec| && 0 <= j < |spec| && i != j
      ensures Independent(spec[i].path, spec[j].path)
    {
      var p, q := spec[i].path, spec[j].path;
      assert p.Then? && q.Then? && p.part.At? && q.part.At? && p.rest.part.At? && q.rest.part.At?;
      assert p.part.key != q.part.key || p.rest.part.key != q.rest.part.key;
    }
  }
}
