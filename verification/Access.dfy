// vocab.py and cache/ingest.py: the access-class lattice.
module Access {
  import opened Prelude

  datatype AccessClass = OpenAccess | MetadataOnly | LicensedFuture | Unknown | UserSuppliedPrivate
  /** A stored class as it is read back: None is NULL, Invalid is a value outside the vocabulary. */
  datatype Raw = Known(value: AccessClass) | Invalid
  datatype Acquisition = Upload | FolderImport | OpenAccessFetch

  function Rank(c: AccessClass): nat {
    match c
    case UserSuppliedPrivate => 5
    case Unknown => 4
    case LicensedFuture => 3
    case MetadataOnly => 2
    case OpenAccess => 1
  }

  /** The more restrictive of two classes. */
  function Stricter(a: AccessClass, b: AccessClass): (c: AccessClass)
    ensures c == a || c == b
    ensures Rank(a) <= Rank(c) && Rank(b) <= Rank(c)
  {
    if Rank(b) > Rank(a) then b else a
  }

  /** `c` is no less restrictive than every known class present, and is one of them. */
  predicate Dominates(c: AccessClass, classes: seq<Option<Raw>>) {
    && Some(Known(c)) in classes
    && forall i :: 0 <= i < |classes| && classes[i].Some? && classes[i].value.Known? ==>
         Rank(classes[i].value.value) <= Rank(c)
  }

  /** AccessClass.most_restrictive: the strictest class given; any invalid value, or no value at all, is private. */
  method MostRestrictive(classes: seq<Option<Raw>>) returns (c: AccessClass)
    ensures Some(Invalid) in classes ==> c == UserSuppliedPrivate
    ensures (forall i :: 0 <= i < |classes| ==> classes[i].None?) ==> c == UserSuppliedPrivate
    ensures Some(Invalid) !in classes && (exists i :: 0 <= i < |classes| && classes[i].Some?) ==> Dominates(c, classes)
  {
    var best: Option<AccessClass> := None;
    var bestRank: int := -1;
    for i := 0 to |classes|
      invariant Some(Invalid) !in classes[..i]
      invariant best.None? <==> forall j :: 0 <= j < i ==> classes[j].None?
      invariant bestRank == if best.Some? then Rank(best.value) else -1
      invariant best.Some? ==> Some(Known(best.value)) in classes[..i]
      invariant forall j :: 0 <= j < i && classes[j].Some? && classes[j].value.Known? ==>
                  Rank(classes[j].value.value) <= bestRank
    {
      if classes[i].Some? {
        if classes[i].value.Invalid? {
          return UserSuppliedPrivate;
        }
        var rank := Rank(classes[i].value.value);
        if rank > bestRank {
          best, bestRank := Some(classes[i].value.value), rank;
        }
      }
    }
    assert classes[..|classes|] == classes;
    c := if best.Some? then best.value else UserSuppliedPrivate;
  }

  /** reconcile_access_class: the more restrictive of the two. */
  method Reconcile(stored: AccessClass, incoming: AccessClass) returns (c: AccessClass)
    ensures c == Stricter(stored, incoming)
  {
    var classes := [Some(Known(stored)), Some(Known(incoming))];
    c := MostRestrictive(classes);
    assert classes[0].value.value == stored && classes[1].value.value == incoming;
  }

  /** Only an open-access fetch may leave a file open access. */
  function DefaultAccess(m: Acquisition): AccessClass {
    if m == OpenAccessFetch then OpenAccess else UserSuppliedPrivate
  }
}
