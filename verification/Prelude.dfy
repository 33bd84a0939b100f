// Shared vocabulary of the model: optional values and the size of an image.
module Prelude {

  datatype Option<+T> = None | Some(value: T)

  ghost function Image<A, B>(s: set<A>, f: A -> B): set<B> {
    set a | a in s :: f(a)
  }

  ghost predicate InjectiveOn<A(!new), B>(s: set<A>, f: A -> B) {
    forall a, b :: a in s && b in s && f(a) == f(b) ==> a == b
  }

  /** An image is no larger than the set, and as large exactly when the function is injective on it. */
  lemma {:induction false} ImageSize<A(!new), B>(s: set<A>, f: A -> B)
    ensures |Image(s, f)| <= |s|
    ensures |Image(s, f)| == |s| <==> InjectiveOn(s, f)
  {
    if s != {} {
      var a :| a in s;
      var rest := s - {a};
      ImageSize(rest, f);
      assert Image(s, f) == Image(rest, f) + {f(a)};
      if f(a) in Image(rest, f) {
        var b :| b in rest && f(b) == f(a);
        assert Image(s, f) == Image(rest, f);
        assert !InjectiveOn(s, f);
      }
    }
  }
}
