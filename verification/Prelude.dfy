/** Types and order facts shared by every protocol model. */
module Prelude {
  datatype Option<+T> = None | Some(value: T)

  /** Nanoseconds on some clock. A model with one clock says so; a model with two names both. */
  type Time = int

  const SECOND: Time := 1_000_000_000

  /** `before` orders the members of `xs`: what ORDER BY on a unique key does. */
  ghost predicate Orders<T(!new)>(before: (T, T) -> bool, xs: set<T>) {
    && (forall a, b :: a in xs && b in xs ==> before(a, b) || before(b, a))
    && (forall a, b, c :: a in xs && b in xs && c in xs && before(a, b) && before(b, c) ==> before(a, c))
  }

  ghost predicate IsFirst<T(!new)>(before: (T, T) -> bool, xs: set<T>, m: T) {
    m in xs && forall o :: o in xs ==> before(m, o)
  }

  lemma First<T(!new)>(before: (T, T) -> bool, xs: set<T>) returns (m: T)
    requires xs != {} && Orders(before, xs)
    ensures IsFirst(before, xs, m)
  {
    m :| m in xs;
    if xs != {m} {
      var other := First(before, xs - {m});
      if !before(m, other) {
        m := other;
      }
    }
  }

  lemma GreatestFirst(xs: set<nat>)
    ensures Orders((a: nat, b: nat) => a >= b, xs)
  {
  }

  /** There is always another identity. */
  lemma Unused(used: set<nat>) returns (q: nat)
    ensures q !in used
  {
    q := 0;
    if used != {} {
      GreatestFirst(used);
      var most := First((a: nat, b: nat) => a >= b, used);
      q := most + 1;
    }
  }
}
