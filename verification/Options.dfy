/** A value that may be missing, and sequences collected piece by piece where each piece may be missing. */
module Options {
  datatype Option<T> = None | Some(value: T)

  /** Two parts one behind the other, if there are both. */
  function Joined<T>(a: Option<seq<T>>, b: Option<seq<T>>): Option<seq<T>> {
    if a.Some? && b.Some? then Some(a.value + b.value) else None
  }

  lemma {:induction false} JoinedEmpty<T>(c: Option<seq<T>>)
    ensures Joined(Some([]), c) == c
  {
    if c.Some? { assert [] + c.value == c.value; }
  }

  lemma {:induction false} JoinedStep<T>(a: seq<T>, b: seq<T>, c: Option<seq<T>>)
    ensures Joined(Some(a), Joined(Some(b), c)) == Joined(Some(a + b), c)
  {
    if c.Some? { assert a + (b + c.value) == (a + b) + c.value; }
  }
}
