/** `max(values) + 1` of a finite set, zero for the empty one. */
module UpperBounds {
  predicate IsBound(values: set<int>, b: int) {
    if values == {} then b == 0 else b - 1 in values && forall v :: v in values ==> v < b
  }

  /** The bound after one more value; the first value always sets it. */
  function Raised(first: bool, b: int, v: int): int {
    if first || b <= v then v + 1 else b
  }

  lemma {:induction false} BoundGrows(values: set<int>, b: int, v: int)
    requires IsBound(values, b)
    ensures IsBound(values + {v}, Raised(values == {}, b, v))
  {
  }

  lemma {:induction false} BoundExists(values: set<int>) returns (b: int)
    ensures IsBound(values, b)
    decreases |values|
  {
    if values == {} {
      b := 0;
    } else {
      var v := AnyOf(values);
      var rest := values - {v};
      b := BoundExists(rest);
      BoundGrows(rest, b, v);
      assert rest + {v} == values;
      b := Raised(rest == {}, b, v);
    }
  }

  lemma {:induction false} AnyOf(values: set<int>) returns (v: int)
    requires values != {}
    ensures v in values
  {
    assert (forall w :: w !in values) ==> values == {};
    v :| v in values;
  }
}
