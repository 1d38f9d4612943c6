/** Shared helpers: optional values, results, machine-integer limits. */
module Prelude {

  datatype Option<+T> = None | Some(value: T)

  datatype Result<+T, +E> = Ok(value: T) | Err(error: E)

  /** One past the largest value of the source's unsigned 64-bit integers. */
  const U64_LIMIT: nat := 0x1_0000_0000_0000_0000

  type u64 = x: nat | x < 0x1_0000_0000_0000_0000

  type byte = x: nat | x < 256

  /** A non-empty set of numbers has a least element. */
  lemma LeastNat(s: set<nat>) returns (k: nat)
    requires s != {}
    ensures k in s && forall x :: x in s ==> k <= x
  {
    k :| k in s;
    var rest := s - {k};
    assert forall x :: x in s ==> x == k || x in rest;
    if rest != {} {
      var k' := LeastNat(rest);
      if k' < k { k := k'; }
    }
  }

  /** A non-empty set of numbers has a greatest element. */
  lemma GreatestNat(s: set<nat>) returns (k: nat)
    requires s != {}
    ensures k in s && forall x :: x in s ==> x <= k
  {
    k :| k in s;
    var rest := s - {k};
    assert forall x :: x in s ==> x == k || x in rest;
    if rest != {} {
      var k' := GreatestNat(rest);
      if k' > k { k := k'; }
    }
  }
}
