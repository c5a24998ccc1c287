/** An optional value, and a way to keep the verifier from unfolding a definition. */
module Common {
  datatype Option<+T> = None | Some(value: T)

  /**
   * A predicate of the form `forall s: Seal :: P(x, s)` says the same as `P(x, Seal)` but is unfolded only where
   * a proof mentions `P(x, Seal)`.
   */
  datatype Seal = Seal
}

/** Occurrences of one sequence in another. */
module Occurrence {
  import opened Common

  ghost predicate HasBody<T>(c: seq<T>, i: nat, r: seq<T>, s: Seal)
    requires i + |r| <= |c|
  {
    c[i..i + |r|] == r
  }

  /** `r` stands in `c` at `i`. */
  ghost predicate Has<T(!new)>(c: seq<T>, i: nat, r: seq<T>) {
    i + |r| <= |c| && forall s: Seal :: HasBody(c, i, r, s)
  }

  lemma {:induction false} HasSplit<T(!new)>(c: seq<T>, i: nat, a: seq<T>, b: seq<T>, r: seq<T>)
    requires Has(c, i, r) && r == a + b
    ensures Has(c, i, a) && Has(c, i + |a|, b)
  {
    assert HasBody(c, i, r, Seal);
    assert c[i..i + |a|] == r[..|a|];
    assert c[i + |a|..i + |a| + |b|] == r[|a|..];
  }

  lemma {:induction false} HasAt<T(!new)>(c: seq<T>, i: nat, r: seq<T>, k: nat)
    requires Has(c, i, r) && k < |r|
    ensures c[i + k] == r[k]
  {
    assert HasBody(c, i, r, Seal);
    assert c[i..i + |r|][k] == c[i + k];
  }

  lemma {:induction false} HasSplit3<T(!new)>(c: seq<T>, i: nat, a: seq<T>, b: seq<T>, e: seq<T>, r: seq<T>)
    requires Has(c, i, r) && r == a + b + e
    ensures Has(c, i, a) && Has(c, i + |a|, b) && Has(c, i + |a| + |b|, e)
  {
    HasSplit(c, i, a + b, e, r);
    HasSplit(c, i, a, b, a + b);
  }

  lemma {:induction false} HasSplit5<T(!new)>(c: seq<T>, i: nat, a: seq<T>, b: seq<T>, d: seq<T>, e: seq<T>, f: seq<T>,
                                        r: seq<T>)
    requires Has(c, i, r) && r == a + b + d + e + f
    ensures Has(c, i, a) && Has(c, i + |a|, b) && Has(c, i + |a| + |b|, d) && Has(c, i + |a| + |b| + |d|, e)
    ensures Has(c, i + |a| + |b| + |d| + |e|, f)
  {
    HasSplit3(c, i, a + b + d, e, f, r);
    HasSplit3(c, i, a, b, d, a + b + d);
  }
}
