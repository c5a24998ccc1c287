/**
 * Sums of characteristic two with two commuting additive maps, `d` (doubling) and `r` (rotation, of order four):
 * all that the inverse of the column transformation of AES rests on.
 */
module AesAlgebra {

  datatype Space<!G> = Space(add: (G, G) -> G, zero: G, d: G -> G, r: G -> G)

  ghost predicate LawsAt<G>(s: Space<G>, x: G, y: G, z: G) {
    && s.add(s.add(x, y), z) == s.add(x, s.add(y, z))
    && s.add(x, y) == s.add(y, x)
    && s.add(x, x) == s.zero && s.add(x, s.zero) == x
    && s.d(s.add(x, y)) == s.add(s.d(x), s.d(y))
    && s.r(s.add(x, y)) == s.add(s.r(x), s.r(y))
    && s.d(s.r(x)) == s.r(s.d(x))
    && s.r(s.r(s.r(s.r(x)))) == x
  }

  ghost predicate Laws<G(!new)>(s: Space<G>) {
    forall x, y, z :: LawsAt(s, x, y, z)
  }

  // ----- single laws

  lemma {:induction false} Assoc<G(!new)>(s: Space<G>, x: G, y: G, z: G)
    requires Laws(s)
    ensures s.add(s.add(x, y), z) == s.add(x, s.add(y, z))
  {
    assert LawsAt(s, x, y, z);
  }

  lemma {:induction false} Comm<G(!new)>(s: Space<G>, x: G, y: G)
    requires Laws(s)
    ensures s.add(x, y) == s.add(y, x)
  {
    assert LawsAt(s, x, y, y);
  }

  lemma {:induction false} Self<G(!new)>(s: Space<G>, x: G)
    requires Laws(s)
    ensures s.add(x, x) == s.zero && s.add(x, s.zero) == x
  {
    assert LawsAt(s, x, x, x);
  }

  lemma {:induction false} AddD<G(!new)>(s: Space<G>, x: G, y: G)
    requires Laws(s)
    ensures s.d(s.add(x, y)) == s.add(s.d(x), s.d(y))
  {
    assert LawsAt(s, x, y, y);
  }

  lemma {:induction false} AddR<G(!new)>(s: Space<G>, x: G, y: G)
    requires Laws(s)
    ensures s.r(s.add(x, y)) == s.add(s.r(x), s.r(y))
  {
    assert LawsAt(s, x, y, y);
  }

  lemma {:induction false} Maps<G(!new)>(s: Space<G>, x: G)
    requires Laws(s)
    ensures s.d(s.r(x)) == s.r(s.d(x)) && s.r(s.r(s.r(s.r(x)))) == x
  {
    assert LawsAt(s, x, x, x);
  }

  lemma {:induction false} Medial<G(!new)>(s: Space<G>, a: G, b: G, c: G, d: G)
    requires Laws(s)
    ensures s.add(s.add(a, b), s.add(c, d)) == s.add(s.add(a, c), s.add(b, d))
  {
    Assoc(s, a, b, s.add(c, d));
    Assoc(s, b, c, d);
    Comm(s, b, c);
    Assoc(s, c, b, d);
    Assoc(s, a, c, s.add(b, d));
  }

  /** Equal terms cancel. */
  lemma {:induction false} Cancel<G(!new)>(s: Space<G>, a: G, x: G, b: G)
    requires Laws(s)
    ensures s.add(s.add(a, x), s.add(b, x)) == s.add(a, b)
    ensures s.add(s.add(a, x), s.add(x, b)) == s.add(a, b)
    ensures s.add(s.add(a, x), x) == a
  {
    Medial(s, a, x, b, x);
    Self(s, x);
    Self(s, s.add(a, b));
    Comm(s, x, b);
    Assoc(s, a, x, x);
    Self(s, a);
  }

  // ----- the column transformation

  /** Three times the rotated column. */
  function Third<G>(s: Space<G>, c: G): G {
    s.add(s.d(s.r(c)), s.r(c))
  }

  function Half<G>(s: Space<G>, c: G): G {
    s.add(s.d(c), Third(s, c))
  }

  function ThreeQuarters<G>(s: Space<G>, c: G): G {
    s.add(Half(s, c), s.r(s.r(c)))
  }

  /** Coefficients 2, 3, 1, 1 for the four rotations of the column. */
  function Mix<G>(s: Space<G>, c: G): G {
    s.add(ThreeQuarters(s, c), s.r(s.r(s.r(c))))
  }

  /** What `Mix` adds when applied twice: four times the sum of opposite rows. */
  function Extra<G>(s: Space<G>, c: G): G {
    s.add(s.d(s.d(c)), s.d(s.d(s.r(s.r(c)))))
  }

  function Times9<G>(s: Space<G>, c: G): G { s.add(s.d(s.d(s.d(c))), c) }
  function Times11<G>(s: Space<G>, c: G): G { s.add(s.add(s.d(s.d(s.d(c))), s.d(c)), c) }
  function Times13<G>(s: Space<G>, c: G): G { s.add(s.add(s.d(s.d(s.d(c))), s.d(s.d(c))), c) }
  function Times14<G>(s: Space<G>, c: G): G { s.add(s.add(s.d(s.d(s.d(c))), s.d(s.d(c))), s.d(c)) }

  /** Coefficients 14, 11, 13, 9. */
  function InvMix<G>(s: Space<G>, c: G): G {
    s.add(s.add(s.add(Times14(s, c), Times11(s, s.r(c))), Times13(s, s.r(s.r(c)))), Times9(s, s.r(s.r(s.r(c)))))
  }

  // ----- additivity

  lemma {:induction false} MixAdds<G(!new)>(s: Space<G>, x: G, y: G)
    requires Laws(s)
    ensures Third(s, s.add(x, y)) == s.add(Third(s, x), Third(s, y))
    ensures Half(s, s.add(x, y)) == s.add(Half(s, x), Half(s, y))
    ensures ThreeQuarters(s, s.add(x, y)) == s.add(ThreeQuarters(s, x), ThreeQuarters(s, y))
    ensures Mix(s, s.add(x, y)) == s.add(Mix(s, x), Mix(s, y))
  {
    AddR(s, x, y);
    AddD(s, s.r(x), s.r(y));
    AddD(s, x, y);
    AddR(s, s.r(x), s.r(y));
    AddR(s, s.r(s.r(x)), s.r(s.r(y)));
    Medial(s, s.d(s.r(x)), s.d(s.r(y)), s.r(x), s.r(y));
    Medial(s, s.d(x), s.d(y), Third(s, x), Third(s, y));
    Medial(s, Half(s, x), Half(s, y), s.r(s.r(x)), s.r(s.r(y)));
    Medial(s, ThreeQuarters(s, x), ThreeQuarters(s, y), s.r(s.r(s.r(x))), s.r(s.r(s.r(y))));
  }

  lemma {:induction false} Additive4<G(!new)>(s: Space<G>, a: G, b: G, c: G, d: G, e: G, f: G, g: G, h: G)
    requires Laws(s)
    ensures s.add(s.add(s.add(s.add(a, e), s.add(b, f)), s.add(c, g)), s.add(d, h))
            == s.add(s.add(s.add(s.add(a, b), c), d), s.add(s.add(s.add(e, f), g), h))
  {
    Medial(s, a, e, b, f);
    Medial(s, s.add(a, b), s.add(e, f), c, g);
    Medial(s, s.add(s.add(a, b), c), s.add(s.add(e, f), g), d, h);
  }

  lemma {:induction false} TimesAdd<G(!new)>(s: Space<G>, x: G, y: G)
    requires Laws(s)
    ensures Times9(s, s.add(x, y)) == s.add(Times9(s, x), Times9(s, y))
    ensures Times11(s, s.add(x, y)) == s.add(Times11(s, x), Times11(s, y))
    ensures Times13(s, s.add(x, y)) == s.add(Times13(s, x), Times13(s, y))
    ensures Times14(s, s.add(x, y)) == s.add(Times14(s, x), Times14(s, y))
  {
    var x2, y2 := s.d(x), s.d(y);
    var x4, y4 := s.d(x2), s.d(y2);
    var x8, y8 := s.d(x4), s.d(y4);
    AddD(s, x, y);
    AddD(s, x2, y2);
    AddD(s, x4, y4);
    Medial(s, x8, y8, x, y);
    Medial(s, x8, y8, x2, y2);
    Medial(s, x8, y8, x4, y4);
    Medial(s, s.add(x8, x2), s.add(y8, y2), x, y);
    Medial(s, s.add(x8, x4), s.add(y8, y4), x, y);
    Medial(s, s.add(x8, x4), s.add(y8, y4), x2, y2);
  }

  lemma {:induction false} InvMixAdds<G(!new)>(s: Space<G>, x: G, y: G)
    requires Laws(s)
    ensures InvMix(s, s.add(x, y)) == s.add(InvMix(s, x), InvMix(s, y))
  {
    var rx, ry := s.r(x), s.r(y);
    var rrx, rry := s.r(rx), s.r(ry);
    AddR(s, x, y);
    AddR(s, rx, ry);
    AddR(s, rrx, rry);
    TimesAdd(s, x, y);
    TimesAdd(s, rx, ry);
    TimesAdd(s, rrx, rry);
    TimesAdd(s, s.r(rrx), s.r(rry));
    Additive4(s, Times14(s, x), Times11(s, rx), Times13(s, rrx), Times9(s, s.r(rrx)),
              Times14(s, y), Times11(s, ry), Times13(s, rry), Times9(s, s.r(rry)));
  }

  // ----- squares: in characteristic two, the square of a sum of commuting maps is the sum of their squares

  lemma {:induction false} SquareThird<G(!new)>(s: Space<G>, c: G)
    requires Laws(s)
    ensures Third(s, Third(s, c)) == s.add(s.d(s.d(s.r(s.r(c)))), s.r(s.r(c)))
  {
    var rc := s.r(c);
    var drc, rrc := s.d(rc), s.r(rc);
    MixAdds(s, drc, rc);
    Maps(s, rc);
    assert s.r(drc) == s.d(rrc);
    Cancel(s, s.d(s.d(rrc)), s.d(rrc), rrc);
  }

  lemma {:induction false} ThirdCommutes<G(!new)>(s: Space<G>, c: G)
    requires Laws(s)
    ensures s.d(Third(s, c)) == Third(s, s.d(c)) && s.r(Third(s, c)) == Third(s, s.r(c))
  {
    Maps(s, c);
    Maps(s, s.r(c));
    AddD(s, s.d(s.r(c)), s.r(c));
    AddR(s, s.d(s.r(c)), s.r(c));
  }

  lemma {:induction false} SquareHalf<G(!new)>(s: Space<G>, c: G)
    requires Laws(s)
    ensures Half(s, Half(s, c)) == s.add(s.d(s.d(c)), Third(s, Third(s, c)))
  {
    var t, dc := Third(s, c), s.d(c);
    MixAdds(s, dc, t);
    ThirdCommutes(s, c);
    Cancel(s, s.d(dc), Third(s, dc), Third(s, t));
  }

  lemma {:induction false} HalfCommutes<G(!new)>(s: Space<G>, c: G)
    requires Laws(s)
    ensures s.r(Half(s, c)) == Half(s, s.r(c))
  {
    Maps(s, c);
    ThirdCommutes(s, c);
    AddR(s, s.d(c), Third(s, c));
  }

  lemma {:induction false} SquareThreeQuarters<G(!new)>(s: Space<G>, c: G)
    requires Laws(s)
    ensures ThreeQuarters(s, ThreeQuarters(s, c)) == s.add(Half(s, Half(s, c)), c)
  {
    var h, rc := Half(s, c), s.r(c);
    var rrc := s.r(rc);
    MixAdds(s, h, rrc);
    HalfCommutes(s, c);
    HalfCommutes(s, rc);
    assert s.r(s.r(h)) == Half(s, rrc);
    Maps(s, c);
    Cancel(s, Half(s, h), Half(s, rrc), c);
  }

  lemma {:induction false} ThreeQuartersCommutes<G(!new)>(s: Space<G>, c: G)
    requires Laws(s)
    ensures s.r(ThreeQuarters(s, c)) == ThreeQuarters(s, s.r(c))
  {
    HalfCommutes(s, c);
    AddR(s, Half(s, c), s.r(s.r(c)));
  }

  lemma {:induction false} SquareMix<G(!new)>(s: Space<G>, c: G)
    requires Laws(s)
    ensures Mix(s, Mix(s, c)) == s.add(ThreeQuarters(s, ThreeQuarters(s, c)), s.r(s.r(c)))
  {
    var q, rc := ThreeQuarters(s, c), s.r(c);
    var rrc := s.r(rc);
    var rrrc := s.r(rrc);
    MixAdds(s, q, rrrc);
    ThreeQuartersCommutes(s, c);
    ThreeQuartersCommutes(s, rc);
    ThreeQuartersCommutes(s, rrc);
    assert s.r(s.r(s.r(q))) == ThreeQuarters(s, rrrc);
    Maps(s, c);
    Maps(s, rrc);
    assert s.r(s.r(s.r(rrrc))) == rrc;
    Cancel(s, ThreeQuarters(s, q), ThreeQuarters(s, rrrc), rrc);
  }

  lemma {:induction false} MixTwice<G(!new)>(s: Space<G>, c: G)
    requires Laws(s)
    ensures Mix(s, Mix(s, c)) == s.add(c, Extra(s, c))
  {
    var p, q, w := s.d(s.d(c)), s.d(s.d(s.r(s.r(c)))), s.r(s.r(c));
    SquareThird(s, c);
    SquareHalf(s, c);
    SquareThreeQuarters(s, c);
    SquareMix(s, c);
    assert Mix(s, Mix(s, c)) == s.add(s.add(s.add(p, s.add(q, w)), c), w);
    Assoc(s, p, q, w);
    Assoc(s, s.add(p, q), w, c);
    Comm(s, w, c);
    Assoc(s, s.add(p, q), c, w);
    Cancel(s, s.add(s.add(p, q), c), w, c);
    Comm(s, s.add(p, q), c);
  }

  lemma {:induction false} ExtraFacts<G(!new)>(s: Space<G>, x: G, y: G)
    requires Laws(s)
    ensures Extra(s, s.add(x, y)) == s.add(Extra(s, x), Extra(s, y))
    ensures s.r(Extra(s, x)) == Extra(s, s.r(x)) && s.r(s.r(Extra(s, x))) == Extra(s, x)
  {
    var rx, ry := s.r(x), s.r(y);
    var rrx, rry := s.r(rx), s.r(ry);
    AddD(s, x, y);
    AddD(s, s.d(x), s.d(y));
    AddR(s, x, y);
    AddR(s, rx, ry);
    AddD(s, rrx, rry);
    AddD(s, s.d(rrx), s.d(rry));
    Medial(s, s.d(s.d(x)), s.d(s.d(y)), s.d(s.d(rrx)), s.d(s.d(rry)));
    RotateExtra(s, x);
    RotateExtra(s, rx);
    Maps(s, x);
    Comm(s, s.d(s.d(rrx)), s.d(s.d(x)));
  }

  lemma {:induction false} RotateExtra<G(!new)>(s: Space<G>, x: G)
    requires Laws(s)
    ensures s.r(Extra(s, x)) == Extra(s, s.r(x))
  {
    var rrx := s.r(s.r(x));
    AddR(s, s.d(s.d(x)), s.d(s.d(rrx)));
    Maps(s, x);
    Maps(s, s.d(x));
    Maps(s, rrx);
    Maps(s, s.d(rrx));
  }

  lemma {:induction false} ExtraTwice<G(!new)>(s: Space<G>, c: G)
    requires Laws(s)
    ensures Extra(s, Extra(s, c)) == s.zero
  {
    ExtraFacts(s, c, c);
    Self(s, s.d(s.d(Extra(s, c))));
  }

  /** The fourth power of the transformation is the identity. */
  lemma {:induction false} MixFourTimes<G(!new)>(s: Space<G>, c: G)
    requires Laws(s)
    ensures Mix(s, Mix(s, Mix(s, Mix(s, c)))) == c
  {
    var x := Extra(s, c);
    MixTwice(s, c);
    MixTwice(s, s.add(c, x));
    ExtraFacts(s, c, x);
    ExtraTwice(s, c);
    Self(s, x);
    Cancel(s, c, x, c);
  }

  // ----- the inverse is the third power

  lemma {:induction false} MixOfExtra<G(!new)>(s: Space<G>, c: G)
    requires Laws(s)
    ensures Mix(s, Extra(s, c)) == s.add(s.add(s.d(Extra(s, c)), s.d(s.r(Extra(s, c)))), Extra(s, c))
  {
    var x, rx := Extra(s, c), s.r(Extra(s, c));
    ExtraFacts(s, c, c);
    assert s.r(s.r(x)) == x && s.r(s.r(s.r(x))) == rx;
    Assoc(s, s.d(x), s.d(rx), rx);
    var w := s.add(s.d(x), s.d(rx));
    Assoc(s, w, rx, x);
    Comm(s, rx, x);
    Assoc(s, w, x, rx);
    Cancel(s, s.add(w, x), rx, rx);
  }

  /** The parts of the coefficients above the threefold, gathered by power. */
  lemma {:induction false} Gather<G(!new)>(s: Space<G>, p: G, p1: G, p2: G, p3: G, q: G, q2: G)
    requires Laws(s)
    ensures s.add(s.add(s.add(s.add(p, q), p1), s.add(p2, q2)), p3)
            == s.add(s.add(s.add(p, p2), s.add(p1, p3)), s.add(q, q2))
  {
    Assoc(s, p, q, p1);
    Comm(s, q, p1);
    Assoc(s, p, p1, q);
    Medial(s, s.add(p, p1), q, p2, q2);
    var w, v := s.add(s.add(p, p1), p2), s.add(q, q2);
    Assoc(s, w, v, p3);
    Comm(s, v, p3);
    Assoc(s, w, p3, v);
    Assoc(s, s.add(p, p1), p2, p3);
    Medial(s, p, p1, p2, p3);
  }

  lemma {:induction false} HighPowers<G(!new)>(s: Space<G>, c: G)
    requires Laws(s)
    ensures var rc := s.r(c); var rrc := s.r(rc);
            s.d(Extra(s, c)) == s.add(s.d(s.d(s.d(c))), s.d(s.d(s.d(rrc)))) &&
            s.d(s.r(Extra(s, c))) == s.add(s.d(s.d(s.d(rc))), s.d(s.d(s.d(s.r(rrc)))))
  {
    var rc := s.r(c);
    AddD(s, s.d(s.d(c)), s.d(s.d(s.r(rc))));
    RotateExtra(s, c);
    AddD(s, s.d(s.d(rc)), s.d(s.d(s.r(s.r(rc)))));
  }

  lemma {:induction false} InvMixIsCube<G(!new)>(s: Space<G>, c: G)
    requires Laws(s)
    ensures InvMix(s, c) == Mix(s, Mix(s, Mix(s, c)))
  {
    var rc := s.r(c);
    var rrc := s.r(rc);
    var rrrc := s.r(rrc);
    var p, p1, p2, p3 := s.d(s.d(s.d(c))), s.d(s.d(s.d(rc))), s.d(s.d(s.d(rrc))), s.d(s.d(s.d(rrrc)));
    var q, q2 := s.d(s.d(c)), s.d(s.d(rrc));
    Assoc(s, p1, s.d(rc), rc);
    Additive4(s, s.add(p, q), p1, s.add(p2, q2), p3, s.d(c), Third(s, c), rrc, rrrc);
    Gather(s, p, p1, p2, p3, q, q2);
    HighPowers(s, c);
    MixOfExtra(s, c);
    assert InvMix(s, c) == s.add(Mix(s, Extra(s, c)), Mix(s, c));
    MixTwice(s, c);
    MixAdds(s, c, Extra(s, c));
    Comm(s, Mix(s, c), Mix(s, Extra(s, c)));
    CubeByHalves(s, c);
  }

  lemma {:induction false} CubeByHalves<G(!new)>(s: Space<G>, c: G)
    requires Laws(s)
    ensures Mix(s, Mix(s, Mix(s, c))) == Mix(s, s.add(c, Extra(s, c)))
  {
    MixTwice(s, c);
  }

  /** The inverse transformation undoes the transformation. */
  lemma {:induction false} InvMixUndoesMix<G(!new)>(s: Space<G>, c: G)
    requires Laws(s)
    ensures InvMix(s, Mix(s, c)) == c
  {
    InvMixIsCube(s, Mix(s, c));
    MixFourTimes(s, c);
  }
}
