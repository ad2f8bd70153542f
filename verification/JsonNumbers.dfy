/** Integers written to a JSON cursor and read back as IEEE doubles. */
module JsonNumbers {

  const EXACT: nat := 0x20_0000_0000_0000

  /** The distance between neighbouring doubles around `a`. */
  function Spacing(a: nat): (s: nat)
    ensures s >= 1
  {
    if a < EXACT then 1 else 2 * Spacing(a / 2)
  }

  /** Round to the nearest double, ties to the even mantissa. */
  function Nearest(a: nat): nat {
    var s := Spacing(a);
    var q, r := a / s, a % s;
    if 2 * r < s || (2 * r == s && q % 2 == 0) then q * s else (q + 1) * s
  }

  function Float64(v: int): int {
    if v < 0 then 0 - Nearest(0 - v) else Nearest(v)
  }

  lemma {:induction false} ExactBelow(v: int)
    requires v <= EXACT && 0 - v <= EXACT
    ensures Float64(v) == v
  {
    assert Spacing(EXACT) == 2 * Spacing(EXACT / 2);
  }

  /** A value survives exactly when it is a multiple of the spacing at its size. */
  lemma {:induction false} ExactIff(a: nat)
    ensures Float64(a) == a <==> a % Spacing(a) == 0
  {
    var s := Spacing(a);
    var q, r := a / s, a % s;
    assert a == q * s + r;
    assert (q + 1) * s == q * s + s;
  }

  /** The spacing is the power of two that leaves 53 significant bits. */
  lemma {:induction false} SpacingIs(a: nat)
    ensures a < EXACT * Spacing(a) && (Spacing(a) > 1 ==> EXACT * Spacing(a) <= 2 * a)
    ensures Spacing(a) == 1 || Spacing(a) == 2 * Spacing(a / 2)
  {
    if a >= EXACT {
      SpacingIs(a / 2);
      assert a / 2 >= EXACT / 2;
    }
  }

  /** A value is read back as a multiple of the spacing at most half of it away, the even multiple in
      the middle between two; a negative value as its opposite is. */
  lemma {:induction false} NearestIs(a: nat) returns (k: nat)
    ensures Float64(a) == k * Spacing(a) && Float64(0 - a) == 0 - Float64(a)
    ensures 2 * Float64(a) <= 2 * a + Spacing(a) && 2 * a <= 2 * Float64(a) + Spacing(a)
    ensures 2 * Float64(a) == 2 * a + Spacing(a) || 2 * a == 2 * Float64(a) + Spacing(a) ==> k % 2 == 0
  {
    var q, r := NearestForm(a);
    RoundedNear(a, Spacing(a), q, r);
    Odd(a);
    k := if 2 * r < Spacing(a) || (2 * r == Spacing(a) && q % 2 == 0) then q else q + 1;
  }

  lemma {:induction false} NearestForm(a: nat) returns (q: nat, r: nat)
    ensures a == q * Spacing(a) + r && r < Spacing(a)
    ensures Float64(a) ==
      if 2 * r < Spacing(a) || (2 * r == Spacing(a) && q % 2 == 0) then q * Spacing(a) else (q + 1) * Spacing(a)
  {
    var s := Spacing(a);
    q, r := a / s, a % s;
    DivMod(a, s);
    assert Float64(a) == Nearest(a);
  }

  lemma DivMod(a: nat, s: nat)
    requires s > 0
    ensures a == a / s * s + a % s && a % s < s
  {
  }

  lemma {:induction false} Odd(a: nat)
    ensures Float64(0 - a) == 0 - Float64(a)
  {
    assert Nearest(0) == 0;
  }

  lemma {:induction false} RoundedNear(a: nat, s: nat, q: nat, r: nat)
    requires a == q * s + r && r < s
    ensures 2 * r <= s ==> 2 * (q * s) <= 2 * a + s && 2 * a <= 2 * (q * s) + s
    ensures 2 * r >= s ==> 2 * ((q + 1) * s) <= 2 * a + s && 2 * a <= 2 * ((q + 1) * s) + s
    ensures 2 * (q * s) == 2 * a + s || 2 * a == 2 * (q * s) + s ==> 2 * r == s
    ensures 2 * ((q + 1) * s) == 2 * a + s || 2 * a == 2 * ((q + 1) * s) + s ==> 2 * r == s
  {
    assert (q + 1) * s == q * s + s;
  }

  /** Just past 2^53 neighbouring integers meet. */
  lemma {:induction false} FirstLoss()
    ensures Float64(EXACT + 1) == EXACT
  {
    assert Spacing(EXACT + 1) == 2 * Spacing((EXACT + 1) / 2) == 2;
  }
}
