/** Powers modulo the largest 64-bit prime with 64-bit arithmetic only, and the key exchange built on
    them. */
module PowMod {

  const WORD := 0x1_0000_0000_0000_0000
  const P := 0xffff_ffff_ffff_ffc5
  const G := 5

  /** Unsigned 64-bit arithmetic wraps around. */
  function Wrap(x: int): (r: nat)
    ensures r < WORD && (0 <= x < WORD ==> r == x)
  {
    x % WORD
  }

  function Pow(a: nat, b: nat): nat {
    if b == 0 then 1 else a * Pow(a, b - 1)
  }

  // ---------------------------------------------------------------- multiplication

  lemma Divide(x: nat, m: nat, q: nat)
    requires m < P && m + P * q == x
    ensures m == x % P
  {
    assert x % P == m by {
      assert x == P * q + m;
      assert x / P == q;
    }
  }

  /** One turn of the loop: `c1` and `c2` say where P was taken off. */
  lemma Turn(m: nat, a: nat, b: nat, q: nat, c1: nat, c2: nat, m': nat, a': nat)
    requires b % 2 == 1 ==> m' + P * c1 == m + a
    requires b % 2 == 0 ==> m' == m && c1 == 0
    requires a' + P * c2 == 2 * a
    ensures m' + a' * (b / 2) + P * (q + c1 + c2 * (b / 2)) == m + a * b + P * q
  {
    var h := b / 2;
    assert b == 2 * h + b % 2;
    calc {
      m' + a' * h + P * (q + c1 + c2 * h);
      m' + P * c1 + (a' * h + (P * c2) * h) + P * q;
      { Distribute(a', P * c2, h); }
      m' + P * c1 + (a' + P * c2) * h + P * q;
      m' + P * c1 + 2 * a * h + P * q;
    }
    if b % 2 == 1 {
      assert a * b == 2 * a * h + a by { assert a * (2 * h + 1) == 2 * a * h + a; }
    } else {
      assert a * b == 2 * a * h by { assert a * (2 * h) == 2 * a * h; }
    }
  }

  lemma Distribute(x: int, y: int, h: int)
    ensures x * h + y * h == (x + y) * h
  {
  }

  function MulP(a: nat, b: nat): (m: nat)
    ensures m < P
  {
    (a * b) % P
  }

  /** a * b modulo P, for a no greater than P, without ever leaving 64 bits. */
  method MulModP(a0: nat, b0: nat) returns (m: nat)
    requires a0 <= P && b0 < WORD
    ensures m == MulP(a0, b0)
  {
    m := 0;
    var a: nat, b: nat := a0, b0;
    ghost var q: nat := 0;
    while b != 0
      invariant a <= P && m < P && m + a * b + P * q == a0 * b0
      decreases b
    {
      ghost var m1, a1 := m, a;
      ghost var c1: nat, c2: nat := 0, 0;
      if b % 2 == 1 {
        var t := Wrap(P - a);
        if m >= t {
          m := Wrap(m - t);
          c1 := 1;
        } else {
          m := Wrap(m + a);
        }
      }
      if a >= Wrap(P - a) {
        TwiceWraps(a);
        a := Wrap(Wrap(a * 2) - P);
        c2 := 1;
      } else {
        a := Wrap(a * 2);
      }
      Turn(m1, a1, b, q, c1, c2, m, a);
      q := q + c1 + c2 * (b / 2);
      b := b / 2;
    }
    Divide(a0 * b0, m, q);
  }

  /** Doubling overflows, but taking off P brings it back. */
  lemma TwiceWraps(a: nat)
    requires a <= P <= 2 * a
    ensures Wrap(Wrap(a * 2) - P) == 2 * a - P
  {
  }

  // ---------------------------------------------------------------- powers

  /** Factors may be reduced before they are multiplied. */
  lemma MulMod(x: nat, y: nat)
    ensures (x * y) % P == ((x % P) * (y % P)) % P
  {
    var q, r := x / P, x % P;
    var u, v := y / P, y % P;
    assert x * y == P * (q * u * P + q * v + u * r) + r * v by {
      assert x == P * q + r && y == P * u + v;
      Expand(q, r, u, v);
    }
    AddMultiple(r * v, q * u * P + q * v + u * r);
  }

  lemma Expand(q: nat, r: nat, u: nat, v: nat)
    ensures (P * q + r) * (P * u + v) == P * (q * u * P + q * v + u * r) + r * v
  {
    calc {
      (P * q + r) * (P * u + v);
      (P * q) * (P * u) + (P * q) * v + r * (P * u) + r * v;
      { assert (P * q) * (P * u) == P * (q * u * P); }
      P * (q * u * P) + P * (q * v) + P * (u * r) + r * v;
    }
  }

  lemma AddMultiple(x: nat, k: nat)
    ensures (P * k + x) % P == x % P
  {
    var q, r := x / P, x % P;
    assert P * k + x == P * (k + q) + r;
    assert (P * k + x) / P == k + q;
  }

  lemma {:induction false} PowAdd(a: nat, b: nat, c: nat)
    ensures Pow(a, b + c) == Pow(a, b) * Pow(a, c)
    decreases b
  {
    if b > 0 {
      PowAdd(a, b - 1, c);
      assert a * (Pow(a, b - 1) * Pow(a, c)) == (a * Pow(a, b - 1)) * Pow(a, c);
    }
  }

  lemma {:induction false} PowMul(a: nat, b: nat, c: nat)
    ensures Pow(Pow(a, b), c) == Pow(a, b * c)
    decreases c
  {
    if c > 0 {
      PowMul(a, b, c - 1);
      PowAdd(a, b, b * (c - 1));
      assert b + b * (c - 1) == b * c;
    } else {
      assert b * c == 0;
    }
  }

  /** Only the residue of the base matters. */
  lemma {:induction false} PowMod(a: nat, b: nat)
    ensures Pow(a, b) % P == Pow(a % P, b) % P
    decreases b
  {
    if b > 0 {
      PowMod(a, b - 1);
      MulMod(a, Pow(a, b - 1));
      MulMod(a % P, Pow(a % P, b - 1));
      assert a % P % P == a % P;
    }
  }

  /** `t` is a^b modulo P. */
  predicate IsPower(t: nat, a: nat, b: nat) { t % P == Pow(a, b) % P }

  /** What squaring, and once more multiplying, make of the power so far. */
  lemma SquareStep(a: nat, b: nat, t: nat)
    requires b > 1 && IsPower(t, a, b / 2)
    ensures var u := MulP(t, t); IsPower(if b % 2 == 1 then MulP(u, a) else u, a, b)
  {
    PowHalf(a, b);
    SquareMod(t, Pow(a, b / 2), a);
    hide MulP;
  }

  lemma PowHalf(a: nat, b: nat)
    ensures var h := Pow(a, b / 2); Pow(a, b) == if b % 2 == 1 then h * h * a else h * h
  {
    var h := Pow(a, b / 2);
    PowAdd(a, b / 2, b / 2);
    if b % 2 == 1 {
      assert b == b / 2 + b / 2 + 1;
      assert Pow(a, b) == a * (h * h);
      assert a * (h * h) == h * h * a;
    } else {
      assert b == b / 2 + b / 2;
    }
  }

  lemma SquareMod(t: nat, h: nat, a: nat)
    requires t % P == h % P
    ensures MulP(t, t) % P == (h * h) % P
    ensures MulP(MulP(t, t), a) % P == (h * h * a) % P
  {
    MulMod(t, t);
    MulMod(h, h);
    SameFactor((t * t) % P, h * h, a);
    assert forall x: nat :: x % P % P == x % P;
  }

  lemma SameFactor(x: nat, y: nat, a: nat)
    requires x == y % P
    ensures (x * a) % P == (y * a) % P
  {
    var q := y / P;
    SpreadOver(P, q, x, a);
    AddMultiple(x * a, q * a);
  }

  lemma SpreadOver(p: nat, q: nat, x: nat, a: nat)
    ensures (p * q + x) * a == p * (q * a) + x * a
  {
  }

  /** a^b modulo P by squaring. */
  method PowModP(a: nat, b: nat) returns (t: nat)
    requires a <= P && 1 <= b < WORD
    ensures IsPower(t, a, b) && if b == 1 then t == a else t < P
    decreases b
  {
    assert IsPower(a, a, 1) by { assert Pow(a, 1) == a * Pow(a, 0) == a; }
    hide Pow, IsPower, MulP;
    if b == 1 {
      return a;
    }
    t := PowModP(a, b / 2);
    SquareStep(a, b, t);
    t := MulModP(t, t);
    if b % 2 == 1 {
      t := MulModP(t, a);
    }
  }

  /** a^b modulo P for any 64-bit base: congruent to the power, and fully reduced but for P to the
      power of 1, which comes back as P. */
  method PowP(a: nat, b: nat) returns (r: nat)
    requires a < WORD && 1 <= b < WORD
    ensures r % P == Pow(a, b) % P
    ensures r == if a == P && b == 1 then P else Pow(a, b) % P
  {
    var x := if a > P then a % P else a;
    PowMod(a, b);
    PowMod(x, b);
    r := PowModP(x, b);
  }

  // ---------------------------------------------------------------- key exchange

  datatype Option<T> = None | Some(value: T)

  /** The public value for a private key; zero is refused. */
  method DhExchange(x: nat) returns (r: Option<nat>)
    requires x < WORD
    ensures r == if x == 0 then None else Some(Pow(G, x) % P)
  {
    if x == 0 {
      return None;
    }
    var v := PowP(G, x);
    r := Some(v);
  }

  /** The secret for the other side's public value and one's own private key; zeros are refused. */
  method DhSecret(x: nat, y: nat) returns (r: Option<nat>)
    requires x < WORD && y < WORD
    ensures x == 0 || y == 0 ==> r == None
    ensures x != 0 && y != 0 && x != P ==> r == Some(Pow(x, y) % P)
  {
    if x == 0 || y == 0 {
      return None;
    }
    var v := PowP(x, y);
    r := Some(v);
  }

  /** A public value is never zero: 5 has an inverse modulo P. */
  lemma {:induction false} NeverZero(x: nat)
    ensures Pow(G, x) % P != 0
    decreases x
  {
    if x > 0 {
      NeverZero(x - 1);
      var w := Pow(G, x - 1);
      if (G * w) % P == 0 {
        // 5 * INVERSE == 2 * P + 1
        var inverse := (2 * P + 1) / G;
        MulMod(inverse, G * w);
        assert (inverse * (G * w)) % P == 0 by { assert (inverse % P) * 0 == 0; }
        assert inverse * (G * w) == P * (2 * w) + w by { assert inverse * G == 2 * P + 1; assert inverse * (G * w) == (inverse * G) * w; }
        AddMultiple(w, 2 * w);
        assert false;
      }
    }
  }

  /** Two sides with private keys x and y end up with the same secret. */
  method Agree(x: nat, y: nat) returns (s: nat, t: nat)
    requires 0 < x < WORD && 0 < y < WORD
    ensures s == t == Pow(G, x * y) % P
  {
    var gx := DhExchange(x);
    var gy := DhExchange(y);
    NeverZero(x);
    NeverZero(y);
    var a := DhSecret(gy.value, x);
    var b := DhSecret(gx.value, y);
    SameSecret(x, y);
    s, t := a.value, b.value;
  }

  lemma SameSecret(x: nat, y: nat)
    ensures Pow(Pow(G, x) % P, y) % P == Pow(G, x * y) % P
    ensures Pow(Pow(G, y) % P, x) % P == Pow(G, x * y) % P
  {
    PowMod(Pow(G, x), y);
    PowMod(Pow(G, y), x);
    PowMul(G, x, y);
    PowMul(G, y, x);
    assert x * y == y * x;
  }
}
