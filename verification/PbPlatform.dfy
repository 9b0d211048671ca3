/** Little-endian machines are platforms: clearing the first bytes of a number there takes away its lowest
    digits to the base 256. */
module PbPlatform {
  import opened Protobuf
  import opened PbMemory

  function Pow256(n: nat): (p: nat)
    ensures p > 0
  {
    if n == 0 then 1 else 256 * Pow256(n - 1)
  }

  /** The bytes of a number. */
  function NumberSize(l: LType): nat {
    match l
    case IntType(w) => w
    case UintType(w) => w
    case SintType(w) => w
    case Fixed32Type => 4
    case _ => 8
  }

  function LittleEndianCut(l: LType, n: nat, i: int): int {
    if n >= NumberSize(l) then 0 else i - i % Pow256(n)
  }

  function LittleEndian(width: nat, sizeOf: LType -> nat, dataAt: (Descriptor, nat) -> nat, flagAt: (Descriptor, nat) -> nat): Platform {
    Platform(width, sizeOf, dataAt, flagAt, (l: LType, n: nat, i: int) => LittleEndianCut(l, n, i))
  }

  // ---------- remainders ----------

  lemma Multiple(d: int, m: nat)
    ensures d >= 1 ==> d * m >= m
    ensures d <= -1 ==> d * m + m <= 0
  {
    if d >= 1 {
      assert d * m == (d - 1) * m + m && (d - 1) * m >= 0;
    } else if d <= -1 {
      assert d * m + m == -((-d - 1) * m) && (-d - 1) * m >= 0;
    }
  }

  lemma RemainderIs(x: int, m: nat, q: int, r: nat)
    requires x == q * m + r && r < m
    ensures x % m == r
  {
    var d := x / m - q;
    assert d * m == r - x % m by {
      assert x == (x / m) * m + x % m;
      assert (x / m - q) * m == (x / m) * m - q * m;
    }
    Multiple(d, m);
  }

  /** Remainders by `a` and by a multiple of it. */
  lemma RemainderTwice(i: int, a: nat, k: nat)
    requires a > 0 && k > 0
    ensures a * k > 0 && (i - i % a) % (a * k) == i % (a * k) - i % a && (i - i % (a * k)) % a == 0
  {
    var m := a * k;
    Product(a, k);
    var q, r := i / m, i % m;
    var s, t := r / a, r % a;
    assert i == q * m + r && r == s * a + t;
    assert q * m == (q * k) * a;
    RemainderIs(i, a, q * k + s, t);
    assert i - t == q * m + (r - t);
    assert r - t >= 0;
    RemainderIs(i - t, m, q, r - t);
    RemainderIs(i - r, a, q * k, 0);
  }

  lemma Product(a: nat, k: nat)
    requires a > 0 && k > 0
    ensures a * k > 0
  {
  }

  lemma {:induction false} PowerDivides(n: nat, m: nat)
    requires n <= m
    ensures Pow256(m) == Pow256(n) * Pow256(m - n)
    decreases m
  {
    if n < m {
      PowerDivides(n, m - 1);
      assert 256 * (Pow256(n) * Pow256(m - 1 - n)) == Pow256(n) * (256 * Pow256(m - 1 - n));
    }
  }

  // ---------- cutting ----------

  lemma CutTwice(l: LType, n: nat, m: nat, i: int)
    requires n < NumberSize(l) && m < NumberSize(l)
    ensures LittleEndianCut(l, n, LittleEndianCut(l, m, i)) == LittleEndianCut(l, Most(n, m), i)
  {
    hide Pow256;
    if n <= m {
      PowerDivides(n, m);
      RemainderTwice(i, Pow256(n), Pow256(m - n));
    } else {
      PowerDivides(m, n);
      RemainderTwice(i, Pow256(m), Pow256(n - m));
    }
  }

  /** The half of the range is a multiple of what is cut. */
  lemma HalfDivides(w: nat, n: nat) returns (c: nat)
    requires IsWidth(w) && n < w
    ensures Half(w) == c * Pow256(n)
  {
    PowerDivides(n, w - 1);
    c := 128 * Pow256(w - 1 - n);
    assert Half(w) == 128 * Pow256(w - 1) by {
      assert Pow256(1) == 256 && Pow256(3) == 0x100_0000 && Pow256(5) == 0x100_0000_0000 && Pow256(7) == 0x100_0000_0000_0000 by {
        assert Pow256(2) == 0x1_0000 && Pow256(4) == 0x1_0000_0000 && Pow256(6) == 0x1_0000_0000_0000;
      }
    }
    assert 128 * (Pow256(n) * Pow256(w - 1 - n)) == (128 * Pow256(w - 1 - n)) * Pow256(n);
  }

  /** Cutting does not go below a multiple of what is cut. */
  lemma CutStaysAbove(i: int, half: nat, p: nat, c: nat)
    requires p > 0 && half == c * p && i + half >= 0
    ensures i % p >= 0 && i - i % p + half >= 0
  {
    var x := i + half;
    var q, r := x / p, x % p;
    assert x == q * p + r && q * p >= 0;
    assert (q - c) * p == q * p - c * p;
    RemainderIs(i, p, q - c, r);
  }

  lemma SignedStays(w: nat, n: nat, i: int)
    requires IsWidth(w) && n < w && 0 <= i + Half(w) < 2 * Half(w)
    ensures 0 <= i - i % Pow256(n) + Half(w) < 2 * Half(w)
  {
    hide Pow256, Half;
    var c := HalfDivides(w, n);
    CutStaysAbove(i, Half(w), Pow256(n), c);
  }

  lemma UnsignedStays(i: nat, p: nat)
    requires p > 0
    ensures 0 <= i - i % p <= i
  {
    assert i == (i / p) * p + i % p && (i / p) * p >= 0;
  }

  lemma CutInRange(l: LType, n: nat, i: int)
    requires TypeOk(l) && IsNumber(l) && InRange(l, i)
    ensures InRange(l, LittleEndianCut(l, n, i))
  {
    hide Pow256, Half;
    if n < NumberSize(l) {
      match l
      case IntType(w) => SignedStays(w, n, i);
      case SintType(w) => SignedStays(w, n, i);
      case UintType(_) => UnsignedStays(i, Pow256(n));
      case Fixed32Type => UnsignedStays(i, Pow256(n));
      case Fixed64Type => UnsignedStays(i, Pow256(n));
    } else {
      HalfIsPositive(l);
    }
  }

  lemma HalfIsPositive(l: LType)
    requires TypeOk(l) && IsNumber(l)
    ensures InRange(l, 0)
  {
  }

  lemma ZeroCut(p: nat)
    requires p > 0
    ensures 0 % p == 0
  {
    RemainderIs(0, p, 0, 0);
  }

  /** On a little-endian machine clearing bytes of a number does what the proofs ask of a platform. */
  lemma LittleEndianIsOk(width: nat, sizeOf: LType -> nat, dataAt: (Descriptor, nat) -> nat, flagAt: (Descriptor, nat) -> nat)
    ensures PlatformOk(LittleEndian(width, sizeOf, dataAt, flagAt))
  {
    hide Pow256, InRange, Half;
    var env := LittleEndian(width, sizeOf, dataAt, flagAt);
    forall l | TypeOk(l) && IsNumber(l)
      ensures CutOk(env, l)
    {
      forall n: nat
        ensures env.cut(l, n, 0) == 0
      {
        ZeroCut(Pow256(n));
      }
      forall n: nat, i: int | InRange(l, i)
        ensures InRange(l, env.cut(l, n, i))
      {
        CutInRange(l, n, i);
      }
      forall n: nat, m: nat, i: int | InRange(l, i)
        ensures env.cut(l, n, env.cut(l, m, i)) == env.cut(l, Most(n, m), i)
      {
        ZeroCut(Pow256(n));
        if n < NumberSize(l) && m < NumberSize(l) {
          CutTwice(l, n, m, i);
        }
      }
    }
  }
}
