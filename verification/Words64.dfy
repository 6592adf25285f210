/**
 64-bit words as numbers below 2^64: exclusive or and right shift bit by bit, and
 multiplication that wraps.
 */
module Words64 {

  import opened Words

  function Xor(a: nat, b: nat): nat
    decreases a + b
  {
    if a == 0 then b else if b == 0 then a
    else 2 * Xor(a / 2, b / 2) + (if a % 2 == b % 2 then 0 else 1)
  }

  function Shr(x: nat, k: nat): nat
    decreases k
  {
    if k == 0 then x else Shr(x / 2, k - 1)
  }

  function Times(a: Word, b: Word): Word { a * b % WORDS }

  // ---- exclusive or ----

  lemma {:induction false} XorStep(a: nat, b: nat)
    ensures Xor(a, b) == 2 * Xor(a / 2, b / 2) + if a % 2 == b % 2 then 0 else 1
  {
  }

  lemma {:induction false} XorCommutes(a: nat, b: nat)
    ensures Xor(a, b) == Xor(b, a)
    decreases a + b
  {
    if a != 0 && b != 0 { XorCommutes(a / 2, b / 2); }
  }

  lemma XorHalves(a: nat, b: nat)
    ensures Xor(a, b) / 2 == Xor(a / 2, b / 2) && (Xor(a, b) % 2 == 0 <==> a % 2 == b % 2)
  {
    XorStep(a, b);
  }

  predicate Odd(a: nat) { a % 2 == 1 }

  lemma XorParity(a: nat, b: nat)
    ensures Odd(Xor(a, b)) == (Odd(a) != Odd(b))
  {
    XorHalves(a, b);
  }

  /** The parities of two sums of three bits, whatever the words are. */
  lemma ParitiesAgree(a: bool, b: bool, c: bool, ab: bool, bc: bool, l: bool, r: bool)
    requires ab == (a != b) && bc == (b != c) && l == (ab != c) && r == (a != bc)
    ensures l == r
  {
  }

  lemma ParityAssociates(a: nat, b: nat, c: nat)
    ensures Odd(Xor(Xor(a, b), c)) == Odd(Xor(a, Xor(b, c)))
  {
    var ab, bc := Xor(a, b), Xor(b, c);
    var l, r := Xor(ab, c), Xor(a, bc);
    XorParity(a, b);
    XorParity(b, c);
    XorParity(ab, c);
    XorParity(a, bc);
    ParitiesAgree(Odd(a), Odd(b), Odd(c), Odd(ab), Odd(bc), Odd(l), Odd(r));
  }

  lemma SameHalfSameParity(x: nat, y: nat)
    requires x / 2 == y / 2 && Odd(x) == Odd(y)
    ensures x == y
  {
  }

  lemma HalvesAssociate(a: nat, b: nat, c: nat)
    ensures Xor(Xor(a, b), c) / 2 == Xor(Xor(a / 2, b / 2), c / 2)
    ensures Xor(a, Xor(b, c)) / 2 == Xor(a / 2, Xor(b / 2, c / 2))
  {
    XorHalves(a, b);
    XorHalves(b, c);
    XorHalves(Xor(a, b), c);
    XorHalves(a, Xor(b, c));
  }

  lemma {:induction false} XorAssociates(a: nat, b: nat, c: nat)
    ensures Xor(Xor(a, b), c) == Xor(a, Xor(b, c))
    decreases a + b + c
  {
    if a + b + c > 0 {
      XorAssociates(a / 2, b / 2, c / 2);
      HalvesAssociate(a, b, c);
      ParityAssociates(a, b, c);
      SameHalfSameParity(Xor(Xor(a, b), c), Xor(a, Xor(b, c)));
    }
  }

  lemma Halving(p: nat, a: nat)
    ensures (2 * p + a) / 2 == p + a / 2 && (2 * p + a) % 2 == a % 2
  {
  }

  lemma XorDouble(p: nat, a: nat, b: nat)
    requires Xor(p + a / 2, b / 2) == p + Xor(a / 2, b / 2)
    ensures Xor(2 * p + a, b) == 2 * p + Xor(a, b)
  {
    Halving(p, a);
    XorStep(2 * p + a, b);
    XorStep(a, b);
  }

  function High(h: nat, n: nat): nat { if n == 0 then h else 2 * High(h, n - 1) }

  lemma {:induction false} HighIs(h: nat, n: nat)
    ensures High(h, n) == Pow2(n) * h
  {
    if n > 0 { HighIs(h, n - 1); }
  }

  /** A short word reaches the low bits only. */
  lemma {:induction false} XorLow(h: nat, a: nat, b: nat, n: nat)
    requires a < Pow2(n) && b < Pow2(n)
    ensures Xor(High(h, n) + a, b) == High(h, n) + Xor(a, b)
  {
    if n == 0 {
      XorZero(h);
    } else {
      XorLow(h, a / 2, b / 2, n - 1);
      XorDouble(High(h, n - 1), a, b);
    }
  }

  lemma XorZero(h: nat)
    ensures Xor(h, 0) == h && Xor(0, 0) == 0
  {
  }

  lemma Pow2Of8()
    ensures Pow2(8) == 0x100
  {
    assert Pow2(4) == 0x10;
  }

  lemma XorByte(h: nat, l: nat, b: nat)
    requires l < 0x100 && b < 0x100
    ensures Xor(0x100 * h + l, b) == 0x100 * h + Xor(l, b)
  {
    Pow2Of8();
    HighIs(h, 8);
    XorLow(h, l, b, 8);
  }

  lemma StartParts(start: nat)
    requires start == 0xcbf29ce484222325
    ensures start == 0x100 * 0xcbf29ce4842223 + 0x25
  {
  }

  /** The start value of the hash with the byte of "a". */
  lemma StartXorA(start: nat, a: nat)
    requires start == 0xcbf29ce484222325 && a == 0x61
    ensures Xor(start, a) == 0xcbf29ce484222344
  {
    StartParts(start);
    XorByte(0xcbf29ce4842223, 0x25, a);
    SmallXor(0x25, a);
  }

  lemma SmallXor(a: nat, b: nat)
    requires a == 0x25 && b == 0x61
    ensures Xor(a, b) == 0x44
  {
    XorStep(a, b);
    XorStep(0x12, 0x30);
    XorStep(0x9, 0x18);
    XorStep(0x4, 0xc);
    XorStep(0x2, 0x6);
    XorStep(0x1, 0x3);
    XorZero(0x1);
  }

  lemma {:induction false} XorSelf(a: nat)
    ensures Xor(a, a) == 0
  {
    if a != 0 { XorSelf(a / 2); }
  }

  lemma XorCancels(a: nat, b: nat)
    ensures Xor(Xor(a, b), b) == a && Xor(a, Xor(a, b)) == b
  {
    XorAssociates(a, b, b);
    XorSelf(b);
    XorAssociates(a, a, b);
    XorSelf(a);
  }

  // ---- shifts ----

  lemma {:induction false} ShrXor(a: nat, b: nat, k: nat)
    ensures Shr(Xor(a, b), k) == Xor(Shr(a, k), Shr(b, k))
    decreases k
  {
    if k > 0 {
      XorHalves(a, b);
      ShrXor(a / 2, b / 2, k - 1);
    }
  }

  lemma {:induction false} ShrShr(x: nat, j: nat, k: nat)
    ensures Shr(Shr(x, j), k) == Shr(x, j + k)
    decreases j
  {
    if j > 0 { ShrShr(x / 2, j - 1, k); }
  }

  function Pow2(n: nat): nat { if n == 0 then 1 else 2 * Pow2(n - 1) }

  lemma {:induction false} ShrZeroIff(x: nat, n: nat)
    ensures Shr(x, n) == 0 <==> x < Pow2(n)
    decreases n
  {
    if n > 0 { ShrZeroIff(x / 2, n - 1); }
  }

  lemma {:induction false} Pow2Sum(m: nat, n: nat)
    ensures Pow2(m + n) == Pow2(m) * Pow2(n)
  {
    if m > 0 {
      Pow2Sum(m - 1, n);
      assert Pow2(m + n) == 2 * (Pow2(m - 1) * Pow2(n));
    }
  }

  lemma Pow2Of64()
    ensures Pow2(64) == WORDS
  {
    assert Pow2(4) == 16;
    Pow2Sum(4, 4);
    Pow2Sum(8, 8);
    Pow2Sum(16, 16);
    Pow2Sum(32, 32);
  }

  lemma WordIff(x: nat)
    ensures x < WORDS <==> Shr(x, 64) == 0
  {
    ShrZeroIff(x, 64);
    Pow2Of64();
  }

  lemma {:induction false} ShrOfZero(k: nat)
    ensures Shr(0, k) == 0
  {
    if k > 0 { ShrOfZero(k - 1); }
  }

  function XorWord(a: Word, b: Word): Word {
    XorIsWord(a, b);
    Xor(a, b)
  }

  lemma XorIsWord(a: Word, b: Word)
    ensures Xor(a, b) < WORDS
  {
    WordIff(a);
    WordIff(b);
    WordIff(Xor(a, b));
    ShrXor(a, b, 64);
  }

  lemma ShrIsWord(a: Word, k: nat)
    ensures Shr(a, k) < WORDS
  {
    WordIff(a);
    WordIff(Shr(a, k));
    ShrShr(a, k, 64);
    ShrShr(a, 64, k);
    ShrOfZero(k);
  }

  function ShrWord(a: Word, k: nat): Word {
    ShrIsWord(a, k);
    Shr(a, k)
  }

  // ---- reversible layers ----

  /** x ^= x >> k */
  function Smear(x: Word, k: nat): Word { XorWord(x, ShrWord(x, k)) }

  function Unsmear(y: Word, k: nat): Word { XorWord(XorWord(y, ShrWord(y, k)), ShrWord(y, 2 * k)) }

  /** A shift of at least 22 places is undone by two more exclusive ors, on either side. */
  lemma UnsmearSmear(x: Word, k: nat)
    requires 3 * k >= 64
    ensures Unsmear(Smear(x, k), k) == x && Smear(Unsmear(x, k), k) == x
  {
    var a, b, c := Shr(x, k), Shr(x, 2 * k), Shr(x, 3 * k);
    assert c == 0 by {
      WordIff(x);
      ShrShr(x, 64, 3 * k - 64);
      ShrOfZero(3 * k - 64);
    }
    ShrShr(x, k, k);
    ShrShr(x, k, 2 * k);
    ShrShr(x, 2 * k, k);
    var y := Xor(x, a);
    assert Unsmear(Smear(x, k), k) == x by {
      ShrXor(x, a, k);
      ShrXor(x, a, 2 * k);
      assert Shr(y, k) == Xor(a, b) && Shr(y, 2 * k) == b;
      XorAssociates(y, Xor(a, b), b);
      XorCancels(a, b);
      XorCancels(x, a);
    }
    assert Smear(Unsmear(x, k), k) == x by {
      ShrXor(y, b, k);
      ShrXor(x, a, k);
      assert Shr(Xor(y, b), k) == Xor(a, b);
      XorAssociates(y, b, Xor(a, b));
      XorCommutes(a, b);
      XorCancels(b, a);
      XorCancels(x, a);
    }
  }

  lemma RemainderIs(x: Word, t: int)
    ensures (x + t * WORDS) % WORDS == x
  {
  }
}
