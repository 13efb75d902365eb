// The XOR metric on node ids, and the bucket index derived from it.
module Metric {

  function Pow2(n: nat): (r: nat)
    ensures r >= 1
  {
    if n == 0 then 1 else 2 * Pow2(n - 1)
  }

  // Bitwise exclusive or on unbounded naturals, one binary digit at a time.
  function Xor(a: nat, b: nat): nat {
    if a == 0 && b == 0 then 0 else 2 * Xor(a / 2, b / 2) + (a + b) % 2
  }

  // Digit `i` of the binary form of `x`.
  predicate Bit(x: nat, i: nat) {
    if i == 0 then x % 2 == 1 else Bit(x / 2, i - 1)
  }

  // The largest i < n with digit i of x set, or -1.
  function HighestBit(x: nat, n: nat): (h: int)
    ensures -1 <= h < n
  {
    if n == 0 then -1 else if Bit(x, n - 1) then n - 1 else HighestBit(x, n - 1)
  }

  // The highest differing digit of two ids, or -1 when there is none.
  function Class(self: nat, id: nat, bits: nat): (c: int)
    ensures -1 <= c < bits
  {
    HighestBit(Xor(self, id), bits)
  }

  // The bucket of `id` in the table of node `self`; `self` itself falls in the top bucket.
  function BucketIndex(self: nat, id: nat, bits: nat): (b: nat)
    requires bits > 0
    ensures b < bits
  {
    if Class(self, id, bits) >= 0 then Class(self, id, bits) else bits - 1
  }

  // ----- algebra of Xor -----

  lemma XorDigits(a: nat, b: nat)
    ensures Xor(a, b) / 2 == Xor(a / 2, b / 2)
    ensures Xor(a, b) % 2 == (a + b) % 2
  {
  }

  lemma ParityDiffers(a: nat, b: nat)
    ensures (a + b) % 2 == 1 <==> (a % 2 == 1 <==> !(b % 2 == 1))
  {
    assert a == 2 * (a / 2) + a % 2 && b == 2 * (b / 2) + b % 2;
    assert (a + b) % 2 == (a % 2 + b % 2) % 2;
  }

  // Each binary digit is the exclusive or of the two digits.
  lemma {:induction false} XorDigit(a: nat, b: nat, i: nat)
    ensures Bit(Xor(a, b), i) <==> (Bit(a, i) <==> !Bit(b, i))
    decreases i
  {
    XorDigits(a, b);
    if i == 0 {
      ParityDiffers(a, b);
    } else {
      XorDigit(a / 2, b / 2, i - 1);
    }
  }

  lemma {:induction false} XorCommutes(a: nat, b: nat)
    ensures Xor(a, b) == Xor(b, a)
  {
    if a != 0 || b != 0 {
      XorCommutes(a / 2, b / 2);
    }
  }

  lemma ParityOfSum(x: nat, y: nat, c: nat)
    requires x % 2 == y % 2
    ensures (x + c) % 2 == (y + c) % 2
  {
  }

  lemma {:induction false} XorAssociates(a: nat, b: nat, c: nat)
    ensures Xor(Xor(a, b), c) == Xor(a, Xor(b, c))
    decreases a + b + c
  {
    if a + b + c > 0 {
      XorAssociates(a / 2, b / 2, c / 2);
      var l, r := Xor(Xor(a, b), c), Xor(a, Xor(b, c));
      assert l / 2 == r / 2 by {
        XorDigits(a, b);
        XorDigits(b, c);
        XorDigits(Xor(a, b), c);
        XorDigits(a, Xor(b, c));
      }
      assert l % 2 == (a + b + c) % 2 by {
        XorDigits(Xor(a, b), c);
        XorDigits(a, b);
        ParityOfSum(Xor(a, b), a + b, c);
      }
      assert r % 2 == (a + b + c) % 2 by {
        XorDigits(a, Xor(b, c));
        XorDigits(b, c);
        ParityOfSum(Xor(b, c), b + c, a);
      }
    }
  }

  lemma {:induction false} XorSelf(a: nat)
    ensures Xor(a, a) == 0
  {
    if a != 0 {
      XorSelf(a / 2);
    }
  }

  lemma {:induction false} XorZero(a: nat)
    ensures Xor(0, a) == a
  {
    if a != 0 {
      XorZero(a / 2);
    }
  }

  // Xor with a fixed id can be undone, so different ids lie at different distances.
  lemma XorCancels(key: nat, a: nat)
    ensures Xor(key, Xor(key, a)) == a
  {
    XorAssociates(key, key, a);
    XorSelf(key);
    XorZero(a);
  }

  lemma XorInjective(key: nat, a: nat, b: nat)
    ensures Xor(a, key) == Xor(b, key) <==> a == b
    ensures Xor(a, key) == 0 <==> a == key
  {
    XorCommutes(a, key);
    XorCommutes(b, key);
    XorCancels(key, a);
    XorCancels(key, b);
    XorSelf(key);
  }

  // The distance between two ids seen through a third one.
  lemma XorThrough(self: nat, a: nat, b: nat)
    ensures Xor(a, b) == Xor(Xor(self, a), Xor(self, b))
  {
    XorCommutes(self, a);
    XorAssociates(a, self, Xor(self, b));
    XorCancels(self, b);
  }

  // ----- size of Xor -----

  lemma {:induction false} XorBelow(u: nat, v: nat, n: nat)
    requires u < Pow2(n) && v < Pow2(n)
    ensures Xor(u, v) < Pow2(n)
    decreases n
  {
    if n > 0 {
      XorBelow(u / 2, v / 2, n - 1);
    }
  }

  lemma {:induction false} XorSameTop(u: nat, v: nat, n: nat)
    requires Pow2(n) <= u < Pow2(n + 1) && Pow2(n) <= v < Pow2(n + 1)
    ensures Xor(u, v) < Pow2(n)
    decreases n
  {
    if n > 0 {
      XorSameTop(u / 2, v / 2, n - 1);
    } else {
      assert u == 1 && v == 1 && Xor(0, 0) == 0;
    }
  }

  lemma {:induction false} XorDifferentTop(u: nat, v: nat, n: nat)
    requires u < Pow2(n) <= v < Pow2(n + 1)
    ensures Pow2(n) <= Xor(u, v) < Pow2(n + 1)
    decreases n
  {
    if n > 0 {
      XorDifferentTop(u / 2, v / 2, n - 1);
    } else {
      assert u == 0 && v == 1 && Xor(0, 0) == 0;
    }
  }

  // ----- the bucket index -----

  lemma {:induction false} TopBitDecides(x: nat, n: nat)
    requires x < Pow2(n + 1)
    ensures Bit(x, n) <==> x >= Pow2(n)
    decreases n
  {
    if n > 0 {
      TopBitDecides(x / 2, n - 1);
    }
  }

  // Where v has only lower digits and the highest digit of w is m, digit m of u decides which is nearer to u.
  lemma {:induction false} TopDigitDecides(u: nat, v: nat, w: nat, m: nat)
    requires v < Pow2(m) <= w < Pow2(m + 1)
    ensures if Bit(u, m) then Xor(u, w) < Xor(u, v) else Xor(u, v) < Xor(u, w)
    decreases m
  {
    if m > 0 {
      TopDigitDecides(u / 2, v / 2, w / 2, m - 1);
    } else {
      assert v == 0 && w == 1;
      assert Xor(u / 2, 0 / 2) == Xor(u / 2, 1 / 2);
    }
  }

  lemma {:induction false} HighestBitRange(x: nat, n: nat)
    requires x < Pow2(n)
    ensures x == 0 <==> HighestBit(x, n) == -1
    ensures x > 0 ==> 0 <= HighestBit(x, n) && Pow2(HighestBit(x, n)) <= x < Pow2(HighestBit(x, n) + 1)
    decreases n
  {
    if n > 0 {
      TopBitDecides(x, n - 1);
      if !Bit(x, n - 1) {
        HighestBitRange(x, n - 1);
      }
    }
  }

  lemma {:induction false} Pow2Monotone(m: nat, n: nat)
    requires m <= n
    ensures Pow2(m) <= Pow2(n)
    ensures m < n ==> 2 * Pow2(m) <= Pow2(n)
    decreases n
  {
    if m < n {
      Pow2Monotone(m, n - 1);
    }
  }

  // A foreign id is in bucket b exactly when its distance to `self` has b + 1 binary digits.
  lemma BucketIsDistanceClass(self: nat, id: nat, bits: nat, b: nat)
    requires bits > 0 && self < Pow2(bits) && id < Pow2(bits) && id != self
    ensures BucketIndex(self, id, bits) == b <==> Pow2(b) <= Xor(self, id) < Pow2(b + 1)
  {
    var x := Xor(self, id);
    XorBelow(self, id, bits);
    XorCommutes(self, id);
    XorInjective(self, id, self);
    HighestBitRange(x, bits);
    var h := HighestBit(x, bits);
    if b < h {
      Pow2Monotone(b + 1, h);
    } else if h < b {
      Pow2Monotone(h + 1, b);
    }
  }

  // A node's own id lands in the top bucket.
  lemma OwnBucketIndex(self: nat, bits: nat)
    requires bits > 0
    ensures BucketIndex(self, self, bits) == bits - 1
  {
    XorSelf(self);
    assert 0 < Pow2(bits);
    HighestBitRange(0, bits);
  }

  // How far a stored peer can be from a looked-up key, read off the two bucket numbers alone.
  lemma BucketDistance(self: nat, key: nat, id: nat, bits: nat)
    requires bits > 0 && self < Pow2(bits) && key < Pow2(bits) && id < Pow2(bits)
    requires key != self && id != self
    ensures var b, i := BucketIndex(self, key, bits), BucketIndex(self, id, bits);
            && (i == b ==> Xor(id, key) < Pow2(b))
            && (i < b ==> Pow2(b) <= Xor(id, key) < Pow2(b + 1))
            && (i > b ==> Pow2(i) <= Xor(id, key) < Pow2(i + 1))
  {
    var b, i := BucketIndex(self, key, bits), BucketIndex(self, id, bits);
    BucketIsDistanceClass(self, key, bits, b);
    BucketIsDistanceClass(self, id, bits, i);
    XorThrough(self, id, key);
    ClassesApart(Xor(self, id), Xor(self, key), i, b);
  }

  lemma ClassesApart(v: nat, u: nat, i: nat, b: nat)
    requires Pow2(i) <= v < Pow2(i + 1) && Pow2(b) <= u < Pow2(b + 1)
    ensures i == b ==> Xor(v, u) < Pow2(b)
    ensures i < b ==> Pow2(b) <= Xor(v, u) < Pow2(b + 1)
    ensures i > b ==> Pow2(i) <= Xor(v, u) < Pow2(i + 1)
  {
    if i == b {
      XorSameTop(v, u, b);
    } else if i < b {
      Pow2Monotone(i + 1, b);
      XorDifferentTop(v, u, b);
    } else {
      Pow2Monotone(b + 1, i);
      XorDifferentTop(u, v, i);
      XorCommutes(u, v);
    }
  }

  lemma {:induction false} HighestBitIsSet(x: nat, n: nat)
    ensures var h := HighestBit(x, n);
            && (h >= 0 ==> Bit(x, h))
            && forall i: nat | h < i < n :: !Bit(x, i)
  {
    if n > 0 && !Bit(x, n - 1) {
      HighestBitIsSet(x, n - 1);
    }
  }

  // Of two ids of different classes i and j, which one is nearer to a target at distance u from `self`: the
  // one of the higher class if u has that digit set, else the other.
  predicate ClassNearer(u: nat, i: int, j: int)
    requires i >= -1 && j >= -1
  {
    if i > j then Bit(u, i) else i < j && !Bit(u, j)
  }

  lemma LowerTop(v: nat, w: nat, bits: nat)
    requires v < Pow2(bits) && w < Pow2(bits) && HighestBit(v, bits) < HighestBit(w, bits)
    ensures var m := HighestBit(w, bits); m >= 0 && v < Pow2(m) <= w < Pow2(m + 1)
  {
    HighestBitRange(v, bits);
    HighestBitRange(w, bits);
    if v > 0 {
      Pow2Monotone(HighestBit(v, bits) + 1, HighestBit(w, bits));
    }
  }

  lemma TopsRanked(u: nat, v: nat, w: nat, bits: nat)
    requires v < Pow2(bits) && w < Pow2(bits)
    requires ClassNearer(u, HighestBit(v, bits), HighestBit(w, bits))
    ensures Xor(u, v) < Xor(u, w)
  {
    if HighestBit(v, bits) > HighestBit(w, bits) {
      LowerTop(w, v, bits);
      TopDigitDecides(u, w, v, HighestBit(v, bits));
    } else {
      LowerTop(v, w, bits);
      TopDigitDecides(u, v, w, HighestBit(w, bits));
    }
  }

  lemma ClassesRanked(self: nat, target: nat, a: nat, b: nat, bits: nat)
    requires self < Pow2(bits) && a < Pow2(bits) && b < Pow2(bits)
    requires ClassNearer(Xor(self, target), Class(self, a, bits), Class(self, b, bits))
    ensures Xor(a, target) < Xor(b, target)
  {
    XorBelow(self, a, bits);
    XorBelow(self, b, bits);
    TopsRanked(Xor(self, target), Xor(self, a), Xor(self, b), bits);
    XorThrough(self, target, a);
    XorThrough(self, target, b);
    XorCommutes(target, a);
    XorCommutes(target, b);
  }

  // The class of an id of the key space is -1 for `self` alone.
  lemma OwnClass(self: nat, id: nat, bits: nat)
    requires self < Pow2(bits) && id < Pow2(bits)
    ensures Class(self, id, bits) == -1 <==> id == self
  {
    XorBelow(self, id, bits);
    HighestBitRange(Xor(self, id), bits);
    XorCommutes(self, id);
    XorInjective(self, id, self);
  }

  // No other class is nearer to a target than the target's own.
  lemma OwnClassNearest(self: nat, target: nat, bits: nat, j: int)
    requires -1 <= j < bits && j != Class(self, target, bits)
    ensures ClassNearer(Xor(self, target), Class(self, target, bits), j)
  {
    HighestBitIsSet(Xor(self, target), bits);
  }
}
