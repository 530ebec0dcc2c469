/** The page and node arithmetic of src/memmgr/slab.c: rounding to pages with
    bit operations, carving a slab into nodes, and what is unmapped against
    what was mapped. */
module Geometry {

  const WORD: nat := 0x1_0000_0000_0000_0000

  // ----- bit operations on machine words, as numbers

  function And(a: nat, b: nat): nat
    decreases a
  {
    if a == 0 then 0
    else (if a % 2 == 1 && b % 2 == 1 then 1 else 0) + 2 * And(a / 2, b / 2)
  }

  function Pow2(k: nat): (p: nat)
    ensures p >= 1
  {
    if k == 0 then 1 else 2 * Pow2(k - 1)
  }

  /** ~m on a word of w bits. */
  function Complement(m: nat, w: nat): nat
    requires m < Pow2(w)
  {
    Pow2(w) - 1 - m
  }

  lemma {:induction false} MulOrder(d: nat, q: nat, q': nat)
    ensures q < q' ==> d * q + d <= d * q'
  {
    if q < q' {
      assert d * q' == d * q + d * (q' - q);
      assert d * (q' - q) == d + d * (q' - q - 1);
    }
  }

  lemma {:induction false} ModIs(a: nat, d: nat, q: nat, r: nat)
    requires d >= 1 && a == d * q + r && r < d
    ensures a % d == r && a / d == q
  {
    var q' := a / d;
    assert a == d * q' + a % d;
    MulOrder(d, q, q');
    MulOrder(d, q', q);
  }

  lemma {:induction false} HalfOfMod(a: nat, p: nat)
    requires p >= 1
    ensures a % (2 * p) == a % 2 + 2 * ((a / 2) % p)
  {
    var h := a / 2;
    var q, r := h / p, h % p;
    assert h == p * q + r;
    assert (2 * p) * q == 2 * (p * q);
    ModIs(a, 2 * p, q, 2 * r + a % 2);
  }

  /** The lowest bit of a mask that is not empty is set. */
  lemma {:induction false} AndMask(a: nat, p: nat)
    requires a != 0 && p >= 1
    ensures And(a, 2 * p - 1) == a % 2 + 2 * And(a / 2, p - 1)
  {
    assert (2 * p - 1) % 2 == 1 && (2 * p - 1) / 2 == p - 1;
  }

  /** Masking with a power of two less one is the remainder. */
  lemma {:induction false} MaskIsMod(a: nat, k: nat)
    ensures And(a, Pow2(k) - 1) == a % Pow2(k)
    decreases k
  {
    if k == 0 {
      AndZero(a);
    } else if a != 0 {
      MaskIsMod(a / 2, k - 1);
      HalfOfMod(a, Pow2(k - 1));
      AndMask(a, Pow2(k - 1));
      hide And;
    }
  }

  lemma {:induction false} AndZero(a: nat)
    ensures And(a, 0) == 0
    decreases a
  {
    if a != 0 { AndZero(a / 2); }
  }

  /** Masking with the complement takes away what the mask selects. */
  lemma {:induction false} ComplementTakesAway(a: nat, m: nat, w: nat)
    requires a < Pow2(w) && m < Pow2(w)
    ensures And(a, Complement(m, w)) == a - And(a, m)
    decreases w
  {
    if a != 0 {
      var c := Complement(m, w);
      assert Pow2(w) == 2 * Pow2(w - 1);
      assert c % 2 == 1 - m % 2 && c / 2 == Complement(m / 2, w - 1);
      ComplementTakesAway(a / 2, m / 2, w - 1);
    }
  }

  // ----- pages

  const WORD_BITS: nat := 64

  lemma {:induction false} HalfWordIsPow2()
    ensures Pow2(32) == 0x1_0000_0000
  {
    assert Pow2(4) == 16;
    AddPow2(4, 4);
    hide Pow2;
    AddPow2(8, 8);
    AddPow2(16, 16);
  }

  lemma {:induction false} WordIsPow2()
    ensures Pow2(WORD_BITS) == WORD
  {
    HalfWordIsPow2();
    AddPow2(32, 32);
    hide Pow2;
  }

  lemma {:induction false} AddPow2(a: nat, b: nat)
    ensures Pow2(a + b) == Pow2(a) * Pow2(b)
    decreases a
  {
    if a > 0 {
      AddPow2(a - 1, b);
      assert Pow2(a + b) == 2 * Pow2(a - 1 + b);
      assert 2 * (Pow2(a - 1) * Pow2(b)) == (2 * Pow2(a - 1)) * Pow2(b);
    }
  }

  /** The least multiple of the page size that is not less than the size. */
  function RoundUp(size: nat, page: nat): nat
    requires page >= 1
  {
    if size % page == 0 then size else size - size % page + page
  }

  lemma {:induction false} MultipleMod(page: nat, n: nat)
    requires page >= 1
    ensures (page * n) % page == 0
  {
    ModIs(page * n, page, n, 0);
  }

  /** That is what RoundUp is. */
  lemma {:induction false} RoundUpIsLeast(size: nat, page: nat)
    requires page >= 1
    ensures RoundUp(size, page) % page == 0 && size <= RoundUp(size, page) < size + page
    ensures forall n: nat | page * n >= size :: RoundUp(size, page) <= page * n
  {
    var q, r := size / page, size % page;
    assert size == page * q + r;
    if r == 0 {
      MultipleMod(page, q);
    } else {
      assert RoundUp(size, page) == page * (q + 1);
      MultipleMod(page, q + 1);
    }
    forall n: nat | page * n >= size ensures RoundUp(size, page) <= page * n {
      MulOrder(page, n, q);
      MulOrder(page, q, n);
    }
  }

  lemma {:induction false} WrapOnce(x: nat, w: nat)
    requires w >= 1 && x < 2 * w
    ensures x % w == if x >= w then x - w else x
  {
    if x >= w { ModIs(x, w, 1, x - w); } else { ModIs(x, w, 0, x); }
  }

  lemma {:induction false} AddMultiple(y: nat, p: nat, n: nat)
    requires p >= 1
    ensures (y + p * n) % p == y % p
  {
    var q := y / p;
    assert y == p * q + y % p;
    assert p * (q + n) == p * q + p * n;
    ModIs(y + p * n, p, q + n, y % p);
  }

  /** The remainder by a page survives the wrap-around of a word. */
  lemma {:induction false} WrapKeepsMod(x: nat, p: nat, n: nat)
    requires p >= 1 && p * n == WORD && x < 2 * WORD
    ensures (x % WORD) % p == x % p
  {
    WrapOnce(x, WORD);
    if x >= WORD { AddMultiple(x - WORD, p, n); }
  }

  lemma {:induction false} PageIsSmall(k: nat)
    requires k < WORD_BITS
    ensures 1 <= Pow2(k) && 2 * Pow2(k) <= WORD
  {
    WordIsPow2();
    AddPow2(k, WORD_BITS - k);
    assert Pow2(WORD_BITS - k) >= 2;
    MulOrder(Pow2(k), 1, Pow2(WORD_BITS - k));
  }

  /** _PageFit, on 64-bit words: a size within a page of the end of the address
      space wraps around. */
  method PageFit(size: nat, page: nat, ghost k: nat) returns (r: nat)
    requires page == Pow2(k) && k < WORD_BITS && size < WORD
    ensures r == RoundUp(size, page) % WORD
  {
    hide And, Pow2;
    WordIsPow2();
    PageIsSmall(k);
    MaskIsMod(size, k);
    r := size;
    if And(size, page - 1) != 0 {
      r := (r + page) % WORD;
    }
    MaskIsMod(r, k);
    ComplementTakesAway(r, page - 1, WORD_BITS);
    ghost var added := r;
    r := And(r, WORD - 1 - (page - 1));
    AddPow2(k, WORD_BITS - k);
    PageFitFacts(size, page, Pow2(WORD_BITS - k), added);
  }

  lemma {:induction false} PageFitFacts(size: nat, p: nat, n: nat, added: nat)
    requires p >= 1 && p * n == WORD && 2 * p <= WORD && size < WORD
    requires added == if size % p != 0 then (size + p) % WORD else size
    ensures added - added % p == RoundUp(size, p) % WORD
  {
    if size % p != 0 {
      WrapKeepsMod(size + p, p, n);
      assert p * 1 == p;
      AddMultiple(size, p, 1);
      WrapOnce(size + p, WORD);
      RoundUpIsLeast(size, p);
      WrapOnce(RoundUp(size, p), WORD);
      if size + p >= WORD {
        RoundUpReaches(size, p, n);
      }
    } else {
      WrapOnce(size, WORD);
    }
  }

  /** Within a page of the end, rounding up reaches the end exactly. */
  lemma {:induction false} RoundUpReaches(size: nat, p: nat, n: nat)
    requires p >= 1 && p * n == WORD && size < WORD <= size + p && size % p != 0
    ensures RoundUp(size, p) == WORD
  {
    var q := size / p;
    assert size == p * q + size % p;
    assert p * (q + 1) == p * q + p;
    MulOrder(p, q + 1, n);
    MulOrder(p, n, q + 1);
    RoundUpIsLeast(size, p);
    assert RoundUp(size, p) <= p * n;
  }
}
