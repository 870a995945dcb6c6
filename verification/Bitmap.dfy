/** Bitmaps as bitmap.c keeps them: bits are tested, set and cleared in bytes, but
    a free one is looked for in little-endian words of 32 bits. */
module Bitmap {

  /** 1 << (index & 7) */
  function Mask(m: nat): (r: bv8)
    requires m < 8
    ensures r != 0
  {
    if m == 0 then 0x01 else if m == 1 then 0x02 else if m == 2 then 0x04 else if m == 3 then 0x08
    else if m == 4 then 0x10 else if m == 5 then 0x20 else if m == 6 then 0x40 else 0x80
  }

  predicate Has(x: bv8, m: bv8) { x & m != 0 }

  function With(x: bv8, m: bv8): bv8 { x | m }

  function Less(x: bv8, m: bv8): bv8 { x & !m }

  predicate WordLacks(w: bv32, m: bv32) { w & m == 0 }

  function WordWith(w: bv32, m: bv32): bv32 { w | m }

  /** 1 << j */
  function WordMask(j: nat): bv32
    requires j < 32
  {
    Shifted(Mask(j % 8), j / 8)
  }

  /** A byte at place q of a word. */
  function Shifted(m: bv8, q: nat): bv32
    requires q < 4
  {
    var w := m as bv32;
    if q == 0 then w else if q == 1 then w << 8 else if q == 2 then w << 16 else w << 24
  }

  predicate TestBit(b: seq<bv8>, k: nat)
    requires k < 8 * |b|
  {
    Has(b[k / 8], Mask(k % 8))
  }

  function Word(b: seq<bv8>, i: nat): bv32
    requires 4 * i + 4 <= |b|
  {
    Join(b[4 * i], b[4 * i + 1], b[4 * i + 2], b[4 * i + 3])
  }

  function Join(a: bv8, b: bv8, c: bv8, d: bv8): bv32 {
    Shifted(a, 0) | Shifted(b, 1) | Shifted(c, 2) | Shifted(d, 3)
  }

  function Byte(w: bv32, q: nat): bv8
    requires q < 4
  {
    if q == 0 then (w & 0xFF) as bv8 else if q == 1 then ((w >> 8) & 0xFF) as bv8
    else if q == 2 then ((w >> 16) & 0xFF) as bv8 else ((w >> 24) & 0xFF) as bv8
  }

  function Part(a: bv8, b: bv8, c: bv8, d: bv8, q: nat): bv8 {
    if q == 0 then a else if q == 1 then b else if q == 2 then c else d
  }

  /** The bit of the word is the bit of the byte. */
  lemma BitOfWord(a: bv8, b: bv8, c: bv8, d: bv8, m: bv8, q: nat)
    requires q < 4
    ensures Join(a, b, c, d) & Shifted(m, q) == 0 <==> Part(a, b, c, d, q) & m == 0
  {
    if q == 0 {} else if q == 1 {} else if q == 2 {} else {}
  }

  /** Setting it in the word sets it in the byte and leaves the other bytes. */
  lemma SetInWord(a: bv8, b: bv8, c: bv8, d: bv8, m: bv8, q: nat, p: nat)
    requires q < 4 && p < 4
    ensures Byte(WordWith(Join(a, b, c, d), Shifted(m, q)), p) == if p == q then With(Part(a, b, c, d, p),
              m) else Part(a, b, c, d, p)
  {
    if q == 0 {
      if p == 0 {} else if p == 1 {} else if p == 2 {} else {}
    } else if q == 1 {
      if p == 0 {} else if p == 1 {} else if p == 2 {} else {}
    } else if q == 2 {
      if p == 0 {} else if p == 1 {} else if p == 2 {} else {}
    } else {
      if p == 0 {} else if p == 1 {} else if p == 2 {} else {}
    }
  }

  lemma FullWord(a: bv8, b: bv8, c: bv8, d: bv8)
    ensures Join(a, b, c, d) == 0xFFFF_FFFF <==> a == 0xFF && b == 0xFF && c == 0xFF && d == 0xFF
  {
  }

  function SetBit(b: seq<bv8>, k: nat): (r: seq<bv8>)
    requires k < 8 * |b|
    ensures |r| == |b|
  {
    b[k / 8 := With(b[k / 8], Mask(k % 8))]
  }

  function ClearBit(b: seq<bv8>, k: nat): (r: seq<bv8>)
    requires k < 8 * |b|
    ensures |r| == |b|
  {
    b[k / 8 := Less(b[k / 8], Mask(k % 8))]
  }

  lemma MasksApart(m: nat, n: nat)
    requires m < 8 && n < 8
    ensures Mask(m) & Mask(n) != 0 <==> m == n
  {
    if m == 0 {} else if m == 1 {} else if m == 2 {} else if m == 3 {}
    else if m == 4 {} else if m == 5 {} else if m == 6 {} else {}
  }

  lemma WithHas(x: bv8, m: bv8, n: bv8)
    ensures Has(With(x, m), n) <==> Has(x, n) || m & n != 0
  {
  }

  lemma LessHas(x: bv8, m: bv8, n: bv8)
    ensures m & n == 0 ==> (Has(Less(x, m), n) <==> Has(x, n))
    ensures !Has(Less(x, m), m)
  {
  }

  lemma WithLess(x: bv8, m: bv8)
    ensures !Has(x, m) ==> Less(With(x, m), m) == x
  {
  }

  /** What setting and clearing a bit of a byte does to another. */
  lemma ByteBits(x: bv8, m: nat, n: nat)
    requires m < 8 && n < 8
    ensures Has(With(x, Mask(m)), Mask(n)) <==> m == n || Has(x, Mask(n))
    ensures Has(Less(x, Mask(m)), Mask(n)) <==> m != n && Has(x, Mask(n))
  {
    hide Mask, Has, With, Less;
    MasksApart(m, n);
    WithHas(x, Mask(m), Mask(n));
    LessHas(x, Mask(m), Mask(n));
  }

  lemma SetSetsOne(b: seq<bv8>, k: nat, j: nat)
    requires k < 8 * |b| && j < 8 * |b|
    ensures TestBit(SetBit(b, k), j) <==> j == k || TestBit(b, j)
  {
    hide Mask, Has, With;
    ByteBits(b[k / 8], k % 8, j % 8);
  }

  lemma ClearClearsOne(b: seq<bv8>, k: nat, j: nat)
    requires k < 8 * |b| && j < 8 * |b|
    ensures TestBit(ClearBit(b, k), j) <==> j != k && TestBit(b, j)
  {
    hide Mask, Has, Less;
    ByteBits(b[k / 8], k % 8, j % 8);
  }

  /** Freeing the bit that was allocated restores the bitmap. */
  lemma AllocThenFree(b: seq<bv8>, k: nat)
    requires k < 8 * |b| && !TestBit(b, k)
    ensures ClearBit(SetBit(b, k), k) == b
  {
    hide Mask, Has, With, Less;
    WithLess(b[k / 8], Mask(k % 8));
  }

  // ----- words and bytes -----

  /** The four bytes of a word, at its bit's byte. */
  lemma LacksIs(a: bv8, b: bv8, c: bv8, d: bv8, m: bv8, q: nat)
    requires q < 4
    ensures WordLacks(Join(a, b, c, d), Shifted(m, q)) <==> !Has(Part(a, b, c, d, q), m)
  {
    BitOfWord(a, b, c, d, m, q);
  }

  lemma WordBit(b: seq<bv8>, i: nat, j: nat)
    requires 4 * i + 4 <= |b| && j < 32
    ensures WordLacks(Word(b, i), WordMask(j)) <==> !TestBit(b, 32 * i + j)
  {
    hide Join, Shifted, Mask, WordLacks, Has;
    LacksIs(b[4 * i], b[4 * i + 1], b[4 * i + 2], b[4 * i + 3], Mask(j % 8), j / 8);
    assert (32 * i + j) / 8 == 4 * i + j / 8 && (32 * i + j) % 8 == j % 8;
  }

  lemma FullWordBits(b: seq<bv8>, i: nat)
    requires 4 * i + 4 <= |b|
    ensures Word(b, i) == 0xFFFF_FFFF <==> forall k :: 32 * i <= k < 32 * i + 32 ==> TestBit(b, k)
  {
    FullWord(b[4 * i], b[4 * i + 1], b[4 * i + 2], b[4 * i + 3]);
    FullByte(b, 4 * i);
    FullByte(b, 4 * i + 1);
    FullByte(b, 4 * i + 2);
    FullByte(b, 4 * i + 3);
  }

  lemma FullByte(b: seq<bv8>, q: nat)
    requires q < |b|
    ensures b[q] == 0xFF <==> forall k :: 8 * q <= k < 8 * q + 8 ==> TestBit(b, k)
  {
    AllOnes(b[q]);
    if b[q] == 0xFF {
      forall k | 8 * q <= k < 8 * q + 8 ensures TestBit(b, k) {
        assert k / 8 == q;
        NonZero(Mask(k % 8));
      }
    } else {
      var m: nat :| m < 8 && b[q] & Mask(m) == 0;
      assert (8 * q + m) / 8 == q && (8 * q + m) % 8 == m;
      assert !TestBit(b, 8 * q + m);
    }
  }

  lemma NonZero(m: bv8)
    ensures 0xFF & m == m
  {
  }

  lemma AllOnes(x: bv8)
    ensures x == 0xFF || exists m: nat :: m < 8 && x & Mask(m) == 0
  {
    if x & Mask(0) != 0 && x & Mask(1) != 0 && x & Mask(2) != 0 && x & Mask(3) != 0 &&
       x & Mask(4) != 0 && x & Mask(5) != 0 && x & Mask(6) != 0 && x & Mask(7) != 0 {
    }
  }

  ghost predicate AllSet(b: seq<bv8>, to: int) {
    forall k :: 0 <= k < to && k < 8 * |b| ==> TestBit(b, k)
  }

  /** alloc_bit finds the lowest clear bit and sets only that one, or finds that
      there is none. */
  method AllocBit(bitmap: array<bv8>) returns (k: int)
    requires bitmap.Length % 4 == 0
    modifies bitmap
    ensures k < 0 ==> bitmap[..] == old(bitmap[..]) && AllSet(old(bitmap[..]), 8 * bitmap.Length)
    ensures k >= 0 ==>
              && k < 8 * bitmap.Length && !TestBit(old(bitmap[..]), k) && AllSet(old(bitmap[..]), k)
              && bitmap[..] == SetBit(old(bitmap[..]), k)
  {
    hide TestBit, Word, WordMask, WordLacks, SetBit;
    ghost var b := bitmap[..];
    var i := 0;
    while i < bitmap.Length / 4
      invariant 0 <= i <= bitmap.Length / 4 && bitmap[..] == b && AllSet(b, 32 * i)
    {
      FullWordBits(b, i);
      var uint := Word(bitmap[..], i);
      if uint != 0xFFFF_FFFF {
        var j := 0;
        while j < 32
          invariant 0 <= j <= 32 && bitmap[..] == b && AllSet(b, 32 * i + j)
        {
          WordBit(b, i, j);
          if WordLacks(uint, WordMask(j)) {
            StoreWord(bitmap, i, j);
            return 32 * i + j;
          }
          j := j + 1;
        }
        assert false;
      }
      i := i + 1;
    }
    k := -1;
  }

  /** *uint |= mask */
  method StoreWord(bitmap: array<bv8>, i: nat, j: nat)
    requires 4 * i + 4 <= bitmap.Length && j < 32
    modifies bitmap
    ensures bitmap[..] == SetBit(old(bitmap[..]), 32 * i + j)
  {
    ghost var b := bitmap[..];
    var w := WordWith(Word(bitmap[..], i), WordMask(j));
    StoredWord(b, i, j);
    hide *;
    bitmap[4 * i], bitmap[4 * i + 1], bitmap[4 * i + 2], bitmap[4 * i +
        3] := Byte(w, 0), Byte(w, 1), Byte(w, 2), Byte(w, 3);
    assert bitmap[..] == b[4 * i := Byte(w, 0)][4 * i + 1 := Byte(w, 1)][4 * i + 2 := Byte(w, 2)][4 * i +
        3 := Byte(w, 3)];
  }

  lemma StoredWord(b: seq<bv8>, i: nat, j: nat)
    requires 4 * i + 4 <= |b| && j < 32
    ensures var w := WordWith(Word(b, i), WordMask(j));
            b[4 * i := Byte(w, 0)][4 * i + 1 := Byte(w, 1)][4 * i + 2 := Byte(w, 2)][4 * i +
                3 := Byte(w, 3)] == SetBit(b, 32 * i + j)
  {
    hide Join, Shifted, Mask, Byte, With, WordWith;
    var q := j / 8;
    assert (32 * i + j) / 8 == 4 * i + q && (32 * i + j) % 8 == j % 8;
    var m := Mask(j % 8);
    SetInWord(b[4 * i], b[4 * i + 1], b[4 * i + 2], b[4 * i + 3], m, q, 0);
    SetInWord(b[4 * i], b[4 * i + 1], b[4 * i + 2], b[4 * i + 3], m, q, 1);
    SetInWord(b[4 * i], b[4 * i + 1], b[4 * i + 2], b[4 * i + 3], m, q, 2);
    SetInWord(b[4 * i], b[4 * i + 1], b[4 * i + 2], b[4 * i + 3], m, q, 3);
    var w, v := WordWith(Word(b, i), WordMask(j)), With(b[4 * i + q], m);
    assert w == WordWith(Join(b[4 * i], b[4 * i + 1], b[4 * i + 2], b[4 * i + 3]), Shifted(m, q));
    assert Byte(w, 0) == if q == 0 then v else b[4 * i];
    assert Byte(w, 1) == if q == 1 then v else b[4 * i + 1];
    assert Byte(w, 2) == if q == 2 then v else b[4 * i + 2];
    assert Byte(w, 3) == if q == 3 then v else b[4 * i + 3];
    FourUpdates(b, 4 * i, q, v);
  }

  /** Storing four bytes of which one is new. */
  lemma FourUpdates(b: seq<bv8>, t: nat, q: nat, v: bv8)
    requires t + 4 <= |b| && q < 4
    ensures b[t := if q == 0 then v else b[t]][t + 1 := if q == 1 then v else b[t + 1]]
             [t + 2 := if q == 2 then v else b[t + 2]][t + 3 := if q == 3 then v else b[t + 3]] == b[t + q := v]
  {
  }

  /** free_bit; that the bit is set is its assertion. */
  method FreeBit(bitmap: array<bv8>, k: nat)
    requires k < 8 * bitmap.Length && TestBit(bitmap[..], k)
    modifies bitmap
    ensures bitmap[..] == ClearBit(old(bitmap[..]), k)
  {
    bitmap[k / 8] := bitmap[k / 8] & !Mask(k % 8);
  }

  /** A bitmap is what its bits are. */
  lemma SameBits(b: seq<bv8>, c: seq<bv8>)
    requires |b| == |c| && forall k :: 0 <= k < 8 * |b| ==> (TestBit(b, k) <==> TestBit(c, k))
    ensures b == c
  {
    forall q | 0 <= q < |b| ensures b[q] == c[q] {
      forall m: nat | m < 8 ensures b[q] & Mask(m) != 0 <==> c[q] & Mask(m) != 0 {
        assert (8 * q + m) / 8 == q && (8 * q + m) % 8 == m;
        assert TestBit(b, 8 * q + m) <==> TestBit(c, 8 * q + m);
      }
      SameByte(b[q], c[q]);
    }
  }

  lemma SameByte(x: bv8, y: bv8)
    requires forall m: nat :: m < 8 ==> (x & Mask(m) != 0 <==> y & Mask(m) != 0)
    ensures x == y
  {
    assert (x & Mask(0) != 0 <==> y & Mask(0) != 0) && (x & Mask(1) != 0 <==> y & Mask(1) != 0);
    assert (x & Mask(2) != 0 <==> y & Mask(2) != 0) && (x & Mask(3) != 0 <==> y & Mask(3) != 0);
    assert (x & Mask(4) != 0 <==> y & Mask(4) != 0) && (x & Mask(5) != 0 <==> y & Mask(5) != 0);
    assert (x & Mask(6) != 0 <==> y & Mask(6) != 0) && (x & Mask(7) != 0 <==> y & Mask(7) != 0);
  }
}
