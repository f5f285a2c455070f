/** Machine words as sets of small numbers, and the search for the smallest one (kservice.c, scheduler.c). */
module Bitmaps {
  import opened WordBits

  type Word = bv32

  function Mask(p: Word): Word
    requires p < 32
  {
    1 << (p as bv6)
  }

  /** A thread priority; smaller words are more urgent. */
  datatype Level = Level(w: Word)

  predicate Below(p: Level, q: Level) { p.w < q.w }

  /** Every priority, and the number of priorities, is far below the word size. */
  predicate Narrow(p: Level) { p.w < 512 }

  lemma WordsAreOrdered(p: Word, q: Word)
    requires p < 512 && q < 512
    ensures p < q || p == q || q < p
  {}

  lemma BelowIsOrder(p: Level, q: Level)
    requires Narrow(p) && Narrow(q)
    ensures Below(p, q) || p == q || Below(q, p)
  {
    WordsAreOrdered(p.w, q.w);
  }

  predicate Has(w: Word, p: Word)
    requires p < 32
  {
    And(w, Mask(p)) != 0
  }

  function With(w: Word, p: Word): Word
    requires p < 32
  {
    Or(w, Mask(p))
  }

  function Less(w: Word, p: Word): Word
    requires p < 32
  {
    Off(w, Mask(p))
  }

  lemma MasksApart(p: Word, q: Word)
    requires p < 32 && q < 32
    ensures Mask(p) != 0
    ensures p != q ==> And(Mask(p), Mask(q)) == 0
  {}

  lemma SameBit(w: Word, m: Word)
    ensures And(Or(w, m), m) == m
    ensures And(Off(w, m), m) == 0
  {
    hide And, Or, Not, Xor;
    Absorb(w, m);
    AndMask(w, Not(m), m);
    NotMask(m, m);
    Units(m);
    Units(And(w, m));
  }

  lemma OtherBitSet(w: Word, m: Word, n: Word)
    requires And(m, n) == 0
    ensures And(Or(w, m), n) == And(w, n)
  {}

  lemma OtherBitCleared(w: Word, m: Word, n: Word)
    requires And(m, n) == 0
    ensures And(Off(w, m), n) == And(w, n)
  {}

  lemma MaskIsOneBit(p: Word)
    requires p < 32
    ensures OneBit(Mask(p))
  {}

  /** Every operator works on each bit alone. */
  lemma BitByBit(v: Word, w: Word, p: Word)
    requires p < 32
    ensures Has(And(v, w), p) <==> Has(v, p) && Has(w, p)
    ensures Has(Or(v, w), p) <==> Has(v, p) || Has(w, p)
    ensures Has(Xor(v, w), p) <==> Has(v, p) != Has(w, p)
    ensures Has(Not(v), p) <==> !Has(v, p)
  {
    hide Mask, And, Or, Xor, Not, OneBit;
    var m := Mask(p);
    MasksApart(p, p);
    MaskIsOneBit(p);
    AllOrNothing(v, m);
    AllOrNothing(w, m);
    AndMask(v, w, m);
    OrMask(v, w, m);
    XorMask(v, w, m);
    NotMask(v, m);
    Units(m);
  }

  /** Setting and clearing a bit put a number in and take it out. */
  lemma WithHas(w: Word, p: Word, q: Word)
    requires p < 32 && q < 32
    ensures Has(With(w, p), q) <==> q == p || Has(w, q)
    ensures Has(Less(w, p), q) <==> q != p && Has(w, q)
  {
    hide Mask, And, Or, Off;
    MasksApart(p, q);
    if p == q {
      SameBit(w, Mask(p));
    } else {
      OtherBitSet(w, Mask(p), Mask(q));
      OtherBitCleared(w, Mask(p), Mask(q));
    }
  }

  /** __lowest_bit_bitmap. */
  function Lowest(b: Word): Word {
    if b & 1 != 0 then 0
    else if b & 2 != 0 then 1
    else if b & 4 != 0 then 2
    else if b & 8 != 0 then 3
    else if b & 16 != 0 then 4
    else if b & 32 != 0 then 5
    else if b & 64 != 0 then 6
    else if b & 128 != 0 then 7
    else 0
  }

  /** __rt_ffs. */
  function Ffs(w: Word): Word {
    if w == 0 then 0
    else if w & 0xff != 0 then Lowest(w & 0xff) + 1
    else if w & 0xff00 != 0 then Lowest((w & 0xff00) >> 8) + 9
    else if w & 0xff0000 != 0 then Lowest((w & 0xff0000) >> 16) + 17
    else Lowest((w & 0xff00_0000) >> 24) + 25
  }

  predicate Bit(w: Word, p: Word)
    requires p < 32
  {
    w & (1 << (p as bv6)) != 0
  }

  lemma HasIsBit(w: Word, p: Word)
    requires p < 32
    ensures Has(w, p) <==> Bit(w, p)
  {}

  lemma FfsBits(w: Word, q: Word)
    requires w != 0 && q < 32
    ensures Ffs(w) - 1 < 32 && Bit(w, Ffs(w) - 1)
    ensures Bit(w, q) ==> Ffs(w) - 1 <= q
  {}

  /** The result minus one is the smallest element. */
  lemma FfsIsLeast(w: Word, q: Word)
    requires w != 0 && q < 32
    ensures Ffs(w) - 1 < 32 && Has(w, Ffs(w) - 1)
    ensures Has(w, q) ==> Ffs(w) - 1 <= q
  {
    hide Ffs, Has, Bit;
    FfsBits(w, q);
    HasIsBit(w, Ffs(w) - 1);
    HasIsBit(w, q);
  }

  lemma EmptyWord(q: Word)
    requires q < 32
    ensures !Has(0, q)
  {}

  // ---- two levels ----

  function Number(p: Word): Word { p >> 3 }

  function Low(p: Word): Word { p & 7 }

  function Whole(n: Word, l: Word): Word { (n << 3) + l }

  lemma Parts(p: Word)
    requires p < 256
    ensures Number(p) < 32 && Low(p) < 8 && Whole(Number(p), Low(p)) == p
  {}

  lemma WholeParts(n: Word, l: Word)
    requires n < 32 && l < 8
    ensures Whole(n, l) < 256 && Number(Whole(n, l)) == n && Low(Whole(n, l)) == l
  {}

  /** Comparing the parts compares the numbers. */
  lemma PartsOrder(p: Word, q: Word)
    requires p < 256 && q < 256
    ensures p <= q <==> Number(p) < Number(q) || (Number(p) == Number(q) && Low(p) <= Low(q))
  {}
}
