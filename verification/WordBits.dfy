/** The bitwise operators of C on 32-bit words. */
module WordBits {

  function And(v: bv32, w: bv32): bv32 { v & w }

  function Or(v: bv32, w: bv32): bv32 { v | w }

  function Xor(v: bv32, w: bv32): bv32 { v ^ w }

  function Not(v: bv32): bv32 { !v }

  function Off(v: bv32, w: bv32): bv32 { And(v, Not(w)) }

  predicate OneBit(m: bv32) { m != 0 && m & (m - 1) == 0 }

  lemma AllOrNothing(v: bv32, m: bv32)
    requires OneBit(m)
    ensures And(v, m) == 0 || And(v, m) == m
  {}

  lemma AndMask(v: bv32, w: bv32, m: bv32)
    ensures And(And(v, w), m) == And(And(v, m), And(w, m))
  {}

  lemma Distribute(v: bv32, w: bv32, m: bv32)
    ensures And(v | w, m) == Or(v & m, w & m)
    ensures And(v ^ w, m) == Xor(v & m, w & m)
  {}

  lemma OrMask(v: bv32, w: bv32, m: bv32)
    ensures And(Or(v, w), m) == Or(And(v, m), And(w, m))
  {
    Distribute(v, w, m);
  }

  lemma XorMask(v: bv32, w: bv32, m: bv32)
    ensures And(Xor(v, w), m) == Xor(And(v, m), And(w, m))
  {
    Distribute(v, w, m);
  }

  lemma Complement(v: bv32)
    ensures Not(v) == Xor(v, 0xffff_ffff) && And(0xffff_ffff, v) == v
  {}

  /** The complement flips every bit of a mask. */
  lemma NotMask(v: bv32, m: bv32)
    ensures And(Not(v), m) == Xor(And(v, m), m)
  {
    hide And, Not, Xor;
    Complement(v);
    Complement(m);
    XorMask(v, 0xffff_ffff, m);
  }

  lemma Absorb(v: bv32, m: bv32)
    ensures And(Or(v, m), m) == m
  {}

  lemma Units(m: bv32)
    ensures And(m, m) == m && And(0, m) == And(m, 0) == And(0, 0) == 0
    ensures Or(m, m) == m && Or(0, m) == Or(m, 0) == m && Or(0, 0) == 0
    ensures Xor(m, m) == 0 && Xor(0, m) == Xor(m, 0) == m && Xor(0, 0) == 0
  {}
}
