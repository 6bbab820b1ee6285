/** The masks and shifts of src/bool/kit/kitTruth.c on one 32-bit word, and what they do to its bits. Five inputs select
    the bit of a word. */
module WordBits {
  import opened TruthTables

  /** The number of the bit that five inputs select, the first input lowest. */
  function Position(a: Assignment): (p: bv32)
    requires |a| == 5
    ensures p < 32
  {
    (if a[0] then 1 else 0) | (if a[1] then 2 else 0) | (if a[2] then 4 else 0) | (if a[3] then 8 else 0)
    | (if a[4] then 16 else 0)
  }

  predicate Bit(w: bv32, p: bv32)
    requires p < 32
  {
    (w >> p) & 1 == 1
  }

  // ----- complementing an input

  /** The position with input v complemented. */
  function Toggled(p: bv32, v: nat): (r: bv32)
    requires v < 5 && p < 32
    ensures r < 32
  {
    match v
    case 0 => p ^ 1
    case 1 => p ^ 2
    case 2 => p ^ 4
    case 3 => p ^ 8
    case _ => p ^ 16
  }

  function PhaseWord(w: bv32, v: nat): bv32
    requires v < 5
  {
    match v
    case 0 => ((w & 0x55555555) << 1) | ((w & 0xAAAAAAAA) >> 1)
    case 1 => ((w & 0x33333333) << 2) | ((w & 0xCCCCCCCC) >> 2)
    case 2 => ((w & 0x0F0F0F0F) << 4) | ((w & 0xF0F0F0F0) >> 4)
    case 3 => ((w & 0x00FF00FF) << 8) | ((w & 0xFF00FF00) >> 8)
    case _ => ((w & 0x0000FFFF) << 16) | ((w & 0xFFFF0000) >> 16)
  }

  lemma PositionFlip(a: Assignment, v: nat)
    requires |a| == 5 && v < 5
    ensures Position(Flip(a, v)) == Toggled(Position(a), v)
  {
  }

  lemma PhaseBit0(w: bv32, p: bv32)
    requires p < 32
    ensures Bit(PhaseWord(w, 0), p) == Bit(w, Toggled(p, 0))
  {
  }

  lemma PhaseBit1(w: bv32, p: bv32)
    requires p < 32
    ensures Bit(PhaseWord(w, 1), p) == Bit(w, Toggled(p, 1))
  {
  }

  lemma PhaseBit2(w: bv32, p: bv32)
    requires p < 32
    ensures Bit(PhaseWord(w, 2), p) == Bit(w, Toggled(p, 2))
  {
  }

  lemma PhaseBit3(w: bv32, p: bv32)
    requires p < 32
    ensures Bit(PhaseWord(w, 3), p) == Bit(w, Toggled(p, 3))
  {
  }

  lemma PhaseBit4(w: bv32, p: bv32)
    requires p < 32
    ensures Bit(PhaseWord(w, 4), p) == Bit(w, Toggled(p, 4))
  {
  }

  /** Every bit comes from the position with input v complemented. */
  lemma PhaseBit(w: bv32, v: nat, p: bv32)
    requires v < 5 && p < 32
    ensures Bit(PhaseWord(w, v), p) == Bit(w, Toggled(p, v))
  {
    hide Bit, PhaseWord, Toggled;
    match v {
      case 0 => PhaseBit0(w, p);
      case 1 => PhaseBit1(w, p);
      case 2 => PhaseBit2(w, p);
      case 3 => PhaseBit3(w, p);
      case _ => PhaseBit4(w, p);
    }
  }

  // ----- fixing an input

  /** The position with input v set to 0, or to 1. */
  function Cleared(p: bv32, v: nat): (r: bv32)
    requires v < 5 && p < 32
    ensures r < 32
  {
    match v
    case 0 => p & 30
    case 1 => p & 29
    case 2 => p & 27
    case 3 => p & 23
    case _ => p & 15
  }

  function Raised(p: bv32, v: nat): (r: bv32)
    requires v < 5 && p < 32
    ensures r < 32
  {
    match v
    case 0 => p | 1
    case 1 => p | 2
    case 2 => p | 4
    case 3 => p | 8
    case _ => p | 16
  }

  function Cofactor0Word(w: bv32, v: nat): bv32
    requires v < 5
  {
    match v
    case 0 => (w & 0x55555555) | ((w & 0x55555555) << 1)
    case 1 => (w & 0x33333333) | ((w & 0x33333333) << 2)
    case 2 => (w & 0x0F0F0F0F) | ((w & 0x0F0F0F0F) << 4)
    case 3 => (w & 0x00FF00FF) | ((w & 0x00FF00FF) << 8)
    case _ => (w & 0x0000FFFF) | ((w & 0x0000FFFF) << 16)
  }

  function Cofactor1Word(w: bv32, v: nat): bv32
    requires v < 5
  {
    match v
    case 0 => (w & 0xAAAAAAAA) | ((w & 0xAAAAAAAA) >> 1)
    case 1 => (w & 0xCCCCCCCC) | ((w & 0xCCCCCCCC) >> 2)
    case 2 => (w & 0xF0F0F0F0) | ((w & 0xF0F0F0F0) >> 4)
    case 3 => (w & 0xFF00FF00) | ((w & 0xFF00FF00) >> 8)
    case _ => (w & 0xFFFF0000) | ((w & 0xFFFF0000) >> 16)
  }

  lemma PositionSet(a: Assignment, v: nat, c: bool)
    requires |a| == 5 && v < 5
    ensures Position(a[v := c]) == if c then Raised(Position(a), v) else Cleared(Position(a), v)
  {
  }

  /** A position is one of two that differ in input v. */
  lemma OneOfTwo(p: bv32, v: nat)
    requires v < 5 && p < 32
    ensures Cleared(Cleared(p, v), v) == Cleared(p, v) && Raised(Cleared(p, v), v) == Raised(p, v)
    ensures p == Cleared(p, v) || p == Raised(p, v)
  {
  }

  lemma Cofactor0Bit0(w: bv32, q: bv32)
    requires q < 32 && Cleared(q, 0) == q
    ensures Bit(Cofactor0Word(w, 0), q) == Bit(Cofactor0Word(w, 0), Raised(q, 0)) == Bit(w, q)
  {
  }

  lemma Cofactor0Bit1(w: bv32, q: bv32)
    requires q < 32 && Cleared(q, 1) == q
    ensures Bit(Cofactor0Word(w, 1), q) == Bit(Cofactor0Word(w, 1), Raised(q, 1)) == Bit(w, q)
  {
  }

  lemma Cofactor0Bit2(w: bv32, q: bv32)
    requires q < 32 && Cleared(q, 2) == q
    ensures Bit(Cofactor0Word(w, 2), q) == Bit(Cofactor0Word(w, 2), Raised(q, 2)) == Bit(w, q)
  {
  }

  lemma Cofactor0Bit3(w: bv32, q: bv32)
    requires q < 32 && Cleared(q, 3) == q
    ensures Bit(Cofactor0Word(w, 3), q) == Bit(Cofactor0Word(w, 3), Raised(q, 3)) == Bit(w, q)
  {
  }

  lemma Cofactor0Bit4(w: bv32, q: bv32)
    requires q < 32 && Cleared(q, 4) == q
    ensures Bit(Cofactor0Word(w, 4), q) == Bit(Cofactor0Word(w, 4), Raised(q, 4)) == Bit(w, q)
  {
  }

  /** Every bit comes from the position with input v set to 0. */
  lemma Cofactor0Bit(w: bv32, v: nat, p: bv32)
    requires v < 5 && p < 32
    ensures Bit(Cofactor0Word(w, v), p) == Bit(w, Cleared(p, v))
  {
    hide Bit, Cofactor0Word, Cleared, Raised;
    OneOfTwo(p, v);
    var q := Cleared(p, v);
    match v {
      case 0 => Cofactor0Bit0(w, q);
      case 1 => Cofactor0Bit1(w, q);
      case 2 => Cofactor0Bit2(w, q);
      case 3 => Cofactor0Bit3(w, q);
      case _ => Cofactor0Bit4(w, q);
    }
  }

  lemma Cofactor1Bit0(w: bv32, q: bv32)
    requires q < 32 && Cleared(q, 0) == q
    ensures Bit(Cofactor1Word(w, 0), q) == Bit(Cofactor1Word(w, 0), Raised(q, 0)) == Bit(w, Raised(q, 0))
  {
  }

  lemma Cofactor1Bit1(w: bv32, q: bv32)
    requires q < 32 && Cleared(q, 1) == q
    ensures Bit(Cofactor1Word(w, 1), q) == Bit(Cofactor1Word(w, 1), Raised(q, 1)) == Bit(w, Raised(q, 1))
  {
  }

  lemma Cofactor1Bit2(w: bv32, q: bv32)
    requires q < 32 && Cleared(q, 2) == q
    ensures Bit(Cofactor1Word(w, 2), q) == Bit(Cofactor1Word(w, 2), Raised(q, 2)) == Bit(w, Raised(q, 2))
  {
  }

  lemma Cofactor1Bit3(w: bv32, q: bv32)
    requires q < 32 && Cleared(q, 3) == q
    ensures Bit(Cofactor1Word(w, 3), q) == Bit(Cofactor1Word(w, 3), Raised(q, 3)) == Bit(w, Raised(q, 3))
  {
  }

  lemma Cofactor1Bit4(w: bv32, q: bv32)
    requires q < 32 && Cleared(q, 4) == q
    ensures Bit(Cofactor1Word(w, 4), q) == Bit(Cofactor1Word(w, 4), Raised(q, 4)) == Bit(w, Raised(q, 4))
  {
  }

  /** ... or to 1. */
  lemma Cofactor1Bit(w: bv32, v: nat, p: bv32)
    requires v < 5 && p < 32
    ensures Bit(Cofactor1Word(w, v), p) == Bit(w, Raised(p, v))
  {
    hide Bit, Cofactor1Word, Cleared, Raised;
    OneOfTwo(p, v);
    var q := Cleared(p, v);
    match v {
      case 0 => Cofactor1Bit0(w, q);
      case 1 => Cofactor1Bit1(w, q);
      case 2 => Cofactor1Bit2(w, q);
      case 3 => Cofactor1Bit3(w, q);
      case _ => Cofactor1Bit4(w, q);
    }
  }

  // ----- exchanging neighbours

  /** The position with inputs v and v + 1 exchanged. */
  function Exchanged(p: bv32, v: nat): (r: bv32)
    requires v < 4 && p < 32
    ensures r < 32
  {
    match v
    case 0 => (p & 28) | ((p & 1) << 1) | ((p & 2) >> 1)
    case 1 => (p & 25) | ((p & 2) << 1) | ((p & 4) >> 1)
    case 2 => (p & 19) | ((p & 4) << 1) | ((p & 8) >> 1)
    case _ => (p & 7) | ((p & 8) << 1) | ((p & 16) >> 1)
  }

  function SwapWord(w: bv32, v: nat): bv32
    requires v < 4
  {
    match v
    case 0 => (w & 0x99999999) | ((w & 0x22222222) << 1) | ((w & 0x44444444) >> 1)
    case 1 => (w & 0xC3C3C3C3) | ((w & 0x0C0C0C0C) << 2) | ((w & 0x30303030) >> 2)
    case 2 => (w & 0xF00FF00F) | ((w & 0x00F000F0) << 4) | ((w & 0x0F000F00) >> 4)
    case _ => (w & 0xFF0000FF) | ((w & 0x0000FF00) << 8) | ((w & 0x00FF0000) >> 8)
  }

  lemma PositionExchange(a: Assignment, v: nat)
    requires |a| == 5 && v < 4
    ensures Position(Exchange(a, v)) == Exchanged(Position(a), v)
  {
  }

  lemma SwapBit0(w: bv32, p: bv32)
    requires p < 32
    ensures Bit(SwapWord(w, 0), p) == Bit(w, Exchanged(p, 0))
  {
  }

  lemma SwapBit1(w: bv32, p: bv32)
    requires p < 32
    ensures Bit(SwapWord(w, 1), p) == Bit(w, Exchanged(p, 1))
  {
  }

  lemma SwapBit2(w: bv32, p: bv32)
    requires p < 32
    ensures Bit(SwapWord(w, 2), p) == Bit(w, Exchanged(p, 2))
  {
  }

  lemma SwapBit3(w: bv32, p: bv32)
    requires p < 32
    ensures Bit(SwapWord(w, 3), p) == Bit(w, Exchanged(p, 3))
  {
  }

  /** Every bit comes from the position with the two inputs exchanged. */
  lemma SwapBit(w: bv32, v: nat, p: bv32)
    requires v < 4 && p < 32
    ensures Bit(SwapWord(w, v), p) == Bit(w, Exchanged(p, v))
  {
    hide Bit, SwapWord, Exchanged;
    match v {
      case 0 => SwapBit0(w, p);
      case 1 => SwapBit1(w, p);
      case 2 => SwapBit2(w, p);
      case _ => SwapBit3(w, p);
    }
  }

  // ----- exchanging inputs 4 and 5: halves of two words

  function LowHalves(w0: bv32, w1: bv32): bv32 {
    (w0 & 0x0000FFFF) | ((w1 & 0x0000FFFF) << 16)
  }

  function HighHalves(w0: bv32, w1: bv32): bv32 {
    (w1 & 0xFFFF0000) | ((w0 & 0xFFFF0000) >> 16)
  }

  lemma LowHalvesBit(w0: bv32, w1: bv32, p: bv32)
    requires p < 32
    ensures Bit(LowHalves(w0, w1), p) == Bit(if p & 16 == 0 then w0 else w1, Cleared(p, 4))
  {
  }

  lemma HighHalvesBit(w0: bv32, w1: bv32, p: bv32)
    requires p < 32
    ensures Bit(HighHalves(w0, w1), p) == Bit(if p & 16 == 0 then w0 else w1, Raised(p, 4))
  {
  }

  lemma HighestInput(a: Assignment)
    requires |a| == 5
    ensures (Position(a) & 16 == 0) == !a[4]
  {
  }
}
