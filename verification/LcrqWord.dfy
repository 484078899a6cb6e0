// The 64-bit words behind the pairs of the queue model: an index below 2^63 and,
// in the top bit, the unsafe or the closed flag; and the masks that take them
// apart (snippets/lcrq.c).

module LcrqWord {
  import opened LcrqRing
  import opened LcrqSystem

  const TOP: nat := 0x8000_0000_0000_0000
  const MODULUS: nat := 0x1_0000_0000_0000_0000

  type Word = w: nat | w < MODULUS

  // ---------------------------------------------------------- bit operations

  // a & b
  function And(a: nat, b: nat): (c: nat)
    ensures c <= a && c <= b
  {
    if a == 0 || b == 0 then 0 else 2 * And(a / 2, b / 2) + (a % 2) * (b % 2)
  }

  // a | b
  function Or(a: nat, b: nat): nat {
    if a == 0 then b else if b == 0 then a
    else 2 * Or(a / 2, b / 2) + if a % 2 == 1 || b % 2 == 1 then 1 else 0
  }

  function Pow2(p: nat): (n: nat)
    ensures n > 0
  {
    if p == 0 then 1 else 2 * Pow2(p - 1)
  }

  lemma SplitMod(w: nat, m: nat)
    requires m > 0
    ensures w % (2 * m) == 2 * ((w / 2) % m) + w % 2
  {
    var q, r := (w / 2) / m, (w / 2) % m;
    assert w == (2 * m) * q + (2 * r + w % 2);
    SameQuotient(2 * m, w / (2 * m), w % (2 * m), q, 2 * r + w % 2);
  }

  lemma AndOdd(w: nat, b: nat)
    ensures And(w, 2 * b + 1) == 2 * And(w / 2, b) + w % 2
  {
    assert (2 * b + 1) / 2 == b && (2 * b + 1) % 2 == 1;
  }

  lemma WiderMask(w: nat, m: nat, n: nat)
    requires m > 0 && n == 2 * m && And(w / 2, m - 1) == (w / 2) % m
    ensures And(w, n - 1) == w % n
  {
    AndOdd(w, m - 1);
    SplitMod(w, m);
  }

  lemma {:induction false} MaskIsRemainder(w: nat, p: nat, n: nat)
    requires n == Pow2(p)
    ensures And(w, n - 1) == w % n
    decreases p
  {
    if p == 0 {
      assert n == 1 && And(w, 0) == 0;
    } else {
      var m := Pow2(p - 1);
      MaskIsRemainder(w / 2, p - 1, m);
      WiderMask(w, m, n);
    }
  }

  /** Masking with 2^p - 1 is the remainder modulo 2^p. */
  lemma {:induction false} AndMask(w: nat, p: nat)
    ensures And(w, Pow2(p) - 1) == w % Pow2(p)
  {
    MaskIsRemainder(w, p, Pow2(p));
  }

  /** Masking with 2^p, on words below 2^(p + 1), leaves that bit. */
  lemma {:induction false} AndBit(w: nat, p: nat)
    requires w < 2 * Pow2(p)
    ensures And(w, Pow2(p)) == if w >= Pow2(p) then Pow2(p) else 0
  {
    if p > 0 && w > 0 {
      AndBit(w / 2, p - 1);
    }
  }

  /** Setting bit 2^p, on words below 2^(p + 1). */
  lemma {:induction false} OrBit(w: nat, p: nat)
    requires w < 2 * Pow2(p)
    ensures Or(Pow2(p), w) == Or(w, Pow2(p)) == if w >= Pow2(p) then w else w + Pow2(p)
  {
    if p > 0 && w > 0 {
      OrBit(w / 2, p - 1);
    }
  }

  /** The source finds the cell of a ticket by a mask: with a ring of 2^p cells that is its slot. */
  lemma MaskIsSlot(t: nat, p: nat)
    ensures And(t, Pow2(p) - 1) == Slot(t, Pow2(p))
  {
    AndMask(t, p);
  }

  lemma {:induction false} Pow2Sum(p: nat, q: nat)
    ensures Pow2(p + q) == Pow2(p) * Pow2(q)
  {
    if p > 0 { Pow2Sum(p - 1, q); }
  }

  lemma TopIsPow2()
    ensures Pow2(63) == TOP
  {
    assert Pow2(3) == 8;
    Pow2Sum(3, 4);
    Pow2Sum(7, 8);
    Pow2Sum(15, 16);
    Pow2Sum(31, 32);
    assert Pow2(4) == 16 && Pow2(7) == 128 && Pow2(8) == 256;
    assert Pow2(15) == 0x8000 && Pow2(16) == 0x1_0000;
    assert Pow2(31) == 0x8000_0000 && Pow2(32) == 0x1_0000_0000;
  }

  // ------------------------------------------------------------------- words

  // i & ~(1 << 63): node_index and tail_index
  function Index(w: Word): nat { And(w, TOP - 1) }

  // i & (1 << 63): node_unsafe
  function Flag(w: Word): nat { And(w, TOP) }

  // i | (1 << 63): set_unsafe, and what BIT_TEST_AND_SET leaves
  function SetFlag(w: Word): nat { Or(w, TOP) }

  // crq_is_closed
  predicate FlagSet(w: Word) { Flag(w) != 0 }

  function Add(a: Word, b: Word): Word { (a + b) % MODULUS }

  function Sub(a: Word, b: Word): Word { if a >= b then a - b else a + MODULUS - b }

  // The word for an index and a flag.
  function Pack(i: nat, flag: bool): Word
    requires i < TOP
  {
    if flag then i + TOP else i
  }

  lemma {:induction false} Unpack(i: nat, flag: bool)
    requires i < TOP
    ensures var w := Pack(i, flag); Index(w) == i && Flag(w) == (if flag then TOP else 0) && SetFlag(w) == i + TOP
  {
    TopIsPow2();
    AndMask(Pack(i, flag), 63);
    AndBit(Pack(i, flag), 63);
    OrBit(Pack(i, flag), 63);
    assert (i + TOP) % TOP == i;
  }

  /** The masks of the source take a word apart into its index and its flag and put it together
      again, so comparing words compares both, as every CAS and CAS2 on idx or tail does. */
  lemma {:induction false} PackUnpack(i: nat, flag: bool, i': nat, flag': bool)
    requires i < TOP && i' < TOP
    ensures Index(Pack(i, flag)) == i && FlagSet(Pack(i, flag)) == flag
    ensures SetFlag(Pack(i, flag)) == Pack(i, true) && Or(Flag(Pack(i, flag)), i') == Pack(i', flag)
    ensures Pack(i, flag) == Pack(i', flag') <==> i == i' && flag == flag'
  {
    Unpack(i, flag);
    TopIsPow2();
    OrBit(i', 63);
  }

  lemma AddPack(i: nat, flag: bool, d: nat)
    requires i + d < TOP
    ensures Add(Pack(i, flag), d) == Pack(i + d, flag)
  {
  }

  /** Counting up keeps the flag, as FAA64 on a closed tail does. */
  lemma {:induction false} AddKeepsFlag(i: nat, flag: bool, d: nat)
    requires i + d < TOP
    ensures var w := Add(Pack(i, flag), d);
            Index(w) == i + d && FlagSet(w) == FlagSet(Pack(i, flag))
  {
    AddPack(i, flag, d);
    Unpack(i, flag);
    Unpack(i + d, flag);
  }

  /** The tests on words decide as the guards of the queue model do: emptiness at line 365 and 356,
      where a zero tail wraps round; fullness at line 298, where a head past the ticket wraps round;
      and the repair test at line 203, which a closed tail never passes. */
  lemma {:induction false} GuardsAgree(R: nat, t: nat, h: nat, closed: bool)
    requires t < TOP && h < TOP && R < TOP
    ensures Sub(Index(Pack(t, closed)), 1) <= h <==> NearEmpty(t, h)
    ensures Sub(t, h) >= R <==> LooksFull(R, t, h)
    ensures h > Pack(t, closed) <==> !closed && h > t
  {
    Unpack(t, closed);
  }
}
