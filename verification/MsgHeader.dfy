/**
 The header word of a DNS message (RFC 1035 section 4.1.1): flags, opcode and rcode share
 sixteen bits.
 */
module MsgHeader {

  datatype MsgHdr = MsgHdr(id: nat, response: bool, opcode: int, authoritative: bool, truncated: bool,
                           recursionDesired: bool, recursionAvailable: bool, zero: bool,
                           authenticatedData: bool, checkingDisabled: bool, rcode: int)

  // ---------------------------------------------------------------- the header

  /** x with the bit of the given weight set. */
  function WithBit(x: nat, weight: nat, on: bool): nat
    requires weight > 0
  {
    if on && x / weight % 2 == 0 then x + weight else x
  }

  function Bits(h: MsgHdr): nat {
    var b0 := h.opcode % 0x1_0000 * 0x800 % 0x1_0000 + h.rcode % 0x10;
    var b1 := WithBit(WithBit(WithBit(b0, 0x8000, h.response), 0x400, h.authoritative), 0x200, h.truncated);
    var b2 := WithBit(WithBit(WithBit(b1, 0x100, h.recursionDesired), 0x80, h.recursionAvailable), 0x40, h.zero);
    WithBit(WithBit(b2, 0x20, h.authenticatedData), 0x10, h.checkingDisabled)
  }

  /** Whether the bit of the given weight is set. */
  predicate Has(bits: nat, weight: nat)
    requires weight > 0
  {
    bits / weight % 2 == 1
  }

  function OpcodeOf(bits: nat): nat {
    bits / 0x800 % 0x10
  }

  function HdrOf(id: nat, bits: nat): MsgHdr {
    MsgHdr(id, Has(bits, 0x8000), OpcodeOf(bits), Has(bits, 0x400), Has(bits, 0x200), Has(bits, 0x100), Has(bits, 0x80),
           Has(bits, 0x40), Has(bits, 0x20), Has(bits, 0x10), bits % 0x10)
  }

  function Flag(on: bool): nat {
    if on then 1 else 0
  }

  /** The weights of the flags in the header word. */
  predicate IsWeight(w: nat) {
    w == 0x8000 || w == 0x400 || w == 0x200 || w == 0x100 || w == 0x80 || w == 0x40 || w == 0x20 || w == 0x10
  }

  /** A flag is set where nothing has been set before it. */
  lemma SetFlag(x: nat, q: nat, w: nat, r: nat, on: bool)
    requires IsWeight(w) && r < w && x == 2 * q * w + r
    ensures WithBit(x, w, on) == (2 * q + Flag(on)) * w + r
  {
    if w == 0x8000 {
      assert x / 0x8000 == 2 * q;
    } else if w == 0x400 {
      assert x / 0x400 == 2 * q;
    } else if w == 0x200 {
      assert x / 0x200 == 2 * q;
    } else if w == 0x100 {
      assert x / 0x100 == 2 * q;
    } else if w == 0x80 {
      assert x / 0x80 == 2 * q;
    } else if w == 0x40 {
      assert x / 0x40 == 2 * q;
    } else if w == 0x20 {
      assert x / 0x20 == 2 * q;
    } else {
      assert x / 0x10 == 2 * q;
    }
  }

  /** The header word after the response and authoritative flags, without the rcode, and so on to the right. */
  function Left(h: MsgHdr): nat
    requires 0 <= h.opcode
  {
    2 * (2 * (16 * Flag(h.response) + h.opcode) + Flag(h.authoritative)) + Flag(h.truncated)
  }

  function Middle(h: MsgHdr): nat
    requires 0 <= h.opcode
  {
    2 * (2 * (2 * Left(h) + Flag(h.recursionDesired)) + Flag(h.recursionAvailable)) + Flag(h.zero)
  }

  function Right(h: MsgHdr): nat
    requires 0 <= h.opcode
  {
    2 * (2 * Middle(h) + Flag(h.authenticatedData)) + Flag(h.checkingDisabled)
  }

  lemma LeftBits(h: MsgHdr)
    requires 0 <= h.opcode < 16 && 0 <= h.rcode < 16
    ensures var b0 := h.opcode % 0x1_0000 * 0x800 % 0x1_0000 + h.rcode % 0x10;
            WithBit(WithBit(WithBit(b0, 0x8000, h.response), 0x400, h.authoritative), 0x200, h.truncated) == Left(h) * 0x200 + h.rcode
  {
    hide WithBit, Flag;
    FlagIsSmall();
    var b0 := h.opcode * 0x800 + h.rcode;
    assert h.opcode % 0x1_0000 * 0x800 % 0x1_0000 + h.rcode % 0x10 == b0;
    SetFlag(b0, 0, 0x8000, b0, h.response);
    var q0 := 16 * Flag(h.response) + h.opcode;
    var b1 := WithBit(b0, 0x8000, h.response);
    SetFlag(b1, q0, 0x400, h.rcode, h.authoritative);
    SetFlag(WithBit(b1, 0x400, h.authoritative), 2 * q0 + Flag(h.authoritative), 0x200, h.rcode, h.truncated);
  }

  lemma MiddleBits(h: MsgHdr, b1: nat)
    requires 0 <= h.opcode < 16 && 0 <= h.rcode < 16 && b1 == Left(h) * 0x200 + h.rcode
    ensures WithBit(WithBit(WithBit(b1, 0x100, h.recursionDesired), 0x80, h.recursionAvailable), 0x40, h.zero)
            == Middle(h) * 0x40 + h.rcode
  {
    hide WithBit, Flag, Left;
    FlagIsSmall();
    var q := Left(h);
    SetFlag(b1, q, 0x100, h.rcode, h.recursionDesired);
    var b2, q2 := WithBit(b1, 0x100, h.recursionDesired), 2 * q + Flag(h.recursionDesired);
    SetFlag(b2, q2, 0x80, h.rcode, h.recursionAvailable);
    SetFlag(WithBit(b2, 0x80, h.recursionAvailable), 2 * q2 + Flag(h.recursionAvailable), 0x40, h.rcode, h.zero);
  }

  lemma RightBits(h: MsgHdr, b2: nat)
    requires 0 <= h.opcode < 16 && 0 <= h.rcode < 16 && b2 == Middle(h) * 0x40 + h.rcode
    ensures WithBit(WithBit(b2, 0x20, h.authenticatedData), 0x10, h.checkingDisabled) == Right(h) * 0x10 + h.rcode
  {
    hide WithBit, Flag, Middle;
    FlagIsSmall();
    var q := Middle(h);
    SetFlag(b2, q, 0x20, h.rcode, h.authenticatedData);
    SetFlag(WithBit(b2, 0x20, h.authenticatedData), 2 * q + Flag(h.authenticatedData), 0x10, h.rcode, h.checkingDisabled);
  }

  lemma FlagIsSmall()
    ensures forall on :: 0 <= Flag(on) <= 1
  {
  }

  /** A flag at the end of a number that is left when rest digits are dropped. */
  lemma LastFlag(bits: nat, w: nat, q: nat, on: bool)
    requires IsWeight(w) && bits / w == 2 * q + Flag(on)
    ensures (Has(bits, w) <==> on) && (w < 0x400 ==> bits / (2 * w) == q)
  {
    Halves(bits);
    assert (2 * q + Flag(on)) / 2 == q && (2 * q + Flag(on)) % 2 == Flag(on);
  }

  lemma Halves(x: nat)
    ensures x / 0x20 == x / 0x10 / 2 && x / 0x40 == x / 0x20 / 2 && x / 0x80 == x / 0x40 / 2 && x / 0x100 == x / 0x80 / 2
    ensures x / 0x200 == x / 0x100 / 2 && x / 0x400 == x / 0x200 / 2
  {
  }

  /** The header word is read back. */
  lemma BitsRoundTrip(h: MsgHdr)
    requires 0 <= h.opcode < 16 && 0 <= h.rcode < 16
    ensures Bits(h) < 0x1_0000 && HdrOf(h.id, Bits(h)) == h
  {
    hide Bits, Has, OpcodeOf, Flag, WithBit, Left, Middle, Right;
    BitsAre(h);
    LowDigits(h, Bits(h));
    HighDigits(h, Bits(h));
  }

  lemma BitsAre(h: MsgHdr)
    requires 0 <= h.opcode < 16 && 0 <= h.rcode < 16
    ensures Bits(h) == Right(h) * 0x10 + h.rcode
  {
    hide WithBit, Left, Middle, Right;
    LeftBits(h);
    MiddleBits(h, Left(h) * 0x200 + h.rcode);
    RightBits(h, Middle(h) * 0x40 + h.rcode);
  }

  lemma LowDigits(h: MsgHdr, bits: nat)
    requires 0 <= h.opcode < 16 && 0 <= h.rcode < 16 && bits == Right(h) * 0x10 + h.rcode
    ensures bits % 0x10 == h.rcode && bits / 0x200 == Left(h)
    ensures Has(bits, 0x10) <==> h.checkingDisabled
    ensures Has(bits, 0x20) <==> h.authenticatedData
    ensures Has(bits, 0x40) <==> h.zero
    ensures Has(bits, 0x80) <==> h.recursionAvailable
    ensures Has(bits, 0x100) <==> h.recursionDesired
  {
    assert bits / 0x10 == Right(h) && bits % 0x10 == h.rcode;
    hide Has, Flag;
    FlagIsSmall();
    var r1 := 2 * Left(h) + Flag(h.recursionDesired);
    LastFlag(bits, 0x10, 2 * Middle(h) + Flag(h.authenticatedData), h.checkingDisabled);
    LastFlag(bits, 0x20, Middle(h), h.authenticatedData);
    LastFlag(bits, 0x40, 2 * r1 + Flag(h.recursionAvailable), h.zero);
    LastFlag(bits, 0x80, r1, h.recursionAvailable);
    LastFlag(bits, 0x100, Left(h), h.recursionDesired);
  }

  lemma HighDigits(h: MsgHdr, bits: nat)
    requires 0 <= h.opcode < 16 && bits / 0x200 == Left(h)
    ensures Has(bits, 0x200) <==> h.truncated
    ensures Has(bits, 0x400) <==> h.authoritative
    ensures OpcodeOf(bits) == h.opcode
    ensures Has(bits, 0x8000) <==> h.response
    ensures bits < 0x1_0000
  {
    var q := 16 * Flag(h.response) + h.opcode;
    LastFlag(bits, 0x200, 2 * q + Flag(h.authoritative), h.truncated);
    LastFlag(bits, 0x400, q, h.authoritative);
    assert bits / 0x800 == q;
    assert bits / 0x8000 == Flag(h.response);
  }
}
