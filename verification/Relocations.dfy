/** Relocation records and how they are written (`crates/patchouly-core/src/relocation.rs`). */
module Relocations {
  import opened Words
  import opened Buffers

  datatype Encoding = Invalid | Generic | X86Signed

  datatype PatchKind = Hole | Stack | Target | Runtime | Unknown

  /** A place in a stencil: the byte offset, the size in bits, and what goes there. */
  datatype Relocation = Relocation(
    offset: nat,
    encoding: Encoding,
    relative: bool,
    size: nat,
    addend: int,
    kind: PatchKind,
    id: nat)
  {
    predicate IsInvalid() {
      encoding.Invalid?
    }

    /** The width of the field in bytes. */
    function Width(): nat {
      size / 8
    }

    function End(): nat {
      offset + Width()
    }

    /** The field holds whole bytes of at most one word. */
    predicate FieldOk() {
      !IsInvalid() && size % 8 == 0 && 0 < size <= WORD_BITS
    }

    predicate SupportsValue(value: Word) {
      if relative then false
      else match encoding
        case Generic => FitsUnsigned(value, size)
        case X86Signed => FitsSigned(Signed(value), size)
        case Invalid => false
    }
  }

  /** The record that ends a list of relocations. */
  const SENTINEL := Relocation(0, Invalid, false, 0, 0, Hole, 0)

  // ----- what fits -----

  predicate FitsUnsigned(value: Word, bits: nat) {
    if bits == 0 then value == 0
    else if bits >= WORD_BITS then true
    else value < Pow2(bits)
  }

  /** A left shift of a signed word, dropping the bits shifted out. */
  function ShiftLeft(value: int, n: nat): int {
    Signed(Wrap(value * Pow2(n)))
  }

  /** An arithmetic right shift. */
  function ShiftRight(value: int, n: nat): int {
    value / Pow2(n)
  }

  predicate FitsSigned(value: int, bits: nat) {
    if bits == 0 then value == 0
    else if bits >= WORD_BITS then true
    else ShiftRight(ShiftLeft(value, WORD_BITS - bits), WORD_BITS - bits) == value
  }

  /** The value of the low `bits` bits, as an unsigned and as a signed number. */
  function ZeroExtend(low: nat, bits: nat): int {
    low % Pow2(bits)
  }

  function SignExtend(low: nat, bits: nat): int
    requires bits > 0
  {
    var v := low % Pow2(bits);
    if v < Pow2(bits - 1) then v else v - Pow2(bits)
  }

  /** Shifting left by `k == 2^n` keeps the low bits only. */
  lemma ShiftOut(value: int, m: int, k: int)
    requires m > 0 && k > 0 && m * k == WORD
    ensures 0 <= (value % m) * k < WORD && Wrap(value * k) == (value % m) * k
  {
    var (q, v) := (value / m, value % m);
    assert value == m * q + v;
    assert value * k == WORD * q + v * k by {
      assert value * k == (m * q) * k + v * k;
      assert (m * q) * k == (m * k) * q;
    }
    MulLess(v, m, k);
    DivUnique(value * k, WORD, q, v * k);
  }

  /** Shifting back right extends the sign. */
  lemma ShiftBack(v: int, h: int, k: int)
    requires h > 0 && k > 0 && 2 * h * k == WORD && 0 <= v < 2 * h && 0 <= v * k < WORD
    ensures Signed(v * k) / k == if v < h then v else v - 2 * h
  {
    assert WORD / 2 == h * k by {
      assert (2 * h) * k == 2 * (h * k);
    }
    if v < h {
      MulLess(v, h, k);
      DivUnique(v * k, k, v, 0);
    } else {
      MulLess(h, v + 1, k);
      assert v * k - WORD == k * (v - 2 * h) by {
        assert k * (v - 2 * h) == v * k - (2 * h) * k;
      }
      DivUnique(v * k - WORD, k, v - 2 * h, 0);
    }
  }

  /** Shifting left and right again sign-extends the low bits. */
  lemma ShiftsExtend(value: int, bits: nat)
    requires 0 < bits < WORD_BITS && -WORD / 2 <= value < WORD / 2
    ensures ShiftRight(ShiftLeft(value, WORD_BITS - bits), WORD_BITS - bits) == SignExtend(Wrap(value), bits)
  {
    var (m, h, k) := (Pow2(bits), Pow2(bits - 1), Pow2(WORD_BITS - bits));
    Pow2Sum(bits, WORD_BITS - bits);
    Pow2Word();
    ShiftOut(value, m, k);
    LowOfWrap(value, m, k);
    ShiftBack(value % m, h, k);
  }

  lemma MulLess(a: int, b: int, k: int)
    requires a < b && k > 0
    ensures a * k < b * k && a * k <= (b - 1) * k
    ensures a >= 0 ==> a * k >= 0
  {
  }

  /** Taking a number modulo a word does not change its low bits. */
  lemma LowOfWrap(value: int, m: int, k: int)
    requires m > 0 && k > 0 && m * k == WORD
    ensures Wrap(value) % m == value % m
  {
    var (q, r) := (value / WORD, value % WORD);
    var (a, b) := (r / m, r % m);
    assert value == WORD * q + r && r == m * a + b;
    assert value == m * (k * q + a) + b by {
      assert m * (k * q) == WORD * q by {
        assert (m * k) * q == m * (k * q);
      }
      assert m * (k * q + a) == m * (k * q) + m * a;
    }
    DivUnique(value, m, k * q + a, b);
  }

  /** The shift-based test is the range test of two's complement, for every width. */
  lemma FitsSignedIsRange(value: int, bits: nat)
    requires -WORD / 2 <= value < WORD / 2
    ensures FitsSigned(value, bits) <==>
      if bits == 0 then value == 0 else bits >= WORD_BITS || -(Pow2(bits - 1) as int) <= value < Pow2(bits - 1)
  {
    if 0 < bits < WORD_BITS {
      ShiftsExtend(value, bits);
      SignExtendIs(value, bits);
    }
  }

  /** Sign extension of the low bits gives the value back exactly when it is in range. */
  lemma SignExtendIs(value: int, bits: nat)
    requires 0 < bits <= WORD_BITS && -WORD / 2 <= value < WORD / 2
    ensures SignExtend(Wrap(value), bits) == value <==> -(Pow2(bits - 1) as int) <= value < Pow2(bits - 1)
  {
    var (m, h, k) := (Pow2(bits), Pow2(bits - 1), Pow2(WORD_BITS - bits));
    Pow2Sum(bits, WORD_BITS - bits);
    Pow2Word();
    LowOfWrap(value, m, k);
    if -h <= value < 0 {
      DivUnique(value, m, -1, value + m);
    } else if 0 <= value < h {
      DivUnique(value, m, 0, value);
    }
  }

  // ----- writing a field -----

  /** The bytes of a field: the value and the addend, in the width of the field. */
  function FieldBytes(r: Relocation, value: Word): (bytes: seq<Byte>)
    ensures |bytes| == r.Width()
  {
    Bytes(Wrap(value + r.addend), r.Width())
  }

  function ApplyRaw(r: Relocation, dest: seq<Byte>, at: nat, value: Word): (d: seq<Byte>)
    requires r.FieldOk() && at + r.End() <= |dest|
    ensures |d| == |dest|
  {
    Written(dest, at + r.offset, FieldBytes(r, value))
  }

  lemma FieldIsLow(r: Relocation, value: Word)
    requires r.FieldOk() && r.addend == 0
    ensures Decode(FieldBytes(r, value)) == value % Pow2(r.size)
  {
    assert 8 * r.Width() == r.size;
    assert Wrap(value) == value;
    DecodeBytes(value, r.Width());
  }

  lemma LowTwice(value: nat, m: int)
    requires m > 0
    ensures value % m % m == value % m && (value % m == value <==> value < m)
  {
    DivUnique(value % m, m, 0, value % m);
    if value < m {
      DivUnique(value, m, 0, value);
    }
  }

  lemma UnsignedExactly(value: Word, bits: nat)
    requires 0 < bits <= WORD_BITS
    ensures FitsUnsigned(value, bits) <==> ZeroExtend(value % Pow2(bits), bits) == value
  {
    Pow2Word();
    LowTwice(value, Pow2(bits));
  }

  lemma SignedExactly(value: Word, bits: nat)
    requires 0 < bits <= WORD_BITS
    ensures FitsSigned(Signed(value), bits) <==> SignExtend(value % Pow2(bits), bits) == Signed(value)
  {
    hide Pow2, FitsSigned;
    LowTwice(value, Pow2(bits));
    FitsSignedIsRange(Signed(value), bits);
    SignExtendIs(Signed(value), bits);
    assert Wrap(Signed(value)) == value;
    if bits == WORD_BITS {
      WholeWord(Signed(value));
    }
  }

  lemma WholeWord(value: int)
    requires -WORD / 2 <= value < WORD / 2
    ensures -(Pow2(WORD_BITS - 1) as int) <= value < Pow2(WORD_BITS - 1)
  {
    Pow2Word();
    assert Pow2(64) == 2 * Pow2(63);
  }

  /** An absolute field without addend supports exactly the values it gives back: by zero
      extension if it is generic, by sign extension if it is signed. */
  lemma SupportsExactly(r: Relocation, value: Word)
    requires r.FieldOk() && !r.relative && r.addend == 0
    ensures r.SupportsValue(value) <==>
      if r.encoding.Generic? then ZeroExtend(Decode(FieldBytes(r, value)), r.size) == value
      else SignExtend(Decode(FieldBytes(r, value)), r.size) == Signed(value)
  {
    hide Pow2, FitsSigned, FitsUnsigned, ZeroExtend, SignExtend, FieldBytes;
    FieldIsLow(r, value);
    UnsignedExactly(value, r.size);
    SignedExactly(value, r.size);
  }

  // ----- delayed relocations -----

  datatype DelayedTarget = Block(block: nat) | Constant(index: nat) | RuntimeSymbol(symbol: nat) | AfterStencil

  /** A relocation of the stencil at `offset` whose target has no address yet. */
  datatype Delayed = Delayed(offset: nat, relocation: Relocation, target: DelayedTarget)
  {
    function Location(): nat {
      offset + relocation.offset
    }

    function End(): nat {
      offset + relocation.End()
    }

    function Resolve(base: nat, value: nat): Word {
      if relocation.relative then Wrap(value - (base + Location())) else Wrap(value)
    }

    function Apply(dest: seq<Byte>, value: Word): (d: seq<Byte>)
      requires relocation.FieldOk() && End() <= |dest|
      ensures |d| == |dest|
    {
      ApplyRaw(relocation, dest, offset, value)
    }
  }

  /** The formula of section 4.4 of the System V ABI AMD64 supplement: S + A, or S + A - P for a
      relative relocation at the place `P`. */
  function Formula(r: Relocation, symbol: nat, place: nat): Word {
    Wrap(symbol + r.addend - if r.relative then place else 0)
  }

  /** Resolving and then applying a delayed relocation computes that formula. */
  lemma ResolveIsFormula(d: Delayed, base: nat, symbol: nat)
    ensures FieldBytes(d.relocation, d.Resolve(base, symbol))
         == Bytes(Formula(d.relocation, symbol, base + d.Location()), d.relocation.Width())
  {
    var shift := if d.relocation.relative then base + d.Location() else 0;
    WrapSum(symbol - shift, d.relocation.addend);
  }
}
