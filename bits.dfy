/** The bit reader: fixed-width unsigned fields read from a byte buffer while a
    bit cursor moves from the end of the buffer towards its start. */
module Bits {
  import opened Isa

  /** Bit k of x, counted from the least significant bit: (x >> k) & 1. */
  function Bit(x: nat, k: nat): (b: nat)
    ensures b < 2
  {
    if k == 0 then x % 2 else Bit(x / 2, k - 1)
  }

  /** The buffer bit at position p: bit 7 - p % 8 of byte p / 8, so that position 0
      is the most significant bit of the first byte and 8 * |buf| - 1 the least
      significant bit of the last. */
  function BitAt(buf: seq<byte>, p: nat): (b: nat)
    requires p < 8 * |buf|
    ensures b < 2
  {
    Bit(buf[p / 8], 7 - p % 8)
  }

  /** The value of the w-bit field that ends at cursor p: its bit i is the buffer
      bit at position p - i (the field's last bit in the buffer is its least
      significant). */
  function FieldValue(buf: seq<byte>, p: int, w: nat): nat
    requires w - 1 <= p < 8 * |buf|
  {
    if w == 0 then 0 else BitAt(buf, p) + 2 * FieldValue(buf, p - 1, w - 1)
  }

  /** Reading one more bit: bit i of the field is the buffer bit at p - i, worth 2^i. */
  lemma {:induction false} FieldValueExtend(buf: seq<byte>, p: int, i: nat)
    requires i <= p < 8 * |buf|
    ensures FieldValue(buf, p, i + 1) == FieldValue(buf, p, i) + BitAt(buf, p - i) * Pow2(i)
  {
    if i > 0 {
      FieldValueExtend(buf, p - 1, i - 1);
      var b := BitAt(buf, p - i);
      assert Pow2(i) == 2 * Pow2(i - 1);
      assert 2 * (b * Pow2(i - 1)) == b * Pow2(i);
    }
  }

  /** A w-bit field is below 2^w. */
  lemma {:induction false} FieldValueBound(buf: seq<byte>, p: int, w: nat)
    requires w - 1 <= p < 8 * |buf|
    ensures FieldValue(buf, p, w) < Pow2(w)
  {
    if w > 0 {
      FieldValueBound(buf, p - 1, w - 1);
    }
  }

  /** Bit i of a field value is the buffer bit at p - i. */
  lemma {:induction false} FieldValueBit(buf: seq<byte>, p: int, w: nat, i: nat)
    requires w - 1 <= p < 8 * |buf| && i < w
    ensures Bit(FieldValue(buf, p, w), i) == BitAt(buf, p - i)
  {
    var x := FieldValue(buf, p, w);
    assert x % 2 == BitAt(buf, p) && x / 2 == FieldValue(buf, p - 1, w - 1);
    if i > 0 {
      FieldValueBit(buf, p - 1, w - 1, i - 1);
    }
  }

  /** The buffer bits of a field are the bits of its value. */
  lemma FieldValueBits(buf: seq<byte>, p: int, w: nat)
    requires w - 1 <= p < 8 * |buf|
    ensures FieldValue(buf, p, w) < Pow2(w)
    ensures forall i :: 0 <= i < w ==> Bit(FieldValue(buf, p, w), i) == BitAt(buf, p - i)
  {
    FieldValueBound(buf, p, w);
    forall i | 0 <= i < w
      ensures Bit(FieldValue(buf, p, w), i) == BitAt(buf, p - i)
    {
      FieldValueBit(buf, p, w, i);
    }
  }

  /** The w-bit string of v, least significant bit first: the order in which a
      read of width w meets the bits of its field. */
  function ToBits(v: nat, w: nat): (s: seq<nat>)
    ensures |s| == w
  {
    if w == 0 then [] else [v % 2] + ToBits(v / 2, w - 1)
  }

  /** The buffer holds `bits` at cursor positions p, p - 1, ..., p - |bits| + 1. */
  predicate BitsAt(buf: seq<byte>, p: int, bits: seq<nat>)
  {
    |bits| - 1 <= p < 8 * |buf| &&
    forall j :: 0 <= j < |bits| ==> BitAt(buf, p - j) == bits[j]
  }

  /** Consecutive bit strings sit at consecutive cursor ranges. */
  lemma BitsAtSplit(buf: seq<byte>, p: int, a: seq<nat>, b: seq<nat>)
    requires |a + b| - 1 <= p < 8 * |buf|
    ensures BitsAt(buf, p, a + b) <==> BitsAt(buf, p, a) && BitsAt(buf, p - |a|, b)
  {
    if BitsAt(buf, p, a) && BitsAt(buf, p - |a|, b) {
      forall j | 0 <= j < |a + b|
        ensures BitAt(buf, p - j) == (a + b)[j]
      {
        if j >= |a| {
          assert BitAt(buf, (p - |a|) - (j - |a|)) == b[j - |a|];
        }
      }
    }
    if BitsAt(buf, p, a + b) {
      forall j | 0 <= j < |a|
        ensures BitAt(buf, p - j) == a[j]
      {
        assert (a + b)[j] == a[j];
      }
      forall j | 0 <= j < |b|
        ensures BitAt(buf, (p - |a|) - j) == b[j]
      {
        assert (a + b)[|a| + j] == b[j];
      }
    }
  }

  /** The bits a read consumes are the bits of the value it returns. */
  lemma {:induction false} FieldValueToBits(buf: seq<byte>, p: int, w: nat)
    requires w - 1 <= p < 8 * |buf|
    ensures BitsAt(buf, p, ToBits(FieldValue(buf, p, w), w))
  {
    if w > 0 {
      var x := FieldValue(buf, p, w);
      var rest := FieldValue(buf, p - 1, w - 1);
      assert x % 2 == BitAt(buf, p) && x / 2 == rest;
      FieldValueToBits(buf, p - 1, w - 1);
      var t := ToBits(rest, w - 1);
      assert ToBits(x, w) == [x % 2] + t;
      forall j | 0 <= j < w
        ensures BitAt(buf, p - j) == ToBits(x, w)[j]
      {
        if j > 0 {
          assert BitAt(buf, (p - 1) - (j - 1)) == t[j - 1];
        }
      }
    }
  }

  /** A field holding the w-bit string of v reads back as v. */
  lemma {:induction false} FieldValueOfBits(buf: seq<byte>, p: int, v: nat, w: nat)
    requires v < Pow2(w) && BitsAt(buf, p, ToBits(v, w))
    ensures FieldValue(buf, p, w) == v
  {
    if w > 0 {
      var t := ToBits(v / 2, w - 1);
      assert ToBits(v, w) == [v % 2] + t;
      BitsAtSplit(buf, p, [v % 2], t);
      assert BitAt(buf, p - 0) == [v % 2][0];
      FieldValueOfBits(buf, p - 1, v / 2, w - 1);
      assert FieldValue(buf, p, w) == BitAt(buf, p) + 2 * FieldValue(buf, p - 1, w - 1);
    }
  }

  /** Reading back a field: a read of width w at a cursor that has the w-bit string
      of v under it returns v, moves the cursor down by w and keeps the flag. */
  lemma ReadFieldOfBits(buf: seq<byte>, p: int, err: int, v: byte, w: nat)
    requires 1 <= w <= 8 && v < Pow2(w) && BitsAt(buf, p, ToBits(v, w))
    ensures ReadField(buf, p, err, w) == Read(v, p - w, err)
  {
    FieldValueOfBits(buf, p, v, w);
  }

  /** The converse: the bits a successful read consumes encode the value it returns. */
  lemma ReadFieldBits(buf: seq<byte>, p: int, err: int, w: nat)
    requires 1 <= w <= 8 && w - 1 <= p < 8 * |buf|
    ensures var r := ReadField(buf, p, err, w);
      r.pos == p - w && r.err == err && BitsAt(buf, p, ToBits(r.value, w))
  {
    FieldValueToBits(buf, p, w);
    FieldValueBound(buf, p, w);
    PowMonotone(w, 8);
  }

  /** read_bits: reads a field of w bits ending at cursor `pos` and moves the cursor
      down by w. A width above 8, or a cursor that leaves fewer than w bits, is an
      error: the result is 0, `err` becomes 1 and the cursor stays. Otherwise `err`
      is left as it was. */
  method ReadBits(buf: seq<byte>, w: nat, pos: int, err: int) returns (r: byte, pos': int, err': int)
    requires 1 <= w
    requires -1 <= pos < 8 * |buf|
    ensures Read(r, pos', err') == ReadField(buf, pos, err, w)
    ensures pos < w - 1 || w > 8 ==> r == 0 && pos' == pos && err' == 1
    ensures !(pos < w - 1 || w > 8) ==>
      && r == FieldValue(buf, pos, w)
      && r < Pow2(w)
      && (forall i :: 0 <= i < w ==> Bit(r, i) == BitAt(buf, pos - i))
      && pos' == pos - w
      && err' == err
  {
    if pos < w - 1 || w > 8 {
      return 0, pos, 1;
    }
    var acc: nat := 0;
    var page: nat := pos / 8;
    // The C keeps bit_mask == 1 << shift; shift == 8 is the mask shifted out to 0.
    var shift: nat := 7 - pos % 8;
    var i := 0;
    while i < w
      invariant 0 <= i <= w && shift <= 8
      invariant OnCursor(pos - i, page, shift)
      invariant page < |buf|
      invariant acc == FieldValue(buf, pos, i)
    {
      if shift == 8 {
        // The C returns with *err = -1 when page == 0 here; the entry test
        // pos >= w - 1 keeps the cursor at or above bit 0, so it never does.
        CursorWraps(pos - i, page);
        shift := 0;
        page := page - 1;
      }
      var bit := Bit(buf[page], shift);
      CursorBit(buf, pos - i, page, shift);
      CursorMoves(pos - i, page, shift);
      FieldValueExtend(buf, pos, i);
      FieldValueBound(buf, pos, i);
      // acc < 2^i, so `acc |= bit << i` is an addition.
      acc := acc + bit * Pow2(i);
      shift := shift + 1;
      i := i + 1;
    }
    FieldValueBits(buf, pos, w);
    PowMonotone(w, 8);
    r, pos', err' := acc, pos - w, err;
  }

  /** The C cursor at page and shift (bit `shift` of byte `page`, from the least
      significant bit) stands for the buffer position p. A shift of 8 is the mask
      shifted out: position p is then the last bit of the byte before `page`. */
  predicate OnCursor(p: int, page: nat, shift: nat)
  {
    page * 8 + 7 - shift == p
  }

  lemma CursorBit(buf: seq<byte>, p: int, page: nat, shift: nat)
    requires 0 <= p && page < |buf| && shift < 8 && OnCursor(p, page, shift)
    ensures Bit(buf[page], shift) == BitAt(buf, p)
  {
    assert p / 8 == page && p % 8 == 7 - shift;
  }

  /** Shifting the mask up by one moves the cursor one position down. */
  lemma CursorMoves(p: int, page: nat, shift: nat)
    requires OnCursor(p, page, shift)
    ensures OnCursor(p - 1, page, shift + 1)
  {
  }

  /** A mask shifted out moves to bit 0 of the byte before, which exists while the
      position is not below 0. */
  lemma CursorWraps(p: int, page: nat)
    requires 0 <= p && OnCursor(p, page, 8)
    ensures page > 0 && OnCursor(p, page - 1, 0)
  {
  }

  /** The result of one read, as the loader sees it: value, new cursor, new flag. */
  datatype Read = Read(value: byte, pos: int, err: int)

  /** What ReadBits computes, as a function for the loader's specification. */
  function ReadField(buf: seq<byte>, pos: int, err: int, w: nat): (r: Read)
    requires 1 <= w && -1 <= pos < 8 * |buf|
    ensures -1 <= r.pos <= pos && r.value < Pow2(w)
  {
    if pos < w - 1 || w > 8 then Read(0, pos, 1)
    else
      FieldValueBound(buf, pos, w);
      assert Pow2(w) <= 256 by { PowMonotone(w, 8); }
      Read(FieldValue(buf, pos, w), pos - w, err)
  }

  lemma {:induction false} PowMonotone(a: nat, b: nat)
    requires a <= b
    ensures Pow2(a) <= Pow2(b)
  {
    if a < b {
      PowMonotone(a, b - 1);
    }
  }
}
