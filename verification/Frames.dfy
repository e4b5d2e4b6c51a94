/** Packing integers into the bits of a frame and reading them back. Bytes and words are sequences of bits,
    least significant first; shifting and masking are written out on them. */
module Frames {

  const EIGHT_ZEROS := [false, false, false, false, false, false, false, false]
  const SIXTEEN_ZEROS := EIGHT_ZEROS + EIGHT_ZEROS
  const THIRTY_TWO_ZEROS := SIXTEEN_ZEROS + SIXTEEN_ZEROS

  type Byte = b: seq<bool> | |b| == 8 witness EIGHT_ZEROS
  type Word = w: seq<bool> | |w| == 64 witness THIRTY_TWO_ZEROS + THIRTY_TWO_ZEROS

  const ZERO: Word := THIRTY_TWO_ZEROS + THIRTY_TWO_ZEROS

  function Ones(len: nat, n: nat): (r: seq<bool>)
    ensures |r| == len && forall i :: 0 <= i < len ==> r[i] == (i < n)
  {
    seq(len, i => i < n)
  }

  function And(a: seq<bool>, b: seq<bool>): (r: seq<bool>)
    requires |a| == |b|
    ensures |r| == |a| && forall i :: 0 <= i < |r| ==> r[i] == (a[i] && b[i])
  {
    seq(|a|, i requires 0 <= i < |a| => a[i] && b[i])
  }

  function Or(a: seq<bool>, b: seq<bool>): (r: seq<bool>)
    requires |a| == |b|
    ensures |r| == |a| && forall i :: 0 <= i < |r| ==> r[i] == (a[i] || b[i])
  {
    seq(|a|, i requires 0 <= i < |a| => a[i] || b[i])
  }

  function Shl(a: seq<bool>, k: nat): (r: seq<bool>)
    ensures |r| == |a| && forall i :: 0 <= i < |r| ==> r[i] == (i >= k && a[i - k])
  {
    seq(|a|, i requires 0 <= i < |a| => i >= k && a[i - k])
  }

  function Shr(a: seq<bool>, k: nat): (r: seq<bool>)
    ensures |r| == |a| && forall i :: 0 <= i < |r| ==> r[i] == (i + k < |a| && a[i + k])
  {
    seq(|a|, i requires 0 <= i < |a| => i + k < |a| && a[i + k])
  }

  /** A byte as a word. */
  function Widen(b: Byte): (w: Word)
    ensures forall i :: 0 <= i < 64 ==> w[i] == (i < 8 && b[i])
  {
    seq(64, i requires 0 <= i < 64 => i < 8 && b[i])
  }

  /** The low byte of a word. */
  function LowByte(w: Word): (b: Byte)
    ensures forall i :: 0 <= i < 8 ==> b[i] == w[i]
  {
    w[..8]
  }

  /** Doubling a mask n times, starting from 1: n + 1 ones. */
  method Mask(len: nat, n: nat) returns (c: seq<bool>)
    requires 0 < len
    ensures |c| == len && c == Ones(len, n + 1)
  {
    c := Ones(len, 1);
    var i := 0;
    while i < n
      invariant i <= n && |c| == len && forall j :: 0 <= j < len ==> c[j] == (j <= i)
    {
      c := Or(c, Shl(c, 1));
      i := i + 1;
    }
  }

  /** Bit k of a frame. */
  function Bit(data: seq<Byte>, k: nat): bool
    requires k < 8 * |data|
  {
    data[k / 8][k % 8]
  }

  // ---------------------------------------------------------------------- writing one field

  /** Bit i of the value that a field of width w holds: the value's own low bits; a field of one bit holds
      whether the value is not zero. */
  function FieldBit(v: Word, w: nat, i: nat): bool
    requires i < w <= 64
  {
    if w == 1 then v != ZERO else v[i]
  }

  /** Cuts the value to the field. Widths without a mask of their own keep one bit too many. */
  method Cut(v: Word, w: nat) returns (r: Word)
    requires 1 <= w <= 64
    ensures forall i :: 0 <= i < w ==> r[i] == FieldBit(v, w, i)
    ensures forall i :: w < i < 64 ==> !r[i]
  {
    r := v;
    if w < 64 {
      if w == 1 {
        r := if v == ZERO then ZERO else Ones(64, 1);
      } else if w == 4 || w == 8 || w == 12 || w == 16 || w == 20 || w == 24 || w == 28 || w == 32 {
        r := And(v, Ones(64, w));
      } else {
        var mask := Mask(64, w);
        r := And(v, mask);
      }
    }
  }

  /** Bits lo..hi of the frame hold the low bits of v. */
  ghost predicate Holds(data: seq<Byte>, lo: nat, hi: nat, v: Word)
    requires lo <= hi <= 8 * |data|
  {
    forall k {:trigger Bit(data, k)} :: lo <= k < hi && k < lo + 64 ==> Bit(data, k) == v[k - lo]
  }

  ghost predicate SameBelow(a: seq<Byte>, b: seq<Byte>, k: nat)
    requires |a| == |b| && k <= 8 * |a|
  {
    forall i :: 0 <= i < k ==> Bit(a, i) == Bit(b, i)
  }

  ghost predicate SameBytesFrom(a: seq<Byte>, b: seq<Byte>, n: nat)
    requires |a| == |b|
  {
    forall i :: n <= i < |a| ==> a[i] == b[i]
  }

  lemma Sandwich(a: seq<Byte>, b: seq<Byte>, c: seq<Byte>, k: nat, l: nat)
    requires |a| == |b| == |c| && k <= l <= 8 * |a| && SameBelow(b, a, k) && SameBelow(c, b, l)
    ensures SameBelow(c, a, k)
  {
  }

  /** From frame a to frame b, `len` bits of v were written at bit off: bits before it and bytes after it stay. */
  ghost predicate PartWritten(a: seq<Byte>, b: seq<Byte>, off: nat, len: nat, v: Word)
    requires off + len <= 8 * |b|
  {
    |a| == |b| && SameBelow(b, a, off) && Holds(b, off, off + len, v) && SameBytesFrom(b, a, (off + len + 7) / 8)
  }

  lemma JoinParts(a: seq<Byte>, b: seq<Byte>, c: seq<Byte>, off: nat, l: nat, m: nat, v: Word)
    requires |b| == |c| && l + m <= 64 && off + l + m <= 8 * |c|
    requires PartWritten(a, b, off, l, v) && PartWritten(b, c, off + l, m, Shr(v, l))
    ensures PartWritten(a, c, off, l + m, v)
  {
    Sandwich(a, b, c, off, off + l);
    forall k | off <= k < off + l + m
      ensures Bit(c, k) == v[k - off]
    {
      if k < off + l {
        assert Bit(c, k) == Bit(b, k);
      }
    }
  }

  /** The part of the field in a byte that earlier fields have begun. */
  method WriteHead(data: array<Byte>, off: nat, w: nat, v: Word) returns (d: nat)
    requires off % 8 != 0 && 1 <= w <= 64 && off + w <= 8 * data.Length
    modifies data
    ensures d == (if 8 - off % 8 < w then 8 - off % 8 else w)
    ensures PartWritten(old(data[..]), data[..], off, d, v)
  {
    var o := off % 8;
    d := 8 - o;
    var b := data[off / 8];
    if d > w {
      d := w;
    }
    var c1 := Mask(8, d);
    var c2 := Mask(8, o - 1);
    data[off / 8] := Or(And(b, c2), Shl(And(LowByte(v), c1), o));
  }

  /** Frame b is frame a with n whole bytes of v from byte `at` on. */
  ghost predicate BytesOf(a: seq<Byte>, b: seq<Byte>, at: nat, n: nat, v: Word)
    requires |a| == |b| && n <= 8 && at + n <= |a|
  {
    forall j {:trigger b[j]} :: 0 <= j < |b| ==> b[j] == if at <= j < at + n then v[8 * (j - at)..8 * (j - at) + 8]
      else a[j]
  }

  lemma NextByte(a: seq<Byte>, b: seq<Byte>, at: nat, i: nat, v: Word)
    requires |a| == |b| && i < 8 && at + i < |a| && BytesOf(a, b, at, i, v)
    ensures BytesOf(a, b[at + i := LowByte(Shr(v, 8 * i))], at, i + 1, v)
    ensures Shr(Shr(v, 8 * i), 8) == Shr(v, 8 * (i + 1))
  {
    assert LowByte(Shr(v, 8 * i)) == v[8 * i..8 * i + 8];
  }

  lemma BytesHold(a: seq<Byte>, b: seq<Byte>, off: nat, n: nat, v: Word)
    requires |a| == |b| && n <= 8 && off % 8 == 0 && off / 8 + n <= |a| && BytesOf(a, b, off / 8, n, v)
    ensures PartWritten(a, b, off, 8 * n, v)
  {
    forall k | off <= k < off + 8 * n
      ensures Bit(b, k) == v[k - off]
    {
      assert b[k / 8] == v[8 * (k / 8 - off / 8)..8 * (k / 8 - off / 8) + 8];
      assert 8 * (k / 8 - off / 8) + k % 8 == k - off;
    }
  }

  /** Whole bytes from a byte boundary on. */
  method WriteBytes(data: array<Byte>, off: nat, n: nat, v: Word) returns (rest: Word)
    requires off % 8 == 0 && n <= 8 && off + 8 * n <= 8 * data.Length
    modifies data
    ensures rest == Shr(v, 8 * n)
    ensures PartWritten(old(data[..]), data[..], off, 8 * n, v)
  {
    ghost var a := data[..];
    rest := v;
    var i := 0;
    while i < n
      invariant i <= n && rest == Shr(v, 8 * i)
      invariant BytesOf(a, data[..], off / 8, i, v)
    {
      NextByte(a, data[..], off / 8, i, v);
      data[off / 8 + i] := LowByte(rest);
      rest := Shr(rest, 8);
      i := i + 1;
    }
    BytesHold(old(data[..]), data[..], off, n, v);
  }

  /** The last bits, in a byte of their own. */
  method WriteTail(data: array<Byte>, off: nat, r: nat, v: Word)
    requires off % 8 == 0 && 1 <= r < 8 && off + r <= 8 * data.Length
    modifies data
    ensures PartWritten(old(data[..]), data[..], off, r, v)
  {
    if r == 1 {
      if v[0] {
        data[off / 8] := Or(data[off / 8], Ones(8, 1));
      } else {
        data[off / 8] := And(data[off / 8], [false, true, true, true, true, true, true, true]);
      }
    } else {
      var c := Mask(8, r - 1);
      data[off / 8] := And(c, LowByte(v));
    }
  }

  /** Bits that the field shares with a byte begun by earlier fields. */
  function HeadBits(off: nat, w: nat): (d: nat)
    requires 1 <= w
    ensures d <= w && d < 8
  {
    if off % 8 == 0 then 0 else if 8 - off % 8 < w then 8 - off % 8 else w
  }

  /** The field's whole bytes, and the bits left for a last byte. */
  function WholeBytes(off: nat, w: nat): nat
    requires 1 <= w
  {
    (w - HeadBits(off, w)) / 8
  }

  function TailBits(off: nat, w: nat): (r: nat)
    requires 1 <= w
    ensures r < 8 && HeadBits(off, w) + 8 * WholeBytes(off, w) + r == w
  {
    (w - HeadBits(off, w)) % 8
  }

  /** Bits off..off+w hold the field. */
  ghost predicate FieldAt(data: seq<Byte>, off: nat, w: nat, v: Word)
    requires 1 <= w <= 64 && off + w <= 8 * |data|
  {
    forall i {:trigger FieldBit(v, w, i)} {:trigger Bit(data, off + i)} ::
      0 <= i < w ==> Bit(data, off + i) == FieldBit(v, w, i)
  }

  /** The part of the field from a byte boundary on. */
  method WriteRest(data: array<Byte>, off: nat, left: nat, v: Word)
    requires off % 8 == 0 && left <= 64 && off + left <= 8 * data.Length
    modifies data
    ensures PartWritten(old(data[..]), data[..], off, left, v)
  {
    var n, r := left / 8, left % 8;
    var rest := WriteBytes(data, off, n, v);
    ghost var d := data[..];
    if 0 < r {
      WriteTail(data, off + 8 * n, r, rest);
      JoinParts(old(data[..]), d, data[..], off, 8 * n, r, v);
    }
  }

  /** Writes one field: everything before it stays, its bits are set, no byte beyond it is touched. */
  method WriteField(data: array<Byte>, off: nat, w: nat, v: Word)
    requires 1 <= w <= 64 && off + w <= 8 * data.Length
    modifies data
    ensures SameBelow(data[..], old(data[..]), off)
    ensures FieldAt(data[..], off, w, v)
    ensures SameBytesFrom(data[..], old(data[..]), (off + w + 7) / 8)
  {
    var cut := Cut(v, w);
    var d := 0;
    if off % 8 != 0 {
      d := WriteHead(data, off, w, cut);
    }
    if d < w {
      ghost var d1 := data[..];
      WriteRest(data, off + d, w - d, Shr(cut, d));
      JoinParts(old(data[..]), d1, data[..], off, d, w - d, cut);
    }
    CutMakesField(data[..], off, w, cut, v);
  }

  lemma CutMakesField(data: seq<Byte>, off: nat, w: nat, cut: Word, v: Word)
    requires 1 <= w <= 64 && off + w <= 8 * |data| && Holds(data, off, off + w, cut)
    requires forall i :: 0 <= i < w ==> cut[i] == FieldBit(v, w, i)
    ensures FieldAt(data, off, w, v)
  {
    forall i | 0 <= i < w
      ensures Bit(data, off + i) == FieldBit(v, w, i)
    {
      assert Bit(data, off + i) == cut[off + i - off];
    }
  }

  // ---------------------------------------------------------------------- reading one field

  /** The value stored in bits off..off+w. */
  function Stored(data: seq<Byte>, off: nat, w: nat): (v: Word)
    requires 1 <= w <= 64 && off + w <= 8 * |data|
    ensures forall i :: 0 <= i < 64 ==> v[i] == (i < w && Bit(data, off + i))
  {
    seq(64, i requires 0 <= i < 64 => i < w && Bit(data, off + i))
  }

  /** What reading returns: the bits of the last byte land above the whole bytes, not above head and bytes. */
  function ReadBits(data: seq<Byte>, off: nat, w: nat): (v: Word)
    requires 1 <= w <= 64 && off + w <= 8 * |data|
    ensures var d, n, r := HeadBits(off, w), WholeBytes(off, w), TailBits(off, w);
      forall i ::
        0 <= i < 64 ==>
          v[i] == ((i < d + 8 * n && Bit(data, off + i)) || (8 * n <= i < 8 * n + r && Bit(data, off + d + i)))
  {
    var d, n, r := HeadBits(off, w), WholeBytes(off, w), TailBits(off, w);
    seq(64, i requires 0 <= i < 64 => (i < d + 8 * n && Bit(data, off + i))
        || (8 * n <= i < 8 * n + r && Bit(data, off + d + i)))
  }

  /** The part of the field in a byte that earlier fields have begun. */
  method ReadHead(data: array<Byte>, off: nat, w: nat) returns (v: Word, d: nat)
    requires off % 8 != 0 && 1 <= w <= 64 && off + w <= 8 * data.Length
    ensures d == HeadBits(off, w)
    ensures HasBits(v, data[..], off, 0, d)
  {
    var o := off % 8;
    d := 8 - o;
    v := Shr(Widen(data[off / 8]), o);
    if d > w {
      var c1 := Mask(8, w - 1);
      v := And(v, Widen(c1));
      d := w;
    }
  }

  method ReadField(data: array<Byte>, off: nat, w: nat) returns (v: Word)
    requires 1 <= w <= 64 && off + w <= 8 * data.Length
    ensures v == ReadBits(data[..], off, w)
  {
    v := ZERO;
    var bitsRead := 0;
    if off % 8 != 0 {
      v, bitsRead := ReadHead(data, off, w);
    }
    if bitsRead < w {
      v := ReadRest(data, off + bitsRead, w, bitsRead, v, off);
    }
  }

  method ReadRest(data: array<Byte>, off: nat, w: nat, bits: nat, head: Word, ghost off0: nat) returns (v: Word)
    requires 1 <= w <= 64 && off0 + w <= 8 * data.Length && off % 8 == 0 && off == off0 + bits
    requires bits == HeadBits(off0, w)
    requires HasBits(head, data[..], off0, 0, bits)
    ensures v == ReadBits(data[..], off0, w)
  {
    var bytes, bitsRead, afterBoundary := ReadBytes(data, off, w, bits, off0);
    BytesThenTail(off0, w, afterBoundary);
    v := Or(head, bytes);
    ghost var front := v;
    if bitsRead < w {
      v := ReadTail(data, off + afterBoundary, w - bitsRead, afterBoundary, v);
    }
    ghost var d := data[..];
    forall i | 0 <= i < 64
      ensures v[i] == ReadBits(d, off0, w)[i]
    {
      assert front[i] == (i < bitsRead && Bit(d, off0 + i));
    }
  }

  /** The bits of the last byte. */
  method ReadTail(data: array<Byte>, off: nat, left: nat, shift: nat, v0: Word) returns (v: Word)
    requires off % 8 == 0 && 1 <= left < 8 && off + left <= 8 * data.Length && shift % 8 == 0
    ensures forall i {:trigger v[i]} ::
      0 <= i < 64 ==> v[i] == (v0[i] || (shift <= i < shift + left && Bit(data[..], off + (i - shift))))
  {
    var ch := Mask(64, left - 1);
    var target := And(Widen(data[off / 8]), ch);
    v := Or(v0, Shl(target, shift));
    forall i | 0 <= i < 64
      ensures v[i] == (v0[i] || (shift <= i < shift + left && Bit(data[..], off + (i - shift))))
    {
      if shift <= i < shift + left {
        assert (off + (i - shift)) / 8 == off / 8 && (off + (i - shift)) % 8 == i - shift;
      }
    }
  }

  /** Bits lo..hi of v are those of the frame, seen from bit off; the others are zero. */
  ghost predicate HasBits(v: Word, data: seq<Byte>, off: nat, lo: nat, hi: nat)
    requires hi <= 64 && off + hi <= 8 * |data|
  {
    forall i {:trigger v[i]} :: 0 <= i < 64 ==> v[i] == (lo <= i < hi && Bit(data, off + i))
  }

  lemma AddByte(v: Word, data: seq<Byte>, off: nat, lo: nat, hi: nat)
    requires lo <= hi <= 56 && off + hi + 8 <= 8 * |data| && (off + hi) % 8 == 0 && HasBits(v, data, off, lo, hi)
    ensures HasBits(Or(v, Shl(Widen(data[(off + hi) / 8]), hi)), data, off, lo, hi + 8)
  {
    var b := data[(off + hi) / 8];
    forall i | 0 <= i < 64
      ensures Or(v, Shl(Widen(b), hi))[i] == (lo <= i < hi + 8 && Bit(data, off + i))
    {
      if hi <= i < hi + 8 {
        assert (off + i) / 8 == (off + hi) / 8 && (off + i) % 8 == i - hi;
      }
    }
  }

  lemma BytesThenTail(off: nat, w: nat, bytes: nat)
    requires 1 <= w && bytes % 8 == 0 && HeadBits(off, w) + bytes <= w < HeadBits(off, w) + bytes + 8
    ensures bytes == 8 * WholeBytes(off, w) && w - HeadBits(off, w) - bytes == TailBits(off, w)
  {
  }

  method ReadBytes(data: array<Byte>, off: nat, w: nat, bits: nat, ghost off0: nat)
    returns (v: Word, bitsRead: nat, afterBoundary: nat)
    requires w <= 64 && off0 + w <= 8 * data.Length && off % 8 == 0 && off == off0 + bits && bits <= w
    ensures afterBoundary % 8 == 0 && bitsRead == bits + afterBoundary <= w < bitsRead + 8
    ensures HasBits(v, data[..], off0, bits, bitsRead)
  {
    ghost var d := data[..];
    v, bitsRead, afterBoundary := ZERO, bits, 0;
    while w - bitsRead >= 8
      invariant bitsRead == bits + afterBoundary <= w && afterBoundary % 8 == 0
      invariant HasBits(v, d, off0, bits, bitsRead)
    {
      AddByte(v, d, off0, bits, bitsRead);
      v := Or(v, Shl(Widen(data[(off + afterBoundary) / 8]), bitsRead));
      bitsRead := bitsRead + 8;
      afterBoundary := afterBoundary + 8;
    }
  }

  /** The bits of the last byte are all zero. */
  predicate TailZero(data: seq<Byte>, off: nat, w: nat)
    requires 1 <= w <= 64 && off + w <= 8 * |data|
  {
    forall k :: off + w - TailBits(off, w) <= k < off + w ==> !Bit(data, k)
  }

  /** Reading returns the stored value exactly if the field has no head, or no tail, or only zeros there. */
  lemma ReadsStoredIff(data: seq<Byte>, off: nat, w: nat)
    requires 1 <= w <= 64 && off + w <= 8 * |data|
    ensures ReadBits(data, off, w) == Stored(data, off, w)
       <==> HeadBits(off, w) == 0 || TailBits(off, w) == 0 || TailZero(data, off, w)
  {
    var d, n, r := HeadBits(off, w), WholeBytes(off, w), TailBits(off, w);
    var got, want := ReadBits(data, off, w), Stored(data, off, w);
    if d == 0 || r == 0 || TailZero(data, off, w) {
      forall i | 0 <= i < 64
        ensures got[i] == want[i]
      {
        if d != 0 && d + 8 * n <= d + i < w {
          assert r == 0 || !Bit(data, off + d + i);
        }
        if d + 8 * n <= i < w {
          assert d == 0 || !Bit(data, off + i);
        }
      }
      assert got == want;
    } else {
      var i := LastTailBit(data, off, w);
      assert !got[i] && want[i];
    }
  }

  const LOW_BIT: Byte := [true, false, false, false, false, false, false, false]

  /** Eight bits from bit 4 on that hold 16 are read as 1. */
  lemma SixteenReadAsOne()
    ensures var data: seq<Byte> := [EIGHT_ZEROS, LOW_BIT];
      && (forall i :: 0 <= i < 64 ==> Stored(data, 4, 8)[i] == (i == 4))
      && (forall i :: 0 <= i < 64 ==> ReadBits(data, 4, 8)[i] == (i == 0))
  {
    var data: seq<Byte> := [EIGHT_ZEROS, LOW_BIT];
    forall k | 4 <= k < 12
      ensures Bit(data, k) == (k == 8)
    {
      assert if k < 8 then data[k / 8] == EIGHT_ZEROS else data[k / 8] == LOW_BIT && k % 8 == k - 8;
    }
  }

  /** With a head, the highest set bit of the tail is missing from what is read. */
  lemma LastTailBit(data: seq<Byte>, off: nat, w: nat) returns (i: nat)
    requires 1 <= w <= 64 && off + w <= 8 * |data|
    requires HeadBits(off, w) != 0 && TailBits(off, w) != 0 && !TailZero(data, off, w)
    ensures i < 64 && !ReadBits(data, off, w)[i] && Stored(data, off, w)[i]
  {
    var d, n, r := HeadBits(off, w), WholeBytes(off, w), TailBits(off, w);
    var k := HighestSet(data, off + w - r, off + w);
    i := k - off;
    if i < 8 * n + r {
      assert !Bit(data, off + d + i);
    }
  }

  lemma {:induction false} HighestSet(data: seq<Byte>, lo: nat, hi: nat) returns (k: nat)
    requires lo <= hi <= 8 * |data| && !forall k :: lo <= k < hi ==> !Bit(data, k)
    ensures lo <= k < hi && Bit(data, k) && forall l :: k < l < hi ==> !Bit(data, l)
    decreases hi
  {
    if Bit(data, hi - 1) {
      k := hi - 1;
    } else {
      k := HighestSet(data, lo, hi - 1);
    }
  }
}
