/** Which corruptions the checksum tells apart: every burst of at most sixteen bits, at any alignment. */
module CrcDetection {
  import opened Bits
  import opened Crc

  predicate AreBits(bits: seq<nat>) {
    forall k :: 0 <= k < |bits| ==> bits[k] < 2
  }

  // The number with the given lowest bits, least significant first.
  function FromBits(bits: seq<nat>): nat {
    if bits == [] then 0 else bits[0] + 2 * FromBits(bits[1..])
  }

  lemma {:induction false} FromBitsBound(bits: seq<nat>)
    requires AreBits(bits)
    ensures FromBits(bits) < PowerOfTwo(|bits|)
  {
    if bits != [] { FromBitsBound(bits[1..]); }
  }

  lemma {:induction false} LowBitsFront(n: nat, b: nat)
    requires n > 0
    ensures LowBits(n, b) == [b % 2] + LowBits(n - 1, b / 2)
  {
    if n > 1 {
      LowBitsFront(n - 1, b);
      assert [b % 2] + LowBits(n - 2, b / 2) + [Down(n - 1, b) % 2] == [b % 2] + LowBits(n - 1, b / 2);
    }
  }

  lemma {:induction false} LowBitsOfFrom(bits: seq<nat>)
    requires AreBits(bits)
    ensures LowBits(|bits|, FromBits(bits)) == bits
  {
    if bits != [] {
      LowBitsFront(|bits|, FromBits(bits));
      LowBitsOfFrom(bits[1..]);
    }
  }

  lemma {:induction false} FromLowBits(n: nat, b: nat)
    requires b < PowerOfTwo(n)
    ensures |LowBits(n, b)| == n && AreBits(LowBits(n, b)) && FromBits(LowBits(n, b)) == b
  {
    if n > 0 {
      LowBitsFront(n, b);
      FromLowBits(n - 1, b / 2);
      assert LowBits(n, b)[1..] == LowBits(n - 1, b / 2);
    }
  }

  lemma {:induction false} SmallerPower(m: nat, n: nat)
    requires m <= n
    ensures PowerOfTwo(m) <= PowerOfTwo(n)
  {
    if m < n { SmallerPower(m, n - 1); }
  }

  lemma Sixteen()
    ensures PowerOfTwo(16) == 65536
  {
    LargePowers();
  }

  lemma {:induction false} NothingAbove(n: nat, b: nat)
    requires b < PowerOfTwo(n)
    ensures Down(n, b) == 0
  {
    if n > 0 { NothingAbove(n - 1, b / 2); }
  }

  lemma WindowBound(c: nat, bits: seq<nat>)
    requires c < 65536 && AreBits(bits) && |bits| <= 16
    ensures FromBits(bits) < 65536 && Xor(c, FromBits(bits)) < 65536
  {
    hide Xor, PowerOfTwo, FromBits;
    FromBitsBound(bits);
    SmallerPower(|bits|, 16);
    Sixteen();
    XorBound(c, FromBits(bits), 16);
  }

  // Feeding bits is shifting the register with their number xor-ed in.
  lemma FeedWindow(c: nat, bits: seq<nat>)
    requires AreBits(bits)
    ensures BitCrc(c, bits) == Shifts(|bits|, Xor(c, FromBits(bits)))
  {
    hide *;
    FromBitsBound(bits);
    LowBitsOfFrom(bits);
    FeedBits(|bits|, c, FromBits(bits));
    NothingAbove(|bits|, FromBits(bits));
    XorZero(BitCrc(c, bits));
  }

  /** From one register, different windows of at most sixteen bits lead to different registers. */
  lemma WindowInjective(c: nat, xs: seq<nat>, ys: seq<nat>)
    requires c < 65536 && AreBits(xs) && AreBits(ys) && |xs| == |ys| <= 16
    requires BitCrc(c, xs) == BitCrc(c, ys)
    ensures xs == ys
  {
    hide Xor, BitCrc, Shifts, FromBits;
    FeedWindow(c, xs);
    FeedWindow(c, ys);
    WindowBound(c, xs);
    WindowBound(c, ys);
    ShiftsInjective(|xs|, Xor(c, FromBits(xs)), Xor(c, FromBits(ys)));
    XorCancel(FromBits(xs), FromBits(ys), c);
    LowBitsOfFrom(xs);
    LowBitsOfFrom(ys);
  }

  lemma FedBitBound(c: nat, bit: nat)
    requires c < 65536 && bit < 2
    ensures Xor(c, bit) < 65536 && Shift(Xor(c, bit)) < 65536
  {
    hide Xor, Shift;
    Sixteen();
    XorBound(c, bit, 16);
    ShiftBound(Xor(c, bit));
  }

  lemma {:induction false} BitCrcBound(c: nat, bits: seq<nat>)
    requires c < 65536 && AreBits(bits)
    ensures BitCrc(c, bits) < 65536
    decreases |bits|
  {
    hide Xor, Shift;
    if bits != [] {
      var n := |bits| - 1;
      BitCrcBound(c, bits[..n]);
      FedBitBound(BitCrc(c, bits[..n]), bits[n]);
    }
  }

  // Over the same bits, different registers stay different.
  lemma {:induction false} BitStateInjective(c: nat, d: nat, bits: seq<nat>)
    requires c < 65536 && d < 65536 && AreBits(bits) && BitCrc(c, bits) == BitCrc(d, bits)
    ensures c == d
    decreases |bits|
  {
    hide Xor, Shift;
    if bits != [] {
      var n := |bits| - 1;
      var x, y := BitCrc(c, bits[..n]), BitCrc(d, bits[..n]);
      BitCrcBound(c, bits[..n]);
      BitCrcBound(d, bits[..n]);
      FedBitBound(x, bits[n]);
      FedBitBound(y, bits[n]);
      ShiftInjective(Xor(x, bits[n]), Xor(y, bits[n]));
      XorCancel(x, y, bits[n]);
      BitStateInjective(c, d, bits[..n]);
    }
  }

  // The bits before, inside and after a window.
  lemma CrcAround(c: nat, bits: seq<nat>, i: nat, w: nat)
    requires c < 65536 && AreBits(bits) && i + w <= |bits|
    ensures BitCrc(c, bits) == BitCrc(BitCrc(BitCrc(c, bits[..i]), bits[i..i + w]), bits[i + w..])
    ensures BitCrc(c, bits[..i]) < 65536 && BitCrc(BitCrc(c, bits[..i]), bits[i..i + w]) < 65536
  {
    hide BitCrc;
    assert bits == bits[..i] + (bits[i..i + w] + bits[i + w..]);
    BitCrcAppend(c, bits[..i], bits[i..i + w] + bits[i + w..]);
    BitCrcAppend(BitCrc(c, bits[..i]), bits[i..i + w], bits[i + w..]);
    BitCrcBound(c, bits[..i]);
    BitCrcBound(BitCrc(c, bits[..i]), bits[i..i + w]);
  }

  // The strings agree outside a window.
  predicate AgreeOutside(xs: seq<nat>, ys: seq<nat>, i: nat, w: nat) {
    |xs| == |ys| && forall k :: 0 <= k < |xs| && !(i <= k < i + w) ==> xs[k] == ys[k]
  }

  lemma BitBurstDetected(c: nat, xs: seq<nat>, ys: seq<nat>, i: nat, w: nat)
    requires c < 65536 && AreBits(xs) && AreBits(ys) && AgreeOutside(xs, ys, i, w) && i + w <= |xs| && w <= 16
    requires BitCrc(c, xs) == BitCrc(c, ys)
    ensures xs == ys
  {
    hide BitCrc;
    assert xs[..i] == ys[..i] && xs[i + w..] == ys[i + w..];
    CrcAround(c, xs, i, w);
    CrcAround(c, ys, i, w);
    var r := BitCrc(c, xs[..i]);
    BitStateInjective(BitCrc(r, xs[i..i + w]), BitCrc(r, ys[i..i + w]), xs[i + w..]);
    WindowInjective(r, xs[i..i + w], ys[i..i + w]);
    assert xs == xs[..i] + xs[i..i + w] + xs[i + w..];
    assert ys == ys[..i] + ys[i..i + w] + ys[i + w..];
  }

  // ---- Bytes and their bits ----

  lemma ByteBits(b: Byte)
    ensures |LowBits(8, b)| == 8 && AreBits(LowBits(8, b)) && FromBits(LowBits(8, b)) == b
  {
    hide LowBits, FromBits;
    LargePowers();
    FromLowBits(8, b);
  }

  lemma {:induction false} MessageBitsShape(data: Bytes)
    ensures |MessageBits(data)| == 8 * |data| && AreBits(MessageBits(data))
    decreases |data|
  {
    hide LowBits;
    if data != [] {
      MessageBitsShape(data[..|data| - 1]);
      ByteBits(data[|data| - 1]);
    }
  }

  lemma {:induction false} MessageBitsAppend(m: Bytes, n: Bytes)
    ensures MessageBits(m + n) == MessageBits(m) + MessageBits(n)
    decreases |n|
  {
    hide LowBits;
    if n == [] {
      assert m + n == m;
    } else {
      var k := |n| - 1;
      assert (m + n)[..|m + n| - 1] == m + n[..k];
      MessageBitsAppend(m, n[..k]);
    }
  }

  lemma {:induction false} MessageBitsInjective(m: Bytes, n: Bytes)
    requires |m| == |n| && MessageBits(m) == MessageBits(n)
    ensures m == n
    decreases |m|
  {
    hide LowBits, FromBits;
    if m != [] {
      var k := |m| - 1;
      MessageBitsShape(m[..k]);
      MessageBitsShape(n[..k]);
      ByteBits(m[k]);
      ByteBits(n[k]);
      assert MessageBits(m)[..8 * k] == MessageBits(m[..k]) && MessageBits(n)[..8 * k] == MessageBits(n[..k]);
      assert MessageBits(m)[8 * k..] == LowBits(8, m[k]) && MessageBits(n)[8 * k..] == LowBits(8, n[k]);
      MessageBitsInjective(m[..k], n[..k]);
      assert m == m[..k] + [m[k]] && n == n[..k] + [n[k]];
    }
  }

  /** Two messages of one length whose bits differ only inside a window of at most sixteen, wherever it starts,
      and that have the same checksum, are the same message. */
  lemma BurstDetected(crc: nat, m: Bytes, n: Bytes, i: nat, w: nat)
    requires crc < 65536 && |m| == |n| && w <= 16 && i + w <= 8 * |m|
    requires AgreeOutside(MessageBits(m), MessageBits(n), i, w)
    requires CrcFrom(crc, m) == CrcFrom(crc, n)
    ensures m == n
  {
    hide *;
    BytewiseIsBitwise(crc, m);
    BytewiseIsBitwise(crc, n);
    MessageBitsShape(m);
    MessageBitsShape(n);
    BitBurstDetected(crc, MessageBits(m), MessageBits(n), i, w);
    MessageBitsInjective(m, n);
  }

  lemma CrcOfPair(crc: nat, a: Byte, b: Byte)
    ensures CrcFrom(crc, [a, b]) == StepByte(StepByte(crc, a), b)
  {
    hide StepByte;
    assert [a, b][..1] == [a] && [a][..0] == [];
    assert CrcFrom(crc, [a]) == StepByte(CrcFrom(crc, []), a);
  }

  /** Two bytes in a row leave a register that tells which two bytes they were. */
  lemma TwoBytesInjective(c: nat, a1: Byte, a2: Byte, b1: Byte, b2: Byte)
    requires c < 65536 && StepByte(StepByte(c, a1), a2) == StepByte(StepByte(c, b1), b2)
    ensures a1 == b1 && a2 == b2
  {
    hide StepByte, CrcFrom, MessageBits;
    CrcOfPair(c, a1, a2);
    CrcOfPair(c, b1, b2);
    MessageBitsShape([a1, a2]);
    MessageBitsShape([b1, b2]);
    BurstDetected(c, [a1, a2], [b1, b2], 0, 16);
    assert [a1, a2][0] == [b1, b2][0] && [a1, a2][1] == [b1, b2][1];
  }
}
