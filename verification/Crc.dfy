/** The MAVLink checksum the telemetry checkers compute byte by byte, against its bit-serial definition:
    the reflected CRC with polynomial 0x8408 and initial value 0xFFFF of section C.2 of RFC 1662, without
    the final complement. Shifts and masks are written as the divisions and remainders they are. */
module Crc {
  import opened Bits

  const INITIAL: nat := 0xFFFF
  const POLYNOMIAL: nat := 0x8408

  // ---- The byte-wise loop ----

  // Folds the high nibble of a mixed byte in.
  function Mix(m: nat): nat {
    Xor(m, (m * 16) % 256)
  }

  function StepByte(crc: nat, data: Byte): nat {
    var byte := Mix(Xor(data, crc % 256));
    Xor(Xor(Xor(crc / 256, byte * 256), byte * 8), byte / 16) % 65536
  }

  function CrcFrom(crc: nat, data: Bytes): nat
    decreases |data|
  {
    if data == [] then crc else StepByte(CrcFrom(crc, data[..|data| - 1]), data[|data| - 1])
  }

  // ---- The bit-serial definition ----

  function Shift(c: nat): nat {
    if c % 2 == 1 then Xor(c / 2, POLYNOMIAL) else c / 2
  }

  function BitCrc(crc: nat, bits: seq<nat>): nat
    decreases |bits|
  {
    if bits == [] then crc else Shift(Xor(BitCrc(crc, bits[..|bits| - 1]), bits[|bits| - 1]))
  }

  // The n lowest bits of a number, least significant first.
  function LowBits(n: nat, b: nat): seq<nat> {
    if n == 0 then [] else LowBits(n - 1, b) + [Down(n - 1, b) % 2]
  }

  function MessageBits(data: Bytes): seq<nat>
    decreases |data|
  {
    if data == [] then [] else MessageBits(data[..|data| - 1]) + LowBits(8, data[|data| - 1])
  }

  function Shifts(n: nat, c: nat): nat {
    if n == 0 then c else Shift(Shifts(n - 1, c))
  }

  // ---- The register is linear and injective ----

  lemma ShiftLinear(c: nat, d: nat)
    ensures Shift(Xor(c, d)) == Xor(Shift(c), Shift(d))
  {
    var p := POLYNOMIAL;
    XorParity(c, d);
    if c % 2 == 1 && d % 2 == 1 {
      XorSwapInner(c / 2, p, d / 2, p);
      XorSelf(p);
      XorZero(Xor(c / 2, d / 2));
    } else if c % 2 == 1 {
      XorAssociates(c / 2, d / 2, p);
      XorCommutes(d / 2, p);
      XorAssociates(c / 2, p, d / 2);
    } else if d % 2 == 1 {
      XorAssociates(c / 2, d / 2, p);
    }
  }

  lemma {:induction false} ShiftsLinear(n: nat, c: nat, d: nat)
    ensures Shifts(n, Xor(c, d)) == Xor(Shifts(n, c), Shifts(n, d))
  {
    if n > 0 {
      ShiftsLinear(n - 1, c, d);
      ShiftLinear(Shifts(n - 1, c), Shifts(n - 1, d));
    }
  }

  lemma {:induction false} ShiftsAdd(m: nat, n: nat, c: nat)
    ensures Shifts(m, Shifts(n, c)) == Shifts(m + n, c)
  {
    if m > 0 { ShiftsAdd(m - 1, n, c); }
  }

  // An even register only moves down.
  lemma {:induction false} ShiftsOfMultiple(n: nat, q: nat)
    ensures Shifts(n, Up(n, q)) == q
  {
    hide Xor;
    if n > 0 {
      var c := Up(n, q);
      assert Shifts(1, c) == Shift(Shifts(0, c)) == Up(n - 1, q);
      ShiftsAdd(n - 1, 1, c);
      ShiftsOfMultiple(n - 1, q);
    }
  }

  // Xor keeps the top digit of a number when the other is below it.
  lemma {:induction false} XorKeepsTop(bits: nat, a: nat, b: nat)
    requires a < PowerOfTwo(bits) <= b < 2 * PowerOfTwo(bits)
    ensures PowerOfTwo(bits) <= Xor(a, b) < 2 * PowerOfTwo(bits)
  {
    if bits == 0 {
      assert a == 0 && b == 1;
      XorZero(b);
    } else {
      XorKeepsTop(bits - 1, a / 2, b / 2);
    }
  }

  lemma PowersOfTwo()
    ensures PowerOfTwo(4) == 16 && PowerOfTwo(8) == 256 && PowerOfTwo(12) == 4096
    ensures PowerOfTwo(15) == 32768 && PowerOfTwo(16) == 65536
  {
    assert PowerOfTwo(2) == 4;
    assert PowerOfTwo(4) == 16;
    assert PowerOfTwo(6) == 64;
    assert PowerOfTwo(8) == 256;
    assert PowerOfTwo(10) == 1024;
    assert PowerOfTwo(12) == 4096;
    assert PowerOfTwo(14) == 16384;
  }

  lemma ShiftInjective(c: nat, d: nat)
    requires c < 65536 && d < 65536 && Shift(c) == Shift(d)
    ensures c == d
  {
    PowersOfTwo();
    XorKeepsTop(15, c / 2, POLYNOMIAL);
    XorKeepsTop(15, d / 2, POLYNOMIAL);
    assert c % 2 == d % 2;
    if c % 2 == 1 { XorCancel(c / 2, d / 2, POLYNOMIAL); }
  }

  lemma ShiftBound(c: nat)
    requires c < 65536
    ensures Shift(c) < 65536
  {
    PowersOfTwo();
    XorKeepsTop(15, c / 2, POLYNOMIAL);
  }

  lemma {:induction false} ShiftsBound(n: nat, c: nat)
    requires c < 65536
    ensures Shifts(n, c) < 65536
  {
    if n > 0 {
      ShiftsBound(n - 1, c);
      ShiftBound(Shifts(n - 1, c));
    }
  }

  lemma {:induction false} ShiftsInjective(n: nat, c: nat, d: nat)
    requires c < 65536 && d < 65536 && Shifts(n, c) == Shifts(n, d)
    ensures c == d
  {
    if n > 0 {
      ShiftsBound(n - 1, c);
      ShiftsBound(n - 1, d);
      ShiftInjective(Shifts(n - 1, c), Shifts(n - 1, d));
      ShiftsInjective(n - 1, c, d);
    }
  }

  // ---- One byte of the loop is eight bits of the register ----

  // What a mixed-in byte contributes to the byte-wise step.
  function Table(m: nat): nat {
    var b := Mix(m);
    Xor(Xor(b * 256, b * 8), b / 16)
  }

  lemma MixLinear(m: nat, n: nat)
    ensures Mix(Xor(m, n)) == Xor(Mix(m), Mix(n))
  {
    hide Xor;
    SmallPowers();
    LargePowers();
    XorTimes(4, 16, m, n, m * 16, n * 16);
    XorQuotients(8, 256, m * 16, n * 16, m * 16 / 256, n * 16 / 256, (m * 16) % 256, (n * 16) % 256);
    XorSwapInner(m, n, (m * 16) % 256, (n * 16) % 256);
  }

  lemma TableLinear(m: nat, n: nat)
    ensures Table(Xor(m, n)) == Xor(Table(m), Table(n))
  {
    hide Xor;
    MixLinear(m, n);
    var a, b := Mix(m), Mix(n);
    SmallPowers();
    LargePowers();
    XorTimes(8, 256, a, b, a * 256, b * 256);
    XorTimes(3, 8, a, b, a * 8, b * 8);
    XorQuotients(4, 16, a, b, a / 16, b / 16, a % 16, b % 16);
    XorSwapInner(a * 256, b * 256, a * 8, b * 8);
    XorSwapInner(Xor(a * 256, a * 8), Xor(b * 256, b * 8), a / 16, b / 16);
  }

  // The byte-wise contribution of a single bit, given how its three parts lie apart.
  lemma TableOf(m: nat, b: nat, n1: nat, p1: nat, q1: nat, n2: nat, p2: nat, q2: nat)
    requires Mix(m) == b
    requires p1 == PowerOfTwo(n1) && p1 * q1 == 256 * b && 8 * b < p1
    requires p2 == PowerOfTwo(n2) && p2 * q2 == 264 * b && b / 16 < p2
    ensures Table(m) == 264 * b + b / 16
  {
    hide Xor;
    Disjoint(n1, p1, q1, 8 * b);
    Disjoint(n2, p2, q2, b / 16);
  }

  lemma LowMix(m: nat, n: nat, p: nat)
    requires p == PowerOfTwo(n) && 16 * m == p && m < 16
    ensures Mix(m) == 17 * m
  {
    hide Xor;
    Disjoint(n, p, 1, m);
  }

  lemma LowTable()
    ensures Table(1) == 0x1189 && Table(2) == 0x2312 && Table(4) == 0x4624 && Table(8) == 0x8C48
  {
    hide Xor;
    SmallPowers();
    LargePowers();
    LowMix(1, 4, 16);
    LowMix(2, 5, 32);
    LowMix(4, 6, 64);
    LowMix(8, 7, 128);
    TableOf(1, 17, 8, 256, 17, 3, 8, 561);
    TableOf(2, 34, 9, 512, 17, 4, 16, 561);
    TableOf(4, 68, 10, 1024, 17, 5, 32, 561);
    TableOf(8, 136, 11, 2048, 17, 6, 64, 561);
  }

  lemma HighMix(m: nat)
    requires m % 16 == 0 && m < 256
    ensures Mix(m) == m
  {
    hide Xor;
    XorZero(m);
  }

  lemma HighTable()
    ensures Table(16) == 0x1081 && Table(32) == 0x2102 && Table(64) == 0x4204 && Table(128) == 0x8408
  {
    hide Xor;
    SmallPowers();
    LargePowers();
    HighMix(16);
    HighMix(32);
    HighMix(64);
    HighMix(128);
    TableOf(16, 16, 12, 4096, 1, 7, 128, 33);
    TableOf(32, 32, 13, 8192, 1, 8, 256, 33);
    TableOf(64, 64, 14, 16384, 1, 9, 512, 33);
    TableOf(128, 128, 15, 32768, 1, 10, 1024, 33);
  }

  // The registers a single bit goes through once it reaches the lowest digit.
  lemma OneMoreShift(n: nat, c: nat, before: nat, after: nat)
    requires Shifts(n, c) == before && Shift(before) == after
    ensures Shifts(n + 1, c) == after
  {
  }

  lemma BitTrail()
    ensures Shifts(1, 1) == 0x8408 && Shifts(2, 1) == 0x4204 && Shifts(3, 1) == 0x2102 && Shifts(4, 1) == 0x1081
    ensures Shifts(5, 1) == 0x8C48 && Shifts(6, 1) == 0x4624 && Shifts(7, 1) == 0x2312 && Shifts(8, 1) == 0x1189
  {
    hide Xor, Shifts;
    TrailStart();
    XorOfTrail();
    OneMoreShift(1, 1, 0x8408, 0x4204);
    OneMoreShift(2, 1, 0x4204, 0x2102);
    OneMoreShift(3, 1, 0x2102, 0x1081);
    OneMoreShift(4, 1, 0x1081, 0x8C48);
    OneMoreShift(5, 1, 0x8C48, 0x4624);
    OneMoreShift(6, 1, 0x4624, 0x2312);
    OneMoreShift(7, 1, 0x2312, 0x1189);
  }

  lemma TrailStart()
    ensures Shifts(1, 1) == 0x8408
  {
    hide Xor;
    XorZero(POLYNOMIAL);
    assert Shifts(0, 1) == 1;
    OneMoreShift(0, 1, 1, 0x8408);
  }

  // 0x0840 is 0x0800 and 0x0040; 0x8408 is 0x8400 and 0x0008.
  lemma XorOfTrail()
    ensures Xor(0x0840, POLYNOMIAL) == 0x8C48
  {
    hide Xor;
    SmallPowers();
    LargePowers();
    Disjoint(11, 2048, 1, 64);
    Disjoint(10, 1024, 33, 8);
    XorSwapInner(2048, 64, 33792, 8);
    Disjoint(6, 64, 1, 8);
    UpperDigits();
    Disjoint(7, 128, 280, 72);
  }

  lemma UpperDigits()
    ensures Xor(2048, 33792) == 35840
  {
    hide Xor;
    SmallPowers();
    LargePowers();
    Disjoint(15, 32768, 1, 1024);
    Disjoint(11, 2048, 1, 1024);
    XorCommutes(2048, 33792);
    XorAssociates(32768, 1024, 2048);
    Disjoint(15, 32768, 1, 3072);
  }

  lemma SingleBit(i: nat)
    requires i < 8
    ensures Table(PowerOfTwo(i)) == Shifts(8, PowerOfTwo(i))
  {
    hide Xor;
    ShiftsOfMultiple(i, 1);
    UpIsProduct(i, 1);
    ShiftsAdd(8 - i, i, PowerOfTwo(i));
    SmallPowers();
    BitTrail();
    LowTable();
    HighTable();
  }

  lemma TableOfTop(p: nat, m: nat)
    requires Table(p) == Shifts(8, p) && Table(m) == Shifts(8, m)
    ensures Table(Xor(p, m)) == Shifts(8, Xor(p, m))
  {
    hide Xor;
    hide Table;
    TableLinear(p, m);
    ShiftsLinear(8, p, m);
  }

  lemma {:induction false} TableIsEightShifts(bits: nat, m: nat)
    requires bits <= 8 && m < PowerOfTwo(bits)
    ensures Table(m) == Shifts(8, m)
  {
    hide Xor;
    hide Table;
    if bits == 0 {
      ZeroTable();
    } else if m < PowerOfTwo(bits - 1) {
      TableIsEightShifts(bits - 1, m);
    } else {
      var p := PowerOfTwo(bits - 1);
      XorTop(bits - 1, m - p);
      SingleBit(bits - 1);
      TableIsEightShifts(bits - 1, m - p);
      TableOfTop(p, m - p);
    }
  }

  lemma ZeroTable()
    ensures Table(0) == Shifts(8, 0) == 0
  {
    hide Xor;
    ZeroStays(8);
    XorZero(0);
  }

  lemma {:induction false} ZeroStays(n: nat)
    ensures Shifts(n, 0) == 0
  {
    if n > 0 { ZeroStays(n - 1); }
  }

  // Eight shifts of any register, as the byte-wise expression has them.
  lemma EightShifts(x: nat)
    ensures Shifts(8, x) == Xor(x / 256, Table(x % 256))
  {
    hide Xor;
    SmallPowers();
    LargePowers();
    Disjoint(8, 256, x / 256, x % 256);
    assert x == 256 * (x / 256) + x % 256;
    ShiftsLinear(8, 256 * (x / 256), x % 256);
    ShiftsOfMultiple(8, x / 256);
    UpIsProduct(8, x / 256);
    TableIsEightShifts(8, x % 256);
  }

  // A byte fed bit by bit, or xor-ed in beforehand: the bits still to feed sit above the register's bottom.
  lemma FeedBit(s: nat, d: nat)
    ensures Shift(Xor(s, d)) == Xor(Shift(Xor(s, d % 2)), d / 2)
  {
    hide Xor;
    SmallPowers();
    Disjoint(1, 2, d / 2, d % 2);
    FeedParts(s, d % 2, 2 * (d / 2));
  }

  lemma FeedParts(s: nat, bit: nat, rest: nat)
    requires rest % 2 == 0
    ensures Shift(Xor(s, Xor(bit, rest))) == Xor(Shift(Xor(s, bit)), rest / 2)
  {
    hide Xor;
    XorAssociates(s, bit, rest);
    ShiftLinear(Xor(s, bit), rest);
  }

  lemma {:induction false} FeedBits(n: nat, crc: nat, b: nat)
    ensures Xor(BitCrc(crc, LowBits(n, b)), Down(n, b)) == Shifts(n, Xor(crc, b))
  {
    hide Xor;
    if n > 0 {
      var bits := LowBits(n, b);
      var d := Down(n - 1, b);
      assert bits[..|bits| - 1] == LowBits(n - 1, b);
      FeedBits(n - 1, crc, b);
      FeedBit(BitCrc(crc, LowBits(n - 1, b)), d);
      DownStep(n - 1, b);
    }
  }

  lemma ByteOfBits(crc: nat, b: Byte)
    ensures BitCrc(crc, LowBits(8, b)) == Shifts(8, Xor(crc, b))
  {
    hide Xor;
    hide BitCrc;
    hide LowBits;
    hide Shifts;
    hide Down;
    FeedBits(8, crc, b);
    SmallPowers();
    LargePowers();
    DownIsQuotient(8, b);
    XorZero(BitCrc(crc, LowBits(8, b)));
  }

  lemma SplitRegister(crc: nat, data: Byte)
    requires crc < 65536
    ensures Xor(crc, data) < 65536
    ensures Xor(crc, data) / 256 == crc / 256 && Xor(crc, data) % 256 == Xor(data, crc % 256)
  {
    hide Xor;
    SmallPowers();
    LargePowers();
    assert PowerOfTwo(16) == 65536;
    XorBound(crc, data, 16);
    XorQuotients(8, 256, crc, data, crc / 256, 0, crc % 256, data);
    XorZero(crc / 256);
    XorCommutes(crc % 256, data);
  }

  lemma StepByTable(crc: nat, data: Byte)
    ensures StepByte(crc, data) == Xor(crc / 256, Table(Xor(data, crc % 256))) % 65536
  {
    hide Xor;
    hide Mix;
    var b := Mix(Xor(data, crc % 256));
    XorAssociates(crc / 256, b * 256, b * 8);
    XorAssociates(crc / 256, Xor(b * 256, b * 8), b / 16);
  }

  // One turn of the byte-wise loop is eight shifts of the register with the byte xor-ed in.
  lemma StepByteIsEightShifts(crc: nat, data: Byte)
    requires crc < 65536
    ensures StepByte(crc, data) == Shifts(8, Xor(crc, data)) < 65536
    ensures Xor(crc, data) < 65536
  {
    hide Xor;
    hide Shifts;
    hide Table;
    hide StepByte;
    SplitRegister(crc, data);
    EightShifts(Xor(crc, data));
    ShiftsBound(8, Xor(crc, data));
    StepByTable(crc, data);
  }

  lemma {:induction false} BitCrcAppend(crc: nat, xs: seq<nat>, ys: seq<nat>)
    ensures BitCrc(crc, xs + ys) == BitCrc(BitCrc(crc, xs), ys)
    decreases |ys|
  {
    hide Xor;
    if ys == [] {
      assert xs + ys == xs;
    } else {
      var n := |ys| - 1;
      assert (xs + ys)[..|xs + ys| - 1] == xs + ys[..n];
      BitCrcAppend(crc, xs, ys[..n]);
    }
  }

  lemma {:induction false} CrcBound(crc: nat, data: Bytes)
    requires crc < 65536
    ensures CrcFrom(crc, data) < 65536
    decreases |data|
  {
    if data != [] {
      CrcBound(crc, data[..|data| - 1]);
      StepByteIsEightShifts(CrcFrom(crc, data[..|data| - 1]), data[|data| - 1]);
    }
  }

  /** For every message the byte-wise checksum is the bit-serial CRC. */
  lemma {:induction false} BytewiseIsBitwise(crc: nat, data: Bytes)
    requires crc < 65536
    ensures CrcFrom(crc, data) == BitCrc(crc, MessageBits(data))
    decreases |data|
  {
    hide Xor;
    hide StepByte;
    if data != [] {
      var init := data[..|data| - 1];
      var last := data[|data| - 1];
      BytewiseIsBitwise(crc, init);
      CrcBound(crc, init);
      StepByteIsEightShifts(CrcFrom(crc, init), last);
      ByteOfBits(CrcFrom(crc, init), last);
      BitCrcAppend(crc, MessageBits(init), LowBits(8, last));
    }
  }

  /** The checksum loop of the checkers: the bit-serial CRC of the whole message, started at 0xFFFF. */
  method CrcX25(data: Bytes) returns (crc: nat)
    ensures crc == CrcFrom(INITIAL, data) == BitCrc(0xFFFF, MessageBits(data))
  {
    crc := INITIAL;
    for i := 0 to |data|
      invariant crc == CrcFrom(INITIAL, data[..i])
    {
      var byte: nat := Xor(data[i], crc % 256);
      byte := Xor(byte, (byte * 16) % 256);
      crc := Xor(Xor(Xor(crc / 256, byte * 256), byte * 8), byte / 16) % 65536;
      assert data[..i + 1][..i] == data[..i];
    }
    assert data[..|data|] == data;
    BytewiseIsBitwise(INITIAL, data);
  }

  // ---- Linearity over messages ----

  function XorBytes(m: Bytes, n: Bytes): (r: Bytes)
    requires |m| == |n|
    ensures |r| == |m|
  {
    seq(|m|, i requires 0 <= i < |m| => XorByte(m[i], n[i]))
  }

  lemma StepLinear(c: nat, d: nat, a: Byte, b: Byte)
    requires c < 65536 && d < 65536
    ensures Xor(c, d) < 65536
    ensures StepByte(Xor(c, d), XorByte(a, b)) == Xor(StepByte(c, a), StepByte(d, b))
  {
    hide Xor;
    assert PowerOfTwo(16) == 65536 by { SmallPowers(); LargePowers(); }
    XorBound(c, d, 16);
    StepByteIsEightShifts(c, a);
    StepByteIsEightShifts(d, b);
    StepByteIsEightShifts(Xor(c, d), XorByte(a, b));
    XorSwapInner(c, d, a, b);
    ShiftsLinear(8, Xor(c, a), Xor(d, b));
  }

  /** The checksum is linear: of the exclusive-or of two messages, from the exclusive-or of two registers, it
      is the exclusive-or of the two checksums. */
  lemma {:induction false} CrcLinear(c: nat, d: nat, m: Bytes, n: Bytes)
    requires c < 65536 && d < 65536 && |m| == |n|
    ensures CrcFrom(Xor(c, d), XorBytes(m, n)) == Xor(CrcFrom(c, m), CrcFrom(d, n))
    decreases |m|
  {
    hide Xor;
    hide StepByte;
    if m != [] {
      var k := |m| - 1;
      assert XorBytes(m, n)[..k] == XorBytes(m[..k], n[..k]);
      CrcLinear(c, d, m[..k], n[..k]);
      CrcBound(c, m[..k]);
      CrcBound(d, n[..k]);
      StepLinear(CrcFrom(c, m[..k]), CrcFrom(d, n[..k]), m[k], n[k]);
    }
  }

  // ---- Error detection ----

  lemma StateInjective(c: nat, d: nat, b: Byte)
    requires c < 65536 && d < 65536 && StepByte(c, b) == StepByte(d, b)
    ensures c == d
  {
    hide Xor;
    StepByteIsEightShifts(c, b);
    StepByteIsEightShifts(d, b);
    ShiftsInjective(8, Xor(c, b), Xor(d, b));
    XorCancel(c, d, b);
  }

  lemma {:induction false} CrcStateInjective(c: nat, d: nat, data: Bytes)
    requires c < 65536 && d < 65536 && CrcFrom(c, data) == CrcFrom(d, data)
    ensures c == d
    decreases |data|
  {
    hide StepByte;
    if data != [] {
      var init := data[..|data| - 1];
      CrcBound(c, init);
      CrcBound(d, init);
      StateInjective(CrcFrom(c, init), CrcFrom(d, init), data[|data| - 1]);
      CrcStateInjective(c, d, init);
    }
  }
}
