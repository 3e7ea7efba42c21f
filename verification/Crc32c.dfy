/** CRC32C: the processor's instruction on words and bytes against the bit-serial register of section 12.1 of RFC
    3720. Bit strings are in the order the register takes them, the lowest bit of a byte first; the register's first
    bit is its highest power. */
module Crc32c {

  import opened Common

  type Bits = seq<bool>

  /** The polynomial 11EDC6F41h without its leading term, the highest power first. */
  const POLY: Bits := [
    false, false, false, true, true, true, true, false, true, true, false, true, true, true, false, false,
    false, true, true, false, true, true, true, true, false, true, false, false, false, false, false, true]

  // ----- numbers and bits -----

  /** The low `n` bits of a number, the lowest first. */
  function ToBits(v: nat, n: nat): (r: Bits)
    ensures |r| == n
  {
    if n == 0 then [] else [v % 2 == 1] + ToBits(v / 2, n - 1)
  }

  function FromBits(b: Bits): nat {
    if b == [] then 0 else (if b[0] then 1 else 0) + 2 * FromBits(b[1..])
  }

  lemma {:induction false} FromBitsBound(b: Bits)
    ensures FromBits(b) < Pow2(|b|)
  {
    if b != [] {
      FromBitsBound(b[1..]);
    }
  }

  lemma LowBit(x: nat, y: nat)
    requires x < 2
    ensures (x + 2 * y) % 2 == x && (x + 2 * y) / 2 == y
  {
  }

  lemma {:induction false} BitsBack(b: Bits)
    ensures ToBits(FromBits(b), |b|) == b
  {
    if b != [] {
      BitsBack(b[1..]);
      var x: nat := if b[0] then 1 else 0;
      var y := FromBits(b[1..]);
      LowBit(x, y);
      assert FromBits(b) == x + 2 * y;
    }
  }

  lemma {:induction false} NumberBack(v: nat, n: nat)
    requires v < Pow2(n)
    ensures FromBits(ToBits(v, n)) == v
  {
    if n > 0 {
      NumberBack(v / 2, n - 1);
    }
  }

  lemma {:induction false} BitsOfSum(low: nat, high: nat, n: nat, m: nat)
    requires low < Pow2(n)
    ensures ToBits(low + Pow2(n) * high, n + m) == ToBits(low, n) + ToBits(high, m)
  {
    if n > 0 {
      var p := Pow2(n - 1);
      assert Pow2(n) * high == 2 * (p * high);
      BitsOfSum(low / 2, high, n - 1, m);
      assert (low + 2 * (p * high)) % 2 == low % 2 && (low + 2 * (p * high)) / 2 == low / 2 + p * high;
    }
  }

  function DataBits(data: seq<byte>): (r: Bits)
    ensures |r| == 8 * |data|
  {
    if data == [] then [] else ToBits(data[0], 8) + DataBits(data[1..])
  }

  lemma {:induction false} DataBitsJoin(a: seq<byte>, b: seq<byte>)
    ensures DataBits(a + b) == DataBits(a) + DataBits(b)
  {
    if a == [] {
      assert a + b == b;
    } else {
      hide ToBits;
      DataBitsJoin(a[1..], b);
      assert (a + b)[1..] == a[1..] + b;
      var first := ToBits(a[0], 8);
      assert first + (DataBits(a[1..]) + DataBits(b)) == first + DataBits(a[1..]) + DataBits(b);
    }
  }

  lemma BytePow()
    ensures Pow2(8) == 256 && Pow2(32) == 0x1_0000_0000
  {
    assert Pow2(4) == 16 && Pow2(8) == 256;
    assert Pow2(12) == 4096 && Pow2(16) == 65536;
    assert Pow2(24) == 0x100_0000 && Pow2(32) == 0x1_0000_0000;
  }

  lemma {:induction false} SameData(a: seq<byte>, b: seq<byte>)
    requires |a| == |b| && DataBits(a) == DataBits(b)
    ensures a == b
  {
    if a != [] {
      BytePow();
      var x, y := ToBits(a[0], 8), ToBits(b[0], 8);
      assert x == DataBits(a)[..8] == y && DataBits(a)[8..] == DataBits(a[1..]) && DataBits(b)[8..] == DataBits(b[1..]);
      NumberBack(a[0], 8);
      NumberBack(b[0], 8);
      SameData(a[1..], b[1..]);
      assert a == [a[0]] + a[1..] && b == [b[0]] + b[1..];
    }
  }

  /** A little-endian load. */
  function Load(data: seq<byte>): nat {
    if data == [] then 0 else data[0] + 256 * Load(data[1..])
  }

  lemma {:induction false} LoadBits(data: seq<byte>)
    ensures ToBits(Load(data), 8 * |data|) == DataBits(data)
  {
    if data != [] {
      LoadBits(data[1..]);
      BytePow();
      BitsOfSum(data[0], Load(data[1..]), 8, 8 * (|data| - 1));
    }
  }

  // ----- the register -----

  function Xor(a: Bits, b: Bits): (r: Bits)
    requires |a| == |b|
    ensures |r| == |a|
  {
    seq(|a|, i requires 0 <= i < |a| => a[i] != b[i])
  }

  function Zeros(n: nat): (r: Bits)
    ensures |r| == n
  {
    seq(n, (i: nat) => false)
  }

  /** One bit shifted in. */
  function Shift(r: Bits, bit: bool): (next: Bits)
    requires |r| == 32
    ensures |next| == 32
  {
    var moved := r[1..] + [false];
    if r[0] != bit then Xor(moved, POLY) else moved
  }

  /** The bits shifted in one by one. */
  function Serial(r: Bits, bits: Bits): (last: Bits)
    requires |r| == 32
    ensures |last| == 32
    decreases |bits|
  {
    if bits == [] then r else Serial(Shift(r, bits[0]), bits[1..])
  }

  /** The remainder of a bit string, as a polynomial, by the polynomial. */
  function Remainder(s: Bits): (r: Bits)
    requires |s| >= 32
    ensures |r| == 32
    decreases |s|
  {
    if |s| == 32 then s
    else if s[0] then Remainder(Xor(s[1..33], POLY) + s[33..])
    else Remainder(s[1..])
  }

  /** The instruction as the processor's manual defines it: the operand above thirty-two zeros, the register above as
      many zeros as the operand has bits, and the remainder of their sum. */
  function Instruction(r: Bits, operand: Bits): (next: Bits)
    requires |r| == 32
    ensures |next| == 32
  {
    Remainder(Xor(operand + Zeros(32), r + Zeros(|operand|)))
  }

  /** One instruction is as many register steps as its operand has bits. */
  lemma {:induction false} InstructionIsSerial(r: Bits, operand: Bits)
    requires |r| == 32
    ensures Instruction(r, operand) == Serial(r, operand)
    decreases |operand|
  {
    var n := |operand|;
    var s := Xor(operand + Zeros(32), r + Zeros(n));
    if n == 0 {
      assert s == r;
    } else {
      var next, rest := Shift(r, operand[0]), operand[1..];
      InstructionIsSerial(next, rest);
      DivisionStep(r, operand);
    }
  }

  lemma DivisionStep(r: Bits, operand: Bits)
    requires |r| == 32 && operand != []
    ensures Instruction(r, operand) == Instruction(Shift(r, operand[0]), operand[1..])
  {
    var n := |operand|;
    var s := Xor(operand + Zeros(32), r + Zeros(n));
    var next, rest := Shift(r, operand[0]), operand[1..];
    var t := Xor(rest + Zeros(32), next + Zeros(n - 1));
    assert s[0] == (r[0] != operand[0]);
    if s[0] {
      assert t == Xor(s[1..33], POLY) + s[33..];
    } else {
      assert t == s[1..];
    }
  }

  lemma {:induction false} SerialJoin(r: Bits, a: Bits, b: Bits)
    requires |r| == 32
    ensures Serial(r, a + b) == Serial(Serial(r, a), b)
    decreases |a|
  {
    if a == [] {
      assert a + b == b;
    } else {
      assert (a + b)[1..] == a[1..] + b;
      SerialJoin(Shift(r, a[0]), a[1..], b);
    }
  }

  // ----- the checksum -----

  function Flip(r: Bits): (f: Bits)
    ensures |f| == |r|
  {
    seq(|r|, i requires 0 <= i < |r| => !r[i])
  }

  function ToWord(r: Bits): (v: u32)
    requires |r| == 32
  {
    FromBitsBound(r);
    BytePow();
    FromBits(r)
  }

  /** The register started from a checksum, taken over the data bit by bit, and flipped. */
  function Checksum(crc: u32, data: seq<byte>): u32 {
    ToWord(Flip(Serial(Flip(ToBits(crc, 32)), DataBits(data))))
  }

  /** A checksum may be continued: over data in two parts it is the checksum over both. */
  lemma Continues(crc: u32, a: seq<byte>, b: seq<byte>)
    ensures Checksum(Checksum(crc, a), b) == Checksum(crc, a + b)
  {
    var r := Serial(Flip(ToBits(crc, 32)), DataBits(a));
    BitsBack(Flip(r));
    assert Flip(Flip(r)) == r;
    SerialJoin(Flip(ToBits(crc, 32)), DataBits(a), DataBits(b));
    DataBitsJoin(a, b);
  }

  // ----- what the checksum tells apart -----

  /** A step loses nothing: its last bit says whether the polynomial was added. */
  lemma ShiftTells(r: Bits, q: Bits, x: bool, y: bool)
    requires |r| == 32 && |q| == 32
    ensures Shift(r, x)[31] == (r[0] != x)
    ensures forall i | 0 <= i < 31 :: Shift(r, x)[i] == (r[i + 1] != ((r[0] != x) && POLY[i]))
  {
  }

  /** Registers that end alike after as many bits, at most thirty-two, began alike apart from those bits. */
  lemma {:induction false} BurstTells(r: Bits, q: Bits, x: Bits, y: Bits)
    requires |r| == 32 && |q| == 32 && |x| == |y| <= 32
    requires Serial(r, x) == Serial(q, y)
    ensures forall i | 0 <= i < |x| :: (r[i] != x[i]) == (q[i] != y[i])
    ensures forall i | |x| <= i < 32 :: r[i] == q[i]
    decreases |x|
  {
    if x != [] {
      var r1, q1 := Shift(r, x[0]), Shift(q, y[0]);
      BurstTells(r1, q1, x[1..], y[1..]);
      ShiftTells(r, q, x[0], y[0]);
      ShiftTells(q, r, y[0], x[0]);
      assert r1[31] == q1[31];
      forall i | 1 <= i < 32
        ensures if i < |x| then (r[i] != x[i]) == (q[i] != y[i]) else r[i] == q[i]
      {
        assert r1[i - 1] == (r[i] != ((r[0] != x[0]) && POLY[i - 1]));
        assert q1[i - 1] == (q[i] != ((q[0] != y[0]) && POLY[i - 1]));
        if i < |x| {
          assert (r1[i - 1] != x[1..][i - 1]) == (q1[i - 1] != y[1..][i - 1]);
        }
      }
    }
  }

  /** Registers that end alike after the same bits, however many, began alike. */
  lemma {:induction false} TailTells(r: Bits, q: Bits, b: Bits)
    requires |r| == 32 && |q| == 32 && Serial(r, b) == Serial(q, b)
    ensures r == q
    decreases |b|
  {
    if b != [] {
      TailTells(Shift(r, b[0]), Shift(q, b[0]), b[1..]);
      assert Serial(r, b[..1]) == Serial(q, b[..1]) by {
        assert b[..1][1..] == [];
      }
      BurstTells(r, q, b[..1], b[..1]);
    }
  }

  lemma SameWord(r: Bits, q: Bits)
    requires |r| == 32 && |q| == 32 && ToWord(Flip(r)) == ToWord(Flip(q))
    ensures r == q
  {
    BitsBack(Flip(r));
    BitsBack(Flip(q));
    assert Flip(Flip(r)) == r && Flip(Flip(q)) == q;
  }

  /** Two messages of one length that differ only within four consecutive bytes have different checksums. */
  lemma BurstsDiffer(crc: u32, before: seq<byte>, x: seq<byte>, y: seq<byte>, after: seq<byte>)
    requires |x| == |y| <= 4 && x != y
    ensures Checksum(crc, before + x + after) != Checksum(crc, before + y + after)
  {
    if Checksum(crc, before + x + after) == Checksum(crc, before + y + after) {
      var r0 := Flip(ToBits(crc, 32));
      var r := Serial(r0, DataBits(before));
      InParts(r0, before, x, after);
      InParts(r0, before, y, after);
      var p, q := Serial(r, DataBits(x)), Serial(r, DataBits(y));
      SameWord(Serial(p, DataBits(after)), Serial(q, DataBits(after)));
      TailTells(p, q, DataBits(after));
      BurstTells(r, r, DataBits(x), DataBits(y));
      assert DataBits(x) == DataBits(y);
      SameData(x, y);
      assert false;
    }
  }

  lemma InParts(r: Bits, a: seq<byte>, b: seq<byte>, c: seq<byte>)
    requires |r| == 32
    ensures Serial(r, DataBits(a + b + c)) == Serial(Serial(Serial(r, DataBits(a)), DataBits(b)), DataBits(c))
  {
    DataBitsJoin(a + b, c);
    DataBitsJoin(a, b);
    SerialJoin(r, DataBits(a) + DataBits(b), DataBits(c));
    SerialJoin(r, DataBits(a), DataBits(b));
  }

  // ----- the loops -----

  /** The instruction on a register and an operand of `bits` bits, as numbers. */
  function Crc32(c: u32, v: nat, bits: nat): u32 {
    ToWord(Instruction(ToBits(c, 32), ToBits(v, bits)))
  }

  lemma Crc32IsSerial(c: u32, data: seq<byte>)
    ensures ToBits(Crc32(c, Load(data), 8 * |data|), 32) == Serial(ToBits(c, 32), DataBits(data))
  {
    LoadBits(data);
    InstructionIsSerial(ToBits(c, 32), DataBits(data));
    BitsBack(Serial(ToBits(c, 32), DataBits(data)));
  }

  function Not(c: u32): u32 { 0xFFFF_FFFF - c }

  lemma {:induction false} FlipIsComplement(v: nat, n: nat)
    requires v < Pow2(n)
    ensures ToBits(Pow2(n) - 1 - v, n) == Flip(ToBits(v, n))
  {
    if n > 0 {
      FlipIsComplement(v / 2, n - 1);
      assert (Pow2(n) - 1 - v) / 2 == Pow2(n - 1) - 1 - v / 2;
      assert (Pow2(n) - 1 - v) % 2 == 1 - v % 2;
    }
  }

  lemma NotFlips(c: u32)
    ensures ToBits(Not(c), 32) == Flip(ToBits(c, 32))
  {
    BytePow();
    FlipIsComplement(c, 32);
  }

  /** Words of eight bytes and then bytes. */
  method Crc32c(crc: u32, data: seq<byte>) returns (r: u32)
    ensures r == Checksum(crc, data)
  {
    ghost var start := Flip(ToBits(crc, 32));
    var c, p: nat, n: nat := Not(crc), 0, |data|;
    NotFlips(crc);
    assert data[..0] == [];
    while n >= 8
      invariant p + n == |data|
      invariant ToBits(c, 32) == Serial(start, DataBits(data[..p]))
    {
      TakesMore(start, c, data, p, 8);
      c := Crc32(c, Load(data[p..p + 8]), 64);
      n, p := n - 8, p + 8;
    }
    while n > 0
      invariant p + n == |data|
      invariant ToBits(c, 32) == Serial(start, DataBits(data[..p]))
      decreases n
    {
      TakesMore(start, c, data, p, 1);
      assert Load(data[p..p + 1]) == data[p];
      c := Crc32(c, data[p], 8);
      n, p := n - 1, p + 1;
    }
    assert data[..p] == data;
    NotFlips(c);
    BytePow();
    NumberBack(Not(c), 32);
    r := Not(c);
  }

  lemma TakesMore(start: Bits, c: u32, data: seq<byte>, p: nat, k: nat)
    requires |start| == 32 && p + k <= |data|
    requires ToBits(c, 32) == Serial(start, DataBits(data[..p]))
    ensures ToBits(Crc32(c, Load(data[p..p + k]), 8 * k), 32) == Serial(start, DataBits(data[..p + k]))
  {
    var part := data[p..p + k];
    assert data[..p + k] == data[..p] + part;
    Crc32IsSerial(c, part);
    DataBitsJoin(data[..p], part);
    SerialJoin(start, DataBits(data[..p]), DataBits(part));
  }
}
