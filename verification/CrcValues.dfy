/** Two values that leave one polynomial to the checksum: the check value of the nine digits, and the residue of any
    message with its own checksum behind it. The register is followed on machine words, digit by digit. */
module CrcValues {
  import opened Common
  import opened C = Crc32c

  // ----- values that pin the polynomial -----

  function Low(v: bv32): bool { v & 1 == 1 }

  function Half(v: bv32): bv32 { v >> 1 }

  function Both(a: bv32, b: bv32): bv32 { a ^ b }

  /** The low `n` bits of a machine word, the lowest first. */
  function Word(v: bv32, n: nat): (r: Bits)
    ensures |r| == n
  {
    if n == 0 then [] else [Low(v)] + Word(Half(v), n - 1)
  }

  /** A step of the register on a machine word, with the polynomial in that order of bits. */
  function Stepped(v: bv32, bit: bool): bv32 {
    if Low(v) != bit then Both(Half(v), 0x82F63B78) else Half(v)
  }

  lemma XorFirst(x: Bits, y: Bits)
    requires |x| == |y| > 0
    ensures Xor(x, y) == [x[0] != y[0]] + Xor(x[1..], y[1..])
  {
  }

  lemma BothParts(a: bv32, b: bv32)
    ensures Half(Both(a, b)) == Both(Half(a), Half(b)) && Low(Both(a, b)) == (Low(a) != Low(b))
  {
  }

  lemma {:induction false} WordXor(a: bv32, b: bv32, n: nat)
    ensures Xor(Word(a, n), Word(b, n)) == Word(Both(a, b), n)
    decreases n
  {
    hide Low, Half, Both;
    if n > 0 {
      WordXor(Half(a), Half(b), n - 1);
      BothParts(a, b);
      XorFirst(Word(a, n), Word(b, n));
    }
  }

  /** No bit from the `n`-th on is set. */
  predicate Short(v: bv32, n: nat) { if n == 0 then v == 0 else Short(Half(v), n - 1) }

  lemma NothingIsShort()
    ensures !Low(0)
  {
  }

  lemma {:induction false} ShortWord(v: bv32, n: nat)
    requires Short(v, n)
    ensures Word(v, n + 1) == Word(v, n) + [false]
    decreases n
  {
    NothingIsShort();
    hide Low, Half;
    if n > 0 {
      ShortWord(Half(v), n - 1);
    } else {
      assert Word(v, 1) == [Low(v)] + Word(Half(v), 0);
    }
  }

  lemma ShortFour(v: bv32, n: nat)
    ensures Short(v, n + 4) == Short(Half(Half(Half(Half(v)))), n)
  {
    hide Half;
    var v1, v2, v3 := Half(v), Half(Half(v)), Half(Half(Half(v)));
    assert Short(v, n + 4) == Short(v1, n + 3) && Short(v1, n + 3) == Short(v2, n + 2);
    assert Short(v2, n + 2) == Short(v3, n + 1) && Short(v3, n + 1) == Short(Half(v3), n);
  }

  function Sixteenth(v: bv32): bv32 { Half(Half(Half(Half(v)))) }

  lemma TopIsShort(v: bv32)
    ensures var w := Sixteenth(Sixteenth(Sixteenth(Sixteenth(Sixteenth(Sixteenth(Sixteenth(Half(v))))))));
            Half(Half(Half(w))) == 0
  {
  }

  lemma HalfIsShort(v: bv32)
    ensures Short(Half(v), 31)
  {
    TopIsShort(v);
    var v1 := Sixteenth(Half(v));
    var v2 := Sixteenth(v1);
    var v3 := Sixteenth(v2);
    var v4 := Sixteenth(v3);
    var v5 := Sixteenth(v4);
    var v6 := Sixteenth(v5);
    var v7 := Sixteenth(v6);
    hide Half;
    assert Short(v7, 3) == Short(Half(v7), 2) && Short(Half(v7), 2) == Short(Half(Half(v7)), 1);
    assert Short(Half(Half(v7)), 1) == Short(Half(Half(Half(v7))), 0);
    ShortFour(v6, 3);
    ShortFour(v5, 7);
    ShortFour(v4, 11);
    ShortFour(v3, 15);
    ShortFour(v2, 19);
    ShortFour(v1, 23);
    ShortFour(Half(v), 27);
  }

  lemma FourInFront(b0: bool, b1: bool, b2: bool, b3: bool, rest: Bits)
    ensures [b0] + ([b1] + ([b2] + ([b3] + rest))) == [b0, b1, b2, b3] + rest
  {
  }

  lemma WordBit(v: bv32, n: nat)
    ensures Word(v, 1 + n) == [Low(v)] + Word(Half(v), n)
  {
  }

  lemma WordDigit(v: bv32, n: nat)
    ensures Word(v, 4 + n)
         == [Low(v), Low(Half(v)), Low(Half(Half(v))), Low(Half(Half(Half(v))))] + Word(Sixteenth(v), n)
  {
    hide Low, Half, Word;
    var v1, v2, v3 := Half(v), Half(Half(v)), Half(Half(Half(v)));
    WordBit(v3, n);
    WordBit(v2, 1 + n);
    WordBit(v1, 2 + n);
    WordBit(v, 3 + n);
    FourInFront(Low(v), Low(v1), Low(v2), Low(v3), Word(Half(v3), n));
  }

  lemma NumberBit(u: nat, n: nat)
    ensures ToBits(u, 1 + n) == [u % 2 == 1] + ToBits(u / 2, n)
  {
  }

  lemma NumberDigit(u: nat, n: nat)
    ensures ToBits(u, 4 + n)
         == [u % 2 == 1, u / 2 % 2 == 1, u / 2 / 2 % 2 == 1, u / 2 / 2 / 2 % 2 == 1] + ToBits(u / 2 / 2 / 2 / 2, n)
  {
    hide ToBits;
    var u1: nat := u / 2;
    var u2: nat := u1 / 2;
    var u3: nat := u2 / 2;
    NumberBit(u3, n);
    NumberBit(u2, 1 + n);
    NumberBit(u1, 2 + n);
    NumberBit(u, 3 + n);
    FourInFront(u % 2 == 1, u1 % 2 == 1, u2 % 2 == 1, u3 % 2 == 1, ToBits(u3 / 2, n));
  }

  /** A machine word and a number with one last hexadecimal digit, and the same before it, are the same bits. */
  lemma SameDigit(v: bv32, u: nat, n: nat)
    requires Low(v) == (u % 2 == 1) && Low(Half(v)) == (u / 2 % 2 == 1)
    requires Low(Half(Half(v))) == (u / 2 / 2 % 2 == 1) && Low(Half(Half(Half(v)))) == (u / 2 / 2 / 2 % 2 == 1)
    requires Word(Sixteenth(v), n) == ToBits(u / 2 / 2 / 2 / 2, n)
    ensures Word(v, 4 + n) == ToBits(u, 4 + n)
  {
    hide Low, Half;
    WordDigit(v, n);
    NumberDigit(u, n);
  }

  lemma FourOff(p: Bits, k: nat)
    requires k + 4 <= |p|
    ensures p[k..] == [p[k], p[k + 1], p[k + 2], p[k + 3]] + p[k + 4..]
  {
  }

  lemma PolynomialBits0()
    ensures |POLY| == 32
    ensures !POLY[0] && !POLY[1] && !POLY[2] && POLY[3]
    ensures POLY[4] && POLY[5] && POLY[6] && !POLY[7]
  {
  }

  lemma PolynomialBits8()
    ensures |POLY| == 32
    ensures POLY[8] && POLY[9] && !POLY[10] && POLY[11]
    ensures POLY[12] && POLY[13] && !POLY[14] && !POLY[15]
  {
  }

  lemma PolynomialBits16()
    ensures |POLY| == 32
    ensures !POLY[16] && POLY[17] && POLY[18] && !POLY[19]
    ensures POLY[20] && POLY[21] && POLY[22] && POLY[23]
  {
  }

  lemma PolynomialBits24()
    ensures |POLY| == 32
    ensures !POLY[24] && POLY[25] && !POLY[26] && !POLY[27]
    ensures !POLY[28] && !POLY[29] && !POLY[30] && POLY[31]
  {
  }

  lemma Polynomial8()
    ensures POLY[24..] == Word(0x82, 8)
  {
    PolynomialBits24();
    hide Word, POLY;
    assert |Word(0x0, 0)| == 0 && POLY[32..] == [];
    WordDigit(0x8, 0);
    FourOff(POLY, 28);
    WordDigit(0x82, 4);
    FourOff(POLY, 24);
  }

  lemma Polynomial16()
    ensures POLY[16..] == Word(0x82F6, 16)
  {
    PolynomialBits16();
    hide Word, POLY;
    Polynomial8();
    WordDigit(0x82F, 8);
    FourOff(POLY, 20);
    WordDigit(0x82F6, 12);
    FourOff(POLY, 16);
  }

  lemma Polynomial24()
    ensures POLY[8..] == Word(0x82F63B, 24)
  {
    PolynomialBits8();
    hide Word, POLY;
    Polynomial16();
    WordDigit(0x82F63, 16);
    FourOff(POLY, 12);
    WordDigit(0x82F63B, 20);
    FourOff(POLY, 8);
  }

  lemma PolynomialWord()
    ensures POLY[0..] == Word(0x82F63B78, 32)
  {
    PolynomialBits0();
    hide Word, POLY;
    Polynomial24();
    WordDigit(0x82F63B7, 24);
    FourOff(POLY, 4);
    WordDigit(0x82F63B78, 28);
    FourOff(POLY, 0);
  }

  lemma HalfOfWord(v: bv32)
    ensures Word(v, 32)[1..] + [false] == Word(Half(v), 32) && Word(v, 32)[0] == Low(v)
  {
    HalfIsShort(v);
    hide Low, Half, Short;
    ShortWord(Half(v), 31);
    assert Word(v, 32) == [Low(v)] + Word(Half(v), 31);
  }

  lemma StepOfWord(v: bv32, bit: bool)
    ensures Shift(Word(v, 32), bit) == Word(Stepped(v, bit), 32)
  {
    hide Low, Half, Both, Xor, POLY, Word;
    PolynomialWord();
    assert POLY[0..] == POLY;
    HalfOfWord(v);
    WordXor(Half(v), 0x82F63B78, 32);
  }

  /** Four steps. */
  function Four(v: bv32, b0: bool, b1: bool, b2: bool, b3: bool): bv32 {
    Stepped(Stepped(Stepped(Stepped(v, b0), b1), b2), b3)
  }

  lemma OneStep(v: bv32, bit: bool, rest: Bits)
    ensures Serial(Word(v, 32), [bit] + rest) == Serial(Word(Stepped(v, bit), 32), rest)
  {
    hide Shift, Stepped, Word;
    StepOfWord(v, bit);
    assert ([bit] + rest)[1..] == rest;
  }

  lemma FourSteps(v: bv32, b0: bool, b1: bool, b2: bool, b3: bool, rest: Bits)
    ensures Serial(Word(v, 32), [b0, b1, b2, b3] + rest) == Serial(Word(Four(v, b0, b1, b2, b3), 32), rest)
  {
    hide Serial, Stepped, Word;
    var v1, v2, v3 := Stepped(v, b0), Stepped(Stepped(v, b0), b1), Stepped(Stepped(Stepped(v, b0), b1), b2);
    assert [b0, b1, b2, b3] + rest == [b0] + ([b1] + ([b2] + ([b3] + rest)));
    OneStep(v, b0, [b1] + ([b2] + ([b3] + rest)));
    OneStep(v1, b1, [b2] + ([b3] + rest));
    OneStep(v2, b2, [b3] + rest);
    OneStep(v3, b3, rest);
  }

  /** The register over a byte, by its two digits. */
  lemma ByteSteps(v: bv32, b: byte, after: bv32)
    requires var h := b / 2 / 2 / 2 / 2;
             after == Four(Four(v, b % 2 == 1, b / 2 % 2 == 1, b / 2 / 2 % 2 == 1, b / 2 / 2 / 2 % 2 == 1),
                           h % 2 == 1, h / 2 % 2 == 1, h / 2 / 2 % 2 == 1, h / 2 / 2 / 2 % 2 == 1)
    ensures Serial(Word(v, 32), ToBits(b, 8)) == Word(after, 32)
  {
    hide Four, Word;
    var h: nat := b / 2 / 2 / 2 / 2;
    NumberDigit(b, 4);
    NumberDigit(h, 0);
    var w := Four(v, b % 2 == 1, b / 2 % 2 == 1, b / 2 / 2 % 2 == 1, b / 2 / 2 / 2 % 2 == 1);
    FourSteps(v, b % 2 == 1, b / 2 % 2 == 1, b / 2 / 2 % 2 == 1, b / 2 / 2 / 2 % 2 == 1, ToBits(h, 4));
    FourSteps(w, h % 2 == 1, h / 2 % 2 == 1, h / 2 / 2 % 2 == 1, h / 2 / 2 / 2 % 2 == 1, ToBits(h / 2 / 2 / 2 / 2, 0));
  }

  lemma NoDigits()
    ensures Word(0, 0) == ToBits(0, 0)
  {
  }

  lemma ZeroWord()
    ensures Word(0, 32) == ToBits(0, 32)
  {
    hide Word, ToBits;
    NoDigits();
    SameDigit(0, 0, 0);
    SameDigit(0, 0, 4);
    SameDigit(0, 0, 8);
    SameDigit(0, 0, 12);
    SameDigit(0, 0, 16);
    SameDigit(0, 0, 20);
    SameDigit(0, 0, 24);
    SameDigit(0, 0, 28);
  }

  lemma OnesHigh()
    ensures Word(0xFFFF, 16) == ToBits(0xFFFF, 16)
  {
    hide Word, ToBits;
    NoDigits();
    SameDigit(0xF, 0xF, 0);
    SameDigit(0xFF, 0xFF, 4);
    SameDigit(0xFFF, 0xFFF, 8);
    SameDigit(0xFFFF, 0xFFFF, 12);
  }

  lemma OnesWord()
    ensures Word(0xFFFF_FFFF, 32) == ToBits(0xFFFF_FFFF, 32)
  {
    hide Word, ToBits;
    OnesHigh();
    SameDigit(0xFFFFF, 0xFFFFF, 16);
    SameDigit(0xFFFFFF, 0xFFFFFF, 20);
    SameDigit(0xFFFFFFF, 0xFFFFFFF, 24);
    SameDigit(0xFFFFFFFF, 0xFFFFFFFF, 28);
  }

  lemma ResidueHigh()
    ensures Word(0xB798, 16) == ToBits(0xB798, 16)
  {
    hide Word, ToBits;
    NoDigits();
    SameDigit(0xB, 0xB, 0);
    SameDigit(0xB7, 0xB7, 4);
    SameDigit(0xB79, 0xB79, 8);
    SameDigit(0xB798, 0xB798, 12);
  }

  lemma ResidueWord()
    ensures Word(0xB798_B438, 32) == ToBits(0xB798_B438, 32)
  {
    hide Word, ToBits;
    ResidueHigh();
    SameDigit(0xB798B, 0xB798B, 16);
    SameDigit(0xB798B4, 0xB798B4, 20);
    SameDigit(0xB798B43, 0xB798B43, 24);
    SameDigit(0xB798B438, 0xB798B438, 28);
  }

  lemma CheckHigh()
    ensures Word(0x1CF9, 16) == ToBits(0x1CF9, 16)
  {
    hide Word, ToBits;
    NoDigits();
    SameDigit(0x1, 0x1, 0);
    SameDigit(0x1C, 0x1C, 4);
    SameDigit(0x1CF, 0x1CF, 8);
    SameDigit(0x1CF9, 0x1CF9, 12);
  }

  lemma CheckWord()
    ensures Word(0x1CF9_6D7C, 32) == ToBits(0x1CF9_6D7C, 32)
  {
    hide Word, ToBits;
    CheckHigh();
    SameDigit(0x1CF96, 0x1CF96, 16);
    SameDigit(0x1CF96D, 0x1CF96D, 20);
    SameDigit(0x1CF96D7, 0x1CF96D7, 24);
    SameDigit(0x1CF96D7C, 0x1CF96D7C, 28);
  }

  /** One byte more: the register was `w` after the first `k` bytes, and is `after` after the next. */
  lemma ByteMore(v: bv32, data: seq<byte>, k: nat, w: bv32, after: bv32)
    requires k < |data| && Serial(Word(v, 32), DataBits(data[..k])) == Word(w, 32)
    requires Serial(Word(w, 32), ToBits(data[k], 8)) == Word(after, 32)
    ensures Serial(Word(v, 32), DataBits(data[..k + 1])) == Word(after, 32)
  {
    OneByte(data[k]);
    hide Word, ToBits, Serial, DataBits;
    assert data[..k + 1] == data[..k] + [data[k]];
    DataBitsJoin(data[..k], [data[k]]);
    SerialJoin(Word(v, 32), DataBits(data[..k]), ToBits(data[k], 8));
  }

  lemma NoBytes(v: bv32, data: seq<byte>)
    ensures Serial(Word(v, 32), DataBits(data[..0])) == Word(v, 32)
  {
  }

  lemma OneByte(b: byte)
    ensures DataBits([b]) == ToBits(b, 8)
  {
    assert [b][1..] == [] && ToBits(b, 8) + [] == ToBits(b, 8);
  }

  /** The register after thirty-two ones from zero. */
  lemma OnesFromZero()
    ensures Serial(ToBits(0, 32), ToBits(0xFFFF_FFFF, 32)) == ToBits(0xB798_B438, 32)
  {
    hide Word, Serial, ToBits, DataBits;
    ZeroWord();
    ResidueWord();
    var ones: seq<byte> := [0xFF, 0xFF, 0xFF, 0xFF];
    NoBytes(0x00000000, ones);
    ByteSteps(0x00000000, 0xFF, 0xAD7D5351);
    ByteMore(0x00000000, ones, 0, 0x00000000, 0xAD7D5351);
    ByteSteps(0xAD7D5351, 0xFF, 0x0E9E77D2);
    ByteMore(0x00000000, ones, 1, 0xAD7D5351, 0x0E9E77D2);
    ByteSteps(0x0E9E77D2, 0xFF, 0x9F9B5C7A);
    ByteMore(0x00000000, ones, 2, 0x0E9E77D2, 0x9F9B5C7A);
    ByteSteps(0x9F9B5C7A, 0xFF, 0xB798B438);
    ByteMore(0x00000000, ones, 3, 0x9F9B5C7A, 0xB798B438);
    assert ones[..4] == ones;
    OnesLoad(ones);
  }

  lemma OnesLoad(d: seq<byte>)
    requires d == [0xFF, 0xFF, 0xFF, 0xFF]
    ensures DataBits(d) == ToBits(0xFFFF_FFFF, 32)
  {
    LoadBits(d);
    hide ToBits, DataBits;
    var d1 := d[1..];
    var d2 := d1[1..];
    var d3 := d2[1..];
    assert |d3| == 1 && d3[1..] == [];
    assert Load(d3) == 0xFF && Load(d2) == 0xFFFF && Load(d1) == 0xFF_FFFF && Load(d) == 0xFFFF_FFFF;
  }

  lemma FirstDigits(digits: seq<byte>)
    requires |digits| == 9 && digits[0] == 0x31 && digits[1] == 0x32 && digits[2] == 0x33
    requires Serial(Word(0xFFFF_FFFF, 32), DataBits(digits[..0])) == Word(0xFFFFFFFF, 32)
    ensures Serial(Word(0xFFFF_FFFF, 32), DataBits(digits[..3])) == Word(0xEF84D04D, 32)
  {
    hide Word, Serial, ToBits, DataBits;
    ByteSteps(0xFFFFFFFF, 0x31, 0x6F0A661C);
    ByteMore(0xFFFFFFFF, digits, 0, 0xFFFFFFFF, 0x6F0A661C);
    ByteSteps(0x6F0A661C, 0x32, 0x8CAA3B9F);
    ByteMore(0xFFFFFFFF, digits, 1, 0x6F0A661C, 0x8CAA3B9F);
    ByteSteps(0x8CAA3B9F, 0x33, 0xEF84D04D);
    ByteMore(0xFFFFFFFF, digits, 2, 0x8CAA3B9F, 0xEF84D04D);
  }

  lemma NextDigits(digits: seq<byte>)
    requires |digits| == 9 && digits[3] == 0x34 && digits[4] == 0x35 && digits[5] == 0x36
    requires Serial(Word(0xFFFF_FFFF, 32), DataBits(digits[..3])) == Word(0xEF84D04D, 32)
    ensures Serial(Word(0xFFFF_FFFF, 32), DataBits(digits[..6])) == Word(0xBECA8E79, 32)
  {
    hide Word, Serial, ToBits, DataBits;
    ByteSteps(0xEF84D04D, 0x34, 0x09C50B11);
    ByteMore(0xFFFFFFFF, digits, 3, 0xEF84D04D, 0x09C50B11);
    ByteSteps(0x09C50B11, 0x35, 0xE72EDCCA);
    ByteMore(0xFFFFFFFF, digits, 4, 0x09C50B11, 0xE72EDCCA);
    ByteSteps(0xE72EDCCA, 0x36, 0xBECA8E79);
    ByteMore(0xFFFFFFFF, digits, 5, 0xE72EDCCA, 0xBECA8E79);
  }

  lemma LastDigits(digits: seq<byte>)
    requires |digits| == 9 && digits[6] == 0x37 && digits[7] == 0x38 && digits[8] == 0x39
    requires Serial(Word(0xFFFF_FFFF, 32), DataBits(digits[..6])) == Word(0xBECA8E79, 32)
    ensures Serial(Word(0xFFFF_FFFF, 32), DataBits(digits[..9])) == Word(0x1CF96D7C, 32)
  {
    hide Word, Serial, ToBits, DataBits;
    ByteSteps(0xBECA8E79, 0x37, 0xEDBD6815);
    ByteMore(0xFFFFFFFF, digits, 6, 0xBECA8E79, 0xEDBD6815);
    ByteSteps(0xEDBD6815, 0x38, 0x9F787F65);
    ByteMore(0xFFFFFFFF, digits, 7, 0xEDBD6815, 0x9F787F65);
    ByteSteps(0x9F787F65, 0x39, 0x1CF96D7C);
    ByteMore(0xFFFFFFFF, digits, 8, 0x9F787F65, 0x1CF96D7C);
  }

  lemma DigitsRegister(digits: seq<byte>)
    requires digits == [0x31, 0x32, 0x33, 0x34, 0x35, 0x36, 0x37, 0x38, 0x39]
    ensures Serial(Word(0xFFFF_FFFF, 32), DataBits(digits)) == Word(0x1CF9_6D7C, 32)
  {
    hide Word, Serial, ToBits, DataBits;
    NoBytes(0xFFFF_FFFF, digits);
    FirstDigits(digits);
    NextDigits(digits);
    LastDigits(digits);
    assert digits[..9] == digits;
  }

  /** The checksum of the nine digits is the standard's check value. */
  lemma CheckValue()
    ensures Checksum(0, [0x31, 0x32, 0x33, 0x34, 0x35, 0x36, 0x37, 0x38, 0x39]) == 0xE306_9283
  {
    hide Word, Serial, ToBits, DataBits;
    DigitsRegister([0x31, 0x32, 0x33, 0x34, 0x35, 0x36, 0x37, 0x38, 0x39]);
    OnesWord();
    CheckWord();
    NotFlips(0);
    NotFlips(0x1CF9_6D7C);
    BytePow();
    NumberBack(0xE306_9283, 32);
  }

  // ----- the residue and the check value -----

  /** The four bytes of a checksum, the lowest first. */
  function Little(c: u32): seq<byte> { [c % 256, c / 256 % 256, c / 256 / 256 % 256, c / 256 / 256 / 256] }

  lemma LittleBits(c: u32)
    ensures DataBits(Little(c)) == ToBits(c, 32)
  {
    var d := Little(c);
    var c1: nat := c / 256;
    var c2: nat := c1 / 256;
    var c3: nat := c2 / 256;
    assert d[1..] == [c1 % 256, c2 % 256, c3] && d[1..][1..] == [c2 % 256, c3] && d[1..][1..][1..] == [c3];
    assert Load([c3]) == c3 by { assert [c3][1..] == []; }
    assert Load(d[1..][1..]) == c2 && Load(d[1..]) == c1 && Load(d) == c;
    LoadBits(d);
  }

  /** What matters of a register and the next bits, at most thirty-two, is where they differ. */
  lemma {:induction false} SameDifference(r: Bits, q: Bits, x: Bits, y: Bits)
    requires |r| == 32 && |q| == 32 && |x| == |y| <= 32
    requires forall i | 0 <= i < |x| :: (r[i] != x[i]) == (q[i] != y[i])
    requires forall i | |x| <= i < 32 :: r[i] == q[i]
    ensures Serial(r, x) == Serial(q, y)
    decreases |x|
  {
    if x == [] {
      assert r == q;
    } else {
      var r1, q1 := Shift(r, x[0]), Shift(q, y[0]);
      ShiftTells(r, q, x[0], y[0]);
      ShiftTells(q, r, y[0], x[0]);
      forall i | 0 <= i < 31
        ensures if i < |x| - 1 then (r1[i] != x[1..][i]) == (q1[i] != y[1..][i]) else r1[i] == q1[i]
      {
        assert r1[i] == (r[i + 1] != ((r[0] != x[0]) && POLY[i]));
        assert q1[i] == (q[i + 1] != ((q[0] != y[0]) && POLY[i]));
      }
      hide Shift, POLY;
      SameDifference(r1, q1, x[1..], y[1..]);
    }
  }

  /** A message with its own checksum behind it has one checksum, whatever the message. */
  lemma Residue(data: seq<byte>)
    ensures Checksum(0, data + Little(Checksum(0, data))) == 0x4867_4BC7
  {
    var c := Checksum(0, data);
    var r := Serial(Flip(ToBits(0, 32)), DataBits(data));
    BitsBack(Flip(r));
    Continues(0, data, Little(c));
    LittleBits(c);
    assert ToBits(c, 32) == Flip(r);
    assert Checksum(c, Little(c)) == ToWord(Flip(Serial(Flip(Flip(r)), Flip(r))));
    assert Flip(Flip(r)) == r;
    ResidueRegister(r);
    NotFlips(0xB798_B438);
    BytePow();
    NumberBack(0x4867_4BC7, 32);
  }

  lemma ResidueRegister(r: Bits)
    requires |r| == 32
    ensures Serial(r, Flip(r)) == ToBits(0xB798_B438, 32)
  {
    AllZeros(32);
    NotFlips(0);
    var zero, ones := ToBits(0, 32), ToBits(0xFFFF_FFFF, 32);
    assert ones == Flip(zero);
    hide ToBits;
    SameDifference(r, zero, Flip(r), ones);
    OnesFromZero();
  }

  lemma {:induction false} AllZeros(n: nat)
    ensures forall i | 0 <= i < n :: !ToBits(0, n)[i]
  {
    if n > 0 {
      AllZeros(n - 1);
    }
  }
}
