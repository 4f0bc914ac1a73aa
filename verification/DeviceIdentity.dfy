/**
 * Device identity keys: sixteen random bytes spelt in Crockford's base 32, by an encoder whose
 * accumulator is a signed 32-bit integer that wraps.
 */
module DeviceIdentity {
  import opened Prelude

  type Byte = n: int | 0 <= n < 256

  // ---------- 32-bit operators ----------

  const WORD := 0x1_0000_0000

  function ToUint32(n: int): (word: int)
    ensures 0 <= word < WORD
  {
    n % WORD
  }

  function ToInt32(n: int): (word: int)
    ensures -WORD / 2 <= word < WORD / 2 && ToUint32(word) == ToUint32(n)
  {
    if ToUint32(n) < WORD / 2 then ToUint32(n) else ToUint32(n) - WORD
  }

  function Pow2(n: nat): (p: nat)
    ensures p >= 1
  {
    if n == 0 then 1 else 2 * Pow2(n - 1)
  }

  function ShiftLeft(n: int, count: nat): int {
    ToInt32(n * Pow2(count))
  }

  function Halve(n: nat, count: nat): (h: nat)
    ensures h <= n
  {
    if count == 0 then n else Halve(n / 2, count - 1)
  }

  function ShiftRightUnsigned(n: int, count: nat): int {
    Halve(ToUint32(n), count)
  }

  function OrBits(a: nat, b: nat): nat {
    if a == 0 && b == 0 then 0
    else 2 * OrBits(a / 2, b / 2) + (if a % 2 == 1 || b % 2 == 1 then 1 else 0)
  }

  function Or(a: int, b: int): int {
    ToInt32(OrBits(ToUint32(a), ToUint32(b)))
  }

  /** The bitwise conjunction with 31. */
  function LowFive(n: int): (low: int)
    ensures 0 <= low < 32
  {
    ToUint32(n) % 32
  }

  lemma SmallPowers()
    ensures Pow2(3) == 8 && Pow2(5) == 32 && Pow2(8) == 256
  {
    assert Pow2(3) == 8;
    assert Pow2(5) == 4 * Pow2(3);
    assert Pow2(8) == 8 * Pow2(5) by {
      assert Pow2(8) == 4 * Pow2(6) && Pow2(6) == 2 * Pow2(5);
    }
  }

  lemma PowersOf24And32()
    ensures Pow2(24) == 0x100_0000 && Pow2(32) == WORD
  {
    SmallPowers();
    assert Pow2(11) == 8 * Pow2(8) by { assert Pow2(11) == 4 * Pow2(9); }
    assert Pow2(14) == 8 * Pow2(11) by { assert Pow2(14) == 4 * Pow2(12); }
    assert Pow2(17) == 8 * Pow2(14) by { assert Pow2(17) == 4 * Pow2(15); }
    assert Pow2(20) == 8 * Pow2(17) by { assert Pow2(20) == 4 * Pow2(18); }
    assert Pow2(23) == 8 * Pow2(20) by { assert Pow2(23) == 4 * Pow2(21); }
    assert Pow2(26) == 8 * Pow2(23) by { assert Pow2(26) == 4 * Pow2(24); }
    assert Pow2(29) == 8 * Pow2(26) by { assert Pow2(29) == 4 * Pow2(27); }
    assert Pow2(32) == 8 * Pow2(29) by { assert Pow2(32) == 4 * Pow2(30); }
  }

  lemma OrWithZero(a: nat)
    ensures OrBits(a, 0) == a
  {
  }

  /** Bits that do not overlap are simply put side by side. */
  lemma {:induction false} OrDisjoint(high: nat, low: nat, width: nat)
    requires low < Pow2(width)
    ensures OrBits(high * Pow2(width), low) == high * Pow2(width) + low
    decreases width
  {
    if width == 0 {
      OrWithZero(high);
    } else {
      var shifted := high * Pow2(width - 1);
      assert high * Pow2(width) == 2 * shifted;
      OrDisjoint(high, low / 2, width - 1);
    }
  }

  // ---------- Bits ----------

  /** The last `count` bits of a number in two's complement, the highest first. */
  function Bits(n: int, count: nat): (bits: seq<int>)
    ensures |bits| == count
    decreases count
  {
    if count == 0 then [] else Bits(n / 2, count - 1) + [n % 2]
  }

  /** The low bits do not depend on what is added above them. */
  lemma {:induction false} LowBits(n: int, above: int, width: nat, count: nat)
    requires count <= width
    ensures Bits(n + above * Pow2(width), count) == Bits(n, count)
    decreases count
  {
    if count > 0 {
      var half := above * Pow2(width - 1);
      assert above * Pow2(width) == 2 * half;
      assert (n + 2 * half) / 2 == n / 2 + half && (n + 2 * half) % 2 == n % 2;
      LowBits(n / 2, above, width - 1, count - 1);
    }
  }

  /** Shifting left and filling in appends bits. */
  lemma {:induction false} BitsAppend(high: int, low: int, count: nat, width: nat)
    requires 0 <= low < Pow2(width)
    ensures Bits(high * Pow2(width) + low, count + width) == Bits(high, count) + Bits(low, width)
    decreases width
  {
    if width == 0 {
      assert Bits(low, width) == [];
    } else {
      var half := high * Pow2(width - 1);
      assert high * Pow2(width) == 2 * half;
      assert (2 * half + low) / 2 == half + low / 2 && (2 * half + low) % 2 == low % 2;
      BitsAppend(high, low / 2, count, width - 1);
    }
  }

  /** Shifting right drops bits. */
  lemma {:induction false} BitsSplit(n: nat, count: nat, dropped: nat)
    ensures Bits(n, count + dropped) == Bits(Halve(n, dropped), count) + Bits(n, dropped)
    decreases dropped
  {
    if dropped == 0 {
      assert Bits(n, 0) == [];
    } else {
      BitsSplit(n / 2, count, dropped - 1);
    }
  }

  /** A shorter register keeps the low bits. */
  lemma BitsOfRemainder(n: int, m: int, width: nat, count: nat)
    requires count <= width && m == Pow2(width) && m in {32, 0x100_0000, WORD}
    ensures Bits(n % m, count) == Bits(n, count)
  {
    hide Pow2, Bits;
    LowBits(n % m, n / m, width, count);
    if m == 32 {
      assert n % 32 + n / 32 * 32 == n;
    } else if m == WORD {
      assert n % WORD + n / WORD * WORD == n;
    } else {
      assert n % 0x100_0000 + n / 0x100_0000 * 0x100_0000 == n;
    }
  }

  // ---------- The symbols ----------

  /** The character class `[0-9a-hjkmnp-tv-z]`. */
  predicate IsSymbol(c: char) {
    '0' <= c <= '9' || 'a' <= c <= 'h' || 'j' <= c <= 'k' || 'm' <= c <= 'n' || 'p' <= c <= 't' || 'v' <= c <= 'z'
  }

  /** The value of a symbol, with the letters i, l, o and u left out of the count. */
  function ValueOf(symbol: char): (value: int)
    requires IsSymbol(symbol)
    ensures 0 <= value < 32
  {
    var n := symbol as int;
    if symbol <= '9' then n - 48
    else if symbol <= 'h' then n - 87
    else if symbol <= 'k' then n - 88
    else if symbol <= 'n' then n - 89
    else if symbol <= 't' then n - 90
    else n - 91
  }

  function SymbolOf(value: int): (symbol: char)
    requires 0 <= value < 32
    ensures IsSymbol(symbol) && ValueOf(symbol) == value
  {
    (if value < 10 then value + 48
     else if value < 18 then value + 87
     else if value < 20 then value + 88
     else if value < 22 then value + 89
     else if value < 27 then value + 90
     else value + 91) as char
  }

  /** These are the symbols of the alphabet, in its order. */
  lemma SymbolsAreTheAlphabet(value: int)
    requires 0 <= value < 32
    ensures "0123456789abcdefghjkmnpqrstvwxyz"[value] == SymbolOf(value)
  {
  }

  lemma OnlyTheAlphabet(c: char)
    ensures IsSymbol(c) <==> c in "0123456789abcdefghjkmnpqrstvwxyz"
  {
    var alphabet := "0123456789abcdefghjkmnpqrstvwxyz";
    if IsSymbol(c) {
      SymbolsAreTheAlphabet(ValueOf(c));
      SymbolOfValue(c);
      assert alphabet[ValueOf(c)] == c;
    }
    if c in alphabet {
      var i :| 0 <= i < 32 && alphabet[i] == c;
      SymbolsAreTheAlphabet(i);
    }
  }

  function ByteBits(bytes: seq<Byte>): (bits: seq<int>)
    ensures |bits| == 8 * |bytes|
  {
    if bytes == [] then [] else ByteBits(bytes[..|bytes| - 1]) + Bits(bytes[|bytes| - 1], 8)
  }

  predicate IsSpelt(text: string) {
    forall i :: 0 <= i < |text| ==> IsSymbol(text[i])
  }

  function SymbolBits(text: string): (bits: seq<int>)
    requires IsSpelt(text)
    ensures |bits| == 5 * |text|
  {
    if text == [] then [] else SymbolBits(text[..|text| - 1]) + Bits(ValueOf(text[|text| - 1]), 5)
  }

  /** The text spells the bits of the bytes in groups of five, the last group filled up with zeros. */
  ghost predicate Spells(text: string, bytes: seq<Byte>) {
    && IsSpelt(text) && |text| == (8 * |bytes| + 4) / 5
    && SymbolBits(text) == ByteBits(bytes) + Bits(0, 5 * |text| - 8 * |bytes|)
  }

  // ---------- The accumulator ----------

  /** The bits waiting to be spelt. */
  function Waiting(value: int, bits: nat): seq<int> {
    Bits(ToUint32(value), bits)
  }

  lemma ShiftByEight(value: int)
    ensures ToUint32(ShiftLeft(value, 8)) == ToUint32(value) % 0x100_0000 * 256
  {
    hide Pow2, ToInt32;
    SmallPowers();
    LowBytes(value);
  }

  /** The low word of a number moved up a byte is its low three bytes moved up. */
  lemma LowBytes(value: int)
    ensures value * 256 % WORD == value % WORD % 0x100_0000 * 256
  {
    var q, r := value / 0x100_0000, value % 0x100_0000;
    assert value * 256 == q * WORD + r * 256;
    assert value % WORD % 0x100_0000 == r;
  }

  lemma SmallIsItself(n: int)
    requires 0 <= n < WORD
    ensures ToUint32(n) == n
  {
  }

  lemma OrIntoZeros(shifted: int, high: nat, byte: Byte)
    requires ToUint32(shifted) == high * 256 && high < 0x100_0000
    ensures ToUint32(Or(shifted, byte)) == high * 256 + byte
  {
    SmallPowers();
    OrDisjoint(high, byte, 8);
    SmallIsItself(byte);
    SmallIsItself(high * 256 + byte);
    hide Pow2, OrBits, ToUint32;
  }

  lemma ByteIsAppended(value: int, byte: Byte)
    ensures ToUint32(Or(ShiftLeft(value, 8), byte)) == ToUint32(value) % 0x100_0000 * 256 + byte
  {
    ShiftByEight(value);
    OrIntoZeros(ShiftLeft(value, 8), ToUint32(value) % 0x100_0000, byte);
  }

  lemma ByteEnters(value: int, byte: Byte, bits: nat)
    requires bits < 5
    ensures Waiting(Or(ShiftLeft(value, 8), byte), bits + 8) == Waiting(value, bits) + Bits(byte, 8)
  {
    ByteIsAppended(value, byte);
    SmallPowers();
    PowersOf24And32();
    hide Pow2, Or, ShiftLeft, ToUint32;
    BitsAppend(ToUint32(value) % 0x100_0000, byte, bits, 8);
    BitsOfRemainder(ToUint32(value), 0x100_0000, 24, bits);
  }

  lemma SymbolLeaves(value: int, bits: nat)
    requires 5 <= bits
    ensures Waiting(value, bits)
            == Bits(LowFive(ShiftRightUnsigned(value, bits - 5)), 5) + Waiting(value, bits - 5)
  {
    SmallPowers();
    var word := ToUint32(value);
    BitsSplit(word, 5, bits - 5);
    assert LowFive(ShiftRightUnsigned(value, bits - 5)) == Halve(word, bits - 5) % 32;
    hide Pow2, LowFive, ShiftRightUnsigned, ToUint32;
    BitsOfRemainder(Halve(word, bits - 5), 32, 5, 5);
  }

  lemma LastSymbolLeaves(value: int, bits: nat)
    requires 1 <= bits <= 4
    ensures Bits(LowFive(ShiftLeft(value, 5 - bits)), 5) == Waiting(value, bits) + Bits(0, 5 - bits)
  {
    SmallPowers();
    PowersOf24And32();
    var shifted := value * Pow2(5 - bits);
    assert LowFive(ShiftLeft(value, 5 - bits)) == shifted % WORD % 32;
    hide Pow2, LowFive, ShiftLeft;
    BitsOfRemainder(shifted % WORD, 32, 5, 5);
    BitsOfRemainder(shifted, WORD, 32, 5);
    BitsAppend(value, 0, bits, 5 - bits);
    BitsOfRemainder(value, WORD, 32, bits);
  }

  method EncodeCrockfordBase32(bytes: seq<Byte>) returns (encoded: string)
    ensures Spells(encoded, bytes)
  {
    hide *;
    encoded := "";
    var bits, value := 0, 0;
    NothingWaiting(value);
    assert bytes[..0] == [];
    for i := 0 to |bytes|
      invariant 0 <= bits < 5 && 5 * |encoded| + bits == 8 * i
      invariant IsSpelt(encoded) && ByteBits(bytes[..i]) == SymbolBits(encoded) + Waiting(value, bits)
    {
      ByteEnters(value, bytes[i], bits);
      ByteBitsStep(bytes, i);
      value := Or(ShiftLeft(value, 8), bytes[i]);
      bits := bits + 8;
      while bits >= 5
        invariant 0 <= bits <= 12 && 5 * |encoded| + bits == 8 * (i + 1)
        invariant IsSpelt(encoded) && ByteBits(bytes[..i + 1]) == SymbolBits(encoded) + Waiting(value, bits)
      {
        var symbol := LowFive(ShiftRightUnsigned(value, bits - 5));
        SymbolLeaves(value, bits);
        SymbolBitsStep(encoded, symbol);
        encoded := encoded + [SymbolOf(symbol)];
        bits := bits - 5;
      }
    }
    assert bytes[..|bytes|] == bytes;
    if bits > 0 {
      var symbol := LowFive(ShiftLeft(value, 5 - bits));
      LastSymbolLeaves(value, bits);
      SymbolBitsStep(encoded, symbol);
      encoded := encoded + [SymbolOf(symbol)];
    } else {
      NothingWaiting(value);
    }
    SpellsWhen(encoded, bytes);
  }

  lemma SpellsWhen(text: string, bytes: seq<Byte>)
    requires IsSpelt(text) && |text| == (8 * |bytes| + 4) / 5
    requires SymbolBits(text) == ByteBits(bytes) + Bits(0, 5 * |text| - 8 * |bytes|)
    ensures Spells(text, bytes)
  {
  }

  lemma ByteBitsStep(bytes: seq<Byte>, i: nat)
    requires i < |bytes|
    ensures ByteBits(bytes[..i + 1]) == ByteBits(bytes[..i]) + Bits(bytes[i], 8)
  {
    assert bytes[..i + 1][..i] == bytes[..i];
  }

  lemma SymbolBitsStep(text: string, value: int)
    requires IsSpelt(text) && 0 <= value < 32
    ensures IsSpelt(text + [SymbolOf(value)])
    ensures SymbolBits(text + [SymbolOf(value)]) == SymbolBits(text) + Bits(value, 5)
  {
    assert (text + [SymbolOf(value)])[..|text|] == text;
  }

  lemma NothingWaiting(value: int)
    ensures Waiting(value, 0) == [] && Bits(0, 0) == []
    ensures ByteBits([]) == [] && IsSpelt("") && SymbolBits("") == []
  {
  }

  // ---------- Decoding ----------

  function BitsNumber(bits: seq<int>): int {
    if bits == [] then 0 else 2 * BitsNumber(bits[..|bits| - 1]) + bits[|bits| - 1]
  }

  lemma {:induction false} BitsNumberInverts(n: int, count: nat)
    requires 0 <= n < Pow2(count)
    ensures BitsNumber(Bits(n, count)) == n
    decreases count
  {
    if count > 0 {
      BitsNumberInverts(n / 2, count - 1);
      assert Bits(n, count)[..count - 1] == Bits(n / 2, count - 1);
    }
  }

  lemma {:induction false} BitsNumberAppends(a: seq<int>, b: seq<int>)
    ensures BitsNumber(a + b) == BitsNumber(a) * Pow2(|b|) + BitsNumber(b)
    decreases |b|
  {
    if b == [] {
      assert a + b == a;
    } else {
      var last := |b| - 1;
      assert (a + b)[..|a + b| - 1] == a + b[..last];
      BitsNumberAppends(a, b[..last]);
      assert Pow2(|b|) == 2 * Pow2(last);
      Twice(BitsNumber(a), Pow2(last));
    }
  }

  lemma Twice(a: int, p: int)
    ensures a * (2 * p) == 2 * (a * p)
  {
  }

  /** The number whose digits in base 256 are the bytes. */
  function BytesNumber(bytes: seq<Byte>): int {
    if bytes == [] then 0 else 256 * BytesNumber(bytes[..|bytes| - 1]) + bytes[|bytes| - 1]
  }

  /** The number whose digits in base 32 are the values of the symbols. */
  function TextNumber(text: string): int
    requires IsSpelt(text)
  {
    if text == [] then 0 else 32 * TextNumber(text[..|text| - 1]) + ValueOf(text[|text| - 1])
  }

  lemma {:induction false} BytesHaveBits(bytes: seq<Byte>)
    ensures BitsNumber(ByteBits(bytes)) == BytesNumber(bytes)
    decreases |bytes|
  {
    hide Bits, BitsNumber, Pow2;
    SmallPowers();
    if bytes == [] {
      NoBits();
    } else {
      var front, last := bytes[..|bytes| - 1], bytes[|bytes| - 1];
      BytesHaveBits(front);
      BitsNumberAppends(ByteBits(front), Bits(last, 8));
      BitsNumberInverts(last, 8);
    }
  }

  lemma {:induction false} TextsHaveBits(text: string)
    requires IsSpelt(text)
    ensures BitsNumber(SymbolBits(text)) == TextNumber(text)
    decreases |text|
  {
    hide Bits, BitsNumber, Pow2, ValueOf;
    SmallPowers();
    if text == [] {
      NoBits();
    } else {
      var front, last := text[..|text| - 1], text[|text| - 1];
      TextsHaveBits(front);
      BitsNumberAppends(SymbolBits(front), Bits(ValueOf(last), 5));
      BitsNumberInverts(ValueOf(last), 5);
    }
  }

  lemma NoBits()
    ensures BitsNumber([]) == 0
  {
  }

  /** The text is the bytes' number in base 32, moved up by the zeros that fill the last group. */
  lemma SpellingIsANumeral(text: string, bytes: seq<Byte>)
    requires Spells(text, bytes)
    ensures TextNumber(text) == BytesNumber(bytes) * Pow2(5 * |text| - 8 * |bytes|)
  {
    hide Bits, BitsNumber, Pow2, SymbolBits, ByteBits, TextNumber, BytesNumber;
    var pad: nat := 5 * |text| - 8 * |bytes|;
    TextsHaveBits(text);
    BytesHaveBits(bytes);
    BitsNumberAppends(ByteBits(bytes), Bits(0, pad));
    BitsNumberInverts(0, pad);
  }

  /** The bytes whose bits are given, eight by eight; bits left over are dropped. */
  function BitsBytes(bits: seq<int>): seq<int> {
    if |bits| < 8 then [] else [BitsNumber(bits[..8])] + BitsBytes(bits[8..])
  }

  lemma {:induction false} BitsBytesAppends(a: seq<int>, b: seq<int>, count: nat)
    requires |a| == 8 * count
    ensures BitsBytes(a + b) == BitsBytes(a) + BitsBytes(b)
    decreases count
  {
    hide BitsNumber;
    if count == 0 {
      assert a + b == b;
    } else {
      assert (a + b)[..8] == a[..8] && (a + b)[8..] == a[8..] + b;
      BitsBytesAppends(a[8..], b, count - 1);
    }
  }

  lemma ShortBitsBytes(bits: seq<int>)
    requires |bits| <= 8
    ensures BitsBytes(bits) == if |bits| == 8 then [BitsNumber(bits)] else []
  {
    if |bits| == 8 {
      assert bits[..8] == bits && BitsBytes(bits[8..]) == [];
    }
  }

  lemma OneByteInverts(byte: Byte)
    ensures BitsBytes(Bits(byte, 8)) == [byte]
  {
    SmallPowers();
    BitsNumberInverts(byte, 8);
    hide Bits, BitsNumber, BitsBytes, Pow2;
    ShortBitsBytes(Bits(byte, 8));
  }

  lemma {:induction false} BitsBytesInverts(bytes: seq<Byte>)
    ensures BitsBytes(ByteBits(bytes)) == bytes
    decreases |bytes|
  {
    hide Bits, BitsNumber, BitsBytes, Pow2;
    if bytes == [] {
      ShortBitsBytes([]);
    } else {
      var front, last := bytes[..|bytes| - 1], bytes[|bytes| - 1];
      BitsBytesInverts(front);
      BitsBytesAppends(ByteBits(front), Bits(last, 8), |front|);
      OneByteInverts(last);
      assert bytes == front + [last];
    }
  }

  function Decode(text: string): seq<int>
    requires IsSpelt(text)
  {
    BitsBytes(SymbolBits(text))
  }

  /** Decoding undoes encoding, for byte strings of every length. */
  lemma DecodeInvertsEncode(text: string, bytes: seq<Byte>)
    requires Spells(text, bytes)
    ensures Decode(text) == bytes
  {
    hide BitsBytes, Bits, ByteBits, SymbolBits, IsSymbol;
    var pad := Bits(0, 5 * |text| - 8 * |bytes|);
    BitsBytesInverts(bytes);
    BitsBytesAppends(ByteBits(bytes), pad, |bytes|);
    ShortBitsBytes(pad);
  }

  /** So two byte strings with the same spelling are the same. */
  lemma EncodingIsInjective(text: string, a: seq<Byte>, b: seq<Byte>)
    requires Spells(text, a) && Spells(text, b)
    ensures a == b
  {
    DecodeInvertsEncode(text, a);
    DecodeInvertsEncode(text, b);
  }

  /** And a byte string has only one spelling. */
  lemma SpellingIsUnique(bytes: seq<Byte>, s: string, t: string)
    requires Spells(s, bytes) && Spells(t, bytes)
    ensures s == t
  {
    hide Bits, ByteBits, SymbolBits, IsSymbol;
    SameBitsSameSymbols(s, t);
  }

  lemma SameValueSameSymbol(a: char, b: char)
    requires IsSymbol(a) && IsSymbol(b) && Bits(ValueOf(a), 5) == Bits(ValueOf(b), 5)
    ensures a == b
  {
    SmallPowers();
    BitsNumberInverts(ValueOf(a), 5);
    BitsNumberInverts(ValueOf(b), 5);
    hide Bits, BitsNumber, Pow2;
    SymbolOfValue(a);
    SymbolOfValue(b);
  }

  lemma {:induction false} SameBitsSameSymbols(s: string, t: string)
    requires IsSpelt(s) && IsSpelt(t) && SymbolBits(s) == SymbolBits(t)
    ensures s == t
    decreases |s|
  {
    hide Bits, ValueOf, IsSymbol;
    assert |s| == |t|;
    if s != [] {
      var last := |s| - 1;
      assert SymbolBits(s) == SymbolBits(s[..last]) + Bits(ValueOf(s[last]), 5);
      assert SymbolBits(t) == SymbolBits(t[..last]) + Bits(ValueOf(t[last]), 5);
      hide SymbolBits;
      assert SymbolBits(s)[..5 * last] == SymbolBits(s[..last]) && SymbolBits(t)[..5 * last] == SymbolBits(t[..last]);
      assert SymbolBits(s)[5 * last..] == Bits(ValueOf(s[last]), 5);
      assert SymbolBits(t)[5 * last..] == Bits(ValueOf(t[last]), 5);
      SameBitsSameSymbols(s[..last], t[..last]);
      SameValueSameSymbol(s[last], t[last]);
      assert s == s[..last] + [s[last]] && t == t[..last] + [t[last]];
    }
  }

  lemma SymbolOfValue(symbol: char)
    requires IsSymbol(symbol)
    ensures SymbolOf(ValueOf(symbol)) == symbol
  {
  }

  // ---------- Keys ----------

  const DEVICE_IDENTITY_PREFIX := "czd_"

  predicate IsSpace(c: char) {
    var n := c as int;
    9 <= n <= 13 || n in {32, 160, 5760, 8232, 8233, 8239, 8287, 12288, 65279} || 8192 <= n <= 8202
  }

  function TrimStart(s: string): string {
    if s != "" && IsSpace(s[0]) then TrimStart(s[1..]) else s
  }

  function TrimEnd(s: string): string {
    if s != "" && IsSpace(s[|s| - 1]) then TrimEnd(s[..|s| - 1]) else s
  }

  /** Lower-cases the letters of the Latin alphabet. */
  function ToLower(s: string): string {
    seq(|s|, i requires 0 <= i < |s| => if 'A' <= s[i] <= 'Z' then (s[i] as int + 32) as char else s[i])
  }

  function NormalizeDeviceIdentityKey(value: string): string {
    ToLower(TrimEnd(TrimStart(value)))
  }

  predicate IsDeviceIdentityKey(value: string) {
    var key := NormalizeDeviceIdentityKey(value);
    && |key| == 30 && key[..4] == DEVICE_IDENTITY_PREFIX
    && forall i :: 4 <= i < 30 ==> IsSymbol(key[i])
  }

  lemma SpacesAre(c: char)
    ensures IsSpace(c) <==>
            || c in [' ', '\t', '\n', '\r'] || c as int in {11, 12, 160, 5760, 65279}
            || c as int in {8192, 8193, 8194, 8195, 8196, 8197, 8198, 8199, 8200, 8201, 8202}
            || c as int in {8232, 8233, 8239, 8287, 12288}
  {
  }

  ghost predicate AreSpaces(s: string) {
    forall i :: 0 <= i < |s| ==> IsSpace(s[i])
  }

  /** The core is what is left of a text without the white space at its ends. */
  ghost predicate IsTrimmed(value: string, front: string, core: string, back: string) {
    && value == front + core + back && AreSpaces(front) && AreSpaces(back)
    && (core != "" ==> !IsSpace(core[0]) && !IsSpace(core[|core| - 1]))
  }

  /** The capital or the small letter. */
  ghost predicate IsLetter(c: char, small: char, capital: char) {
    c == small || c == capital
  }

  function Small(c: char): char
    requires 'A' <= c <= 'Z'
  {
    (c as int + ('a' as int - 'A' as int)) as char
  }

  lemma {:induction false} TrimStartIs(s: string) returns (front: string)
    ensures s == front + TrimStart(s) && AreSpaces(front)
    ensures TrimStart(s) != "" ==> !IsSpace(TrimStart(s)[0])
  {
    hide IsSpace;
    if s != "" && IsSpace(s[0]) {
      var more := TrimStartIs(s[1..]);
      front := [s[0]] + more;
    } else {
      front := "";
    }
  }

  lemma {:induction false} TrimEndIs(s: string) returns (back: string)
    ensures s == TrimEnd(s) + back && AreSpaces(back)
    ensures TrimEnd(s) != "" ==> !IsSpace(TrimEnd(s)[|TrimEnd(s)| - 1])
  {
    hide IsSpace;
    if s != "" && IsSpace(s[|s| - 1]) {
      var more := TrimEndIs(s[..|s| - 1]);
      back := more + [s[|s| - 1]];
      assert s == s[..|s| - 1] + [s[|s| - 1]];
    } else {
      back := "";
    }
  }

  lemma TrimIs(value: string)
    ensures exists front, back :: IsTrimmed(value, front, TrimEnd(TrimStart(value)), back)
  {
    hide IsSpace, AreSpaces, TrimStart, TrimEnd;
    var front := TrimStartIs(value);
    var back := TrimEndIs(TrimStart(value));
    var core := TrimEnd(TrimStart(value));
    assert value == front + core + back;
    assert core != "" ==> core[0] == TrimStart(value)[0];
    assert IsTrimmed(value, front, core, back);
  }

  lemma OneTrim(value: string, front: string, core: string, back: string, f: string, c: string, b: string)
    requires IsTrimmed(value, front, core, back) && IsTrimmed(value, f, c, b) && c != ""
    ensures core == c
  {
    hide IsSpace;
    var first, last := |f|, |f| + |c| - 1;
    assert value[first] == c[0] && value[last] == c[|c| - 1];
    InCore(value, front, core, back, first);
    InCore(value, front, core, back, last);
    assert value[|front|] == core[0] && value[|front| + |core| - 1] == core[|core| - 1];
    InCore(value, f, c, b, |front|);
    InCore(value, f, c, b, |front| + |core| - 1);
    assert core == value[|front|..|front| + |core|] && c == value[|f|..|f| + |c|];
  }

  /** What is no white space is in the core. */
  lemma InCore(value: string, front: string, core: string, back: string, i: nat)
    requires IsTrimmed(value, front, core, back) && i < |value| && !IsSpace(value[i])
    ensures |front| <= i < |front| + |core|
  {
    hide IsSpace;
  }

  ghost predicate IsKeyText(s: string) {
    && |s| == 30 && IsLetter(s[0], 'c', 'C') && IsLetter(s[1], 'z', 'Z') && IsLetter(s[2], 'd', 'D') && s[3] == '_'
    && forall k :: 4 <= k < 30 ==> IsSymbol(s[k]) || ('A' <= s[k] <= 'Z' && IsSymbol(Small(s[k])))
  }

  lemma LoweredKey(s: string)
    ensures var key := ToLower(s);
            |key| == 30 && key[..4] == DEVICE_IDENTITY_PREFIX && (forall i :: 4 <= i < 30 ==> IsSymbol(key[i]))
            <==> IsKeyText(s)
  {
    var key := ToLower(s);
    hide ToLower;
    Lowered(s);
    if |key| == 30 {
      assert key[..4] == [key[0], key[1], key[2], key[3]];
      assert key[..4] == DEVICE_IDENTITY_PREFIX <==> key[0] == 'c' && key[1] == 'z' && key[2] == 'd' && key[3] == '_';
      forall i | 0 <= i < 30
        ensures IsSymbol(key[i]) <==> IsSymbol(s[i]) || ('A' <= s[i] <= 'Z' && IsSymbol(Small(s[i])))
      {
      }
    }
  }

  lemma Lowered(s: string)
    ensures |ToLower(s)| == |s|
    ensures forall i :: 0 <= i < |s| ==> ToLower(s)[i] == if 'A' <= s[i] <= 'Z' then Small(s[i]) else s[i]
  {
  }

  /** The key test accepts exactly the texts that hold a key between white space. */
  lemma KeyTest(value: string)
    ensures IsDeviceIdentityKey(value)
            <==> exists front, core, back :: IsTrimmed(value, front, core, back) && IsKeyText(core)
  {
    hide IsSymbol, IsTrimmed, ToLower, TrimEnd, TrimStart, IsKeyText, IsSpace;
    TrimIs(value);
    var trimmed := TrimEnd(TrimStart(value));
    var front, back :| IsTrimmed(value, front, trimmed, back);
    LoweredKey(trimmed);
    if f, core, b :| IsTrimmed(value, f, core, b) && IsKeyText(core) {
      KeyTextLength(core);
      OneTrim(value, front, trimmed, back, f, core, b);
    }
  }

  lemma KeyTextLength(s: string)
    requires IsKeyText(s)
    ensures |s| == 30
  {
  }

  datatype KeyError = WrongLength

  /** Sixteen bytes make a key that the key test accepts and the bytes can be recovered from. */
  method CreateDeviceIdentityKey(randomBytes: seq<Byte>) returns (key: Result<string, KeyError>)
    ensures key.Ok? <==> |randomBytes| == 16
    ensures key.Ok? ==>
              && IsDeviceIdentityKey(key.value)
              && |key.value| == 30 && IsSpelt(key.value[4..]) && Decode(key.value[4..]) == randomBytes
              && key.value[..4] == "czd_" && TextNumber(key.value[4..]) == 4 * BytesNumber(randomBytes)
  {
    hide *;
    if |randomBytes| != 16 {
      return Err(WrongLength);
    }
    var encoded := EncodeCrockfordBase32(randomBytes);
    DecodeInvertsEncode(encoded, randomBytes);
    SpellingIsANumeral(encoded, randomBytes);
    SpeltLength(encoded, randomBytes);
    MadeKey(encoded);
    key := Ok(DEVICE_IDENTITY_PREFIX + encoded);
  }

  lemma SpeltLength(text: string, bytes: seq<Byte>)
    requires Spells(text, bytes) && |bytes| == 16
    ensures IsSpelt(text) && |text| == 26 && Pow2(5 * |text| - 8 * |bytes|) == 4
  {
    assert Pow2(2) == 4;
  }

  lemma MadeKey(encoded: string)
    requires IsSpelt(encoded) && |encoded| == 26
    ensures var key := DEVICE_IDENTITY_PREFIX + encoded;
            IsDeviceIdentityKey(key) && |key| == 30 && key[..4] == "czd_" && key[4..] == encoded
  {
    hide IsSpace, IsTrimmed, IsDeviceIdentityKey, IsSymbol;
    var key := DEVICE_IDENTITY_PREFIX + encoded;
    assert forall i :: 4 <= i < 30 ==> key[i] == encoded[i - 4];
    NoSpaces(key);
    KeyTest(key);
  }

  lemma NoSpaces(key: string)
    requires |key| == 30 && key[0] == 'c' && IsSymbol(key[29])
    ensures IsTrimmed(key, "", key, "")
  {
    assert key == "" + key + "";
  }
}
