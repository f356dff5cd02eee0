/**
 The base32 codec of the operator authentication service (section 6 of RFC 4648).

 Both loops keep their pending bits in one JavaScript number that is never masked:
 it is shifted and or-ed as a signed 32-bit integer and silently loses its top bits.
 Numbers are modelled as unbounded integers and every bitwise operator wraps
 explicitly, as ECMAScript's ToInt32 and ToUint32 do.
 */
module Int32 {
  const MODULUS := 0x1_0000_0000

  function Pow2(n: nat): (p: nat)
    ensures p > 0
  {
    if n == 0 then 1 else 2 * Pow2(n - 1)
  }

  function ToUint32(x: int): (u: nat)
    ensures u < MODULUS
  {
    x % MODULUS
  }

  function ToInt32(x: int): (r: int)
    ensures -0x8000_0000 <= r < 0x8000_0000
    ensures ToUint32(r) == ToUint32(x)
  {
    var m := x % MODULUS;
    if m >= 0x8000_0000 then m - MODULUS else m
  }

  /** `k` doublings of an unsigned 32-bit word, each losing its top bit. */
  function ShiftLeft(u: nat, k: nat): (r: nat)
    ensures u < MODULUS ==> r < MODULUS
    decreases k
  {
    if k == 0 then u else ShiftLeft((2 * u) % MODULUS, k - 1)
  }

  function ShiftRight(u: nat, k: nat): (r: nat)
    ensures r <= u
    decreases k
  {
    if k == 0 then u else ShiftRight(u / 2, k - 1)
  }

  function BitOr(a: nat, b: nat): nat
    decreases a + b
  {
    if a == 0 then b else if b == 0 then a
    else 2 * BitOr(a / 2, b / 2) + (if a % 2 == 1 || b % 2 == 1 then 1 else 0)
  }

  function BitAnd(a: nat, b: nat): (r: nat)
    ensures r <= b
  {
    if a == 0 || b == 0 then 0
    else 2 * BitAnd(a / 2, b / 2) + (if a % 2 == 1 && b % 2 == 1 then 1 else 0)
  }

  // The four JavaScript operators the codec uses.
  function Shl(x: int, k: nat): int { ToInt32(ShiftLeft(ToUint32(x), k)) }
  function Shr(x: int, k: nat): nat { ShiftRight(ToUint32(x), k) }
  function Or(x: int, y: int): int { ToInt32(BitOr(ToUint32(x), ToUint32(y))) }
  function And(x: int, y: int): int { ToInt32(BitAnd(ToUint32(x), ToUint32(y))) }

  lemma {:induction false} BitOrBound(a: nat, b: nat, n: nat)
    requires a < Pow2(n) && b < Pow2(n)
    ensures BitOr(a, b) < Pow2(n)
    decreases n
  {
    if n > 0 { BitOrBound(a / 2, b / 2, n - 1); }
  }

  lemma WordOr(a: nat, b: nat)
    requires a < MODULUS && b < MODULUS
    ensures BitOr(a, b) < MODULUS
  {
    Modulus();
    BitOrBound(a, b, 32);
  }

  lemma Modulus()
    ensures Pow2(32) == MODULUS && Pow2(8) == 256 && Pow2(5) == 32
  {
    assert Pow2(8) == 256;
    assert Pow2(16) == 256 * Pow2(8);
    assert Pow2(24) == 256 * Pow2(16);
    assert Pow2(32) == 256 * Pow2(24);
  }
}

module Base32 {
  import opened Int32
  import opened Results

  const ALPHABET := "ABCDEFGHIJKLMNOPQRSTUVWXYZ234567"

  // ----- Specification: the bit string a text stands for -----------------------------------------

  /** The low `k` bits of `v`, most significant first. */
  function Bits(v: nat, k: nat): (s: seq<bool>)
    ensures |s| == k
  {
    if k == 0 then [] else Bits(v / 2, k - 1) + [v % 2 == 1]
  }

  function ByteBits(b: seq<Byte>): (s: seq<bool>)
    ensures |s| == 8 * |b|
  {
    if b == [] then [] else ByteBits(b[..|b| - 1]) + Bits(b[|b| - 1], 8)
  }

  /** The position of a character in the alphabet, or -1. */
  function IndexOf(c: char): (i: int)
    ensures -1 <= i < 32
  {
    if 'A' <= c <= 'Z' then c as int - 'A' as int
    else if '2' <= c <= '7' then c as int - '2' as int + 26
    else -1
  }

  lemma AlphabetIndex(i: int)
    requires 0 <= i < 32
    ensures IndexOf(ALPHABET[i]) == i
  {
  }

  lemma AlphabetAt(c: char)
    requires IndexOf(c) >= 0
    ensures ALPHABET[IndexOf(c)] == c
  {
  }

  /** `IndexOf` is `alphabet.indexOf`. */
  lemma IndexOfAlphabet(c: char)
    ensures IndexOf(c) >= 0 ==> ALPHABET[IndexOf(c)] == c
    ensures IndexOf(c) < 0 <==> c !in ALPHABET
  {
    hide IndexOf;
    if IndexOf(c) >= 0 { AlphabetAt(c); }
    if c in ALPHABET {
      var i :| 0 <= i < |ALPHABET| && ALPHABET[i] == c;
      AlphabetIndex(i);
    }
  }

  predicate IsText(s: string) { forall i | 0 <= i < |s| :: IndexOf(s[i]) >= 0 }

  function SymbolBits(s: string): (r: seq<bool>)
    requires IsText(s)
    ensures |r| == 5 * |s|
  {
    if s == [] then [] else SymbolBits(s[..|s| - 1]) + Bits(IndexOf(s[|s| - 1]), 5)
  }

  function Zeros(n: nat): (s: seq<bool>)
    ensures |s| == n
  {
    seq(n, i => false)
  }

  /** `s` is the unpadded base32 encoding of `b`: its bits are those of `b`, zero-filled to
      the next multiple of five. */
  ghost predicate Encodes(b: seq<Byte>, s: string)
  {
    && IsText(s)
    && |s| == (8 * |b| + 4) / 5
    && SymbolBits(s) == ByteBits(b) + Zeros(5 * |s| - 8 * |b|)
  }

  /** `b` holds the whole bytes of the bits of `s`; the leftover bits are dropped. */
  ghost predicate Decodes(s: string, b: seq<Byte>)
  {
    && IsText(s)
    && |b| == 5 * |s| / 8
    && ByteBits(b) == SymbolBits(s)[..8 * |b|]
  }

  // ----- Arithmetic of the accumulator -----------------------------------------------------------

  lemma {:induction false} BitsIgnoreHigh(v: nat, k: nat, j: nat)
    requires k <= j
    ensures Bits(v + Pow2(j), k) == Bits(v, k)
    decreases k
  {
    if k > 0 { BitsIgnoreHigh(v / 2, k - 1, j - 1); }
  }

  lemma BitsLast(v: nat, k: nat)
    ensures Bits(v, k + 1) == Bits(v / 2, k) + [v % 2 == 1]
  {
  }

  lemma BitsOfDouble(u: nat, k: nat)
    requires u < MODULUS && k < 32
    ensures Bits((2 * u) % MODULUS, k + 1) == Bits(u, k) + [false]
  {
    hide Bits, Pow2;
    BitsLast(2 * u, k);
    var d := (2 * u) % MODULUS;
    if d != 2 * u {
      Modulus();
      BitsIgnoreHigh(d, k + 1, 32);
    }
  }

  lemma {:induction false} BitsOfShiftLeft(u: nat, k: nat, w: nat)
    requires u < MODULUS && k + w <= 32
    ensures Bits(ShiftLeft(u, w), k + w) == Bits(u, k) + Zeros(w)
    decreases w
  {
    if w > 0 {
      var d := (2 * u) % MODULUS;
      BitsOfDouble(u, k);
      BitsOfShiftLeft(d, k + 1, w - 1);
      assert Bits(u, k) + [false] + Zeros(w - 1) == Bits(u, k) + Zeros(w);
    }
  }

  lemma {:induction false} BitsOfShiftRight(u: nat, w: nat, j: nat)
    ensures Bits(u, w + j) == Bits(ShiftRight(u, j), w) + Bits(u, j)
    decreases j
  {
    if j > 0 { BitsOfShiftRight(u / 2, w, j - 1); }
  }

  lemma OrHalves(a: nat, b: nat)
    requires a > 0 && b > 0
    ensures BitOr(a, b) / 2 == BitOr(a / 2, b / 2)
    ensures BitOr(a, b) % 2 == 1 <==> a % 2 == 1 || b % 2 == 1
  {
  }

  lemma AndHalves(a: nat, b: nat)
    requires a > 0 && b > 0
    ensures BitAnd(a, b) / 2 == BitAnd(a / 2, b / 2)
    ensures BitAnd(a, b) % 2 == 1 <==> a % 2 == 1 && b % 2 == 1
  {
  }

  lemma OrZero(a: nat)
    ensures BitOr(a, 0) == BitOr(0, a) == a
  {
  }

  lemma {:induction false} BitsOfOr(a: nat, b: nat, n: nat, i: nat)
    requires i < n
    ensures Bits(BitOr(a, b), n)[i] == (Bits(a, n)[i] || Bits(b, n)[i])
    decreases n
  {
    hide Bits, BitOr;
    if a == 0 || b == 0 {
      OrZero(a + b);
      ZeroBits(n);
    } else {
      OrHalves(a, b);
      BitsLast(BitOr(a, b), n - 1);
      BitsLast(a, n - 1);
      BitsLast(b, n - 1);
      if i < n - 1 { BitsOfOr(a / 2, b / 2, n - 1, i); }
    }
  }

  lemma {:induction false} BitsOfAnd(a: nat, b: nat, n: nat, i: nat)
    requires i < n
    ensures Bits(BitAnd(a, b), n)[i] == (Bits(a, n)[i] && Bits(b, n)[i])
    decreases n
  {
    hide Bits;
    if a == 0 || b == 0 {
      ZeroBits(n);
    } else {
      hide BitAnd;
      AndHalves(a, b);
      BitsLast(BitAnd(a, b), n - 1);
      BitsLast(a, n - 1);
      BitsLast(b, n - 1);
      if i < n - 1 { BitsOfAnd(a / 2, b / 2, n - 1, i); }
    }
  }

  lemma {:induction false} ZeroBits(k: nat)
    ensures Bits(0, k) == Zeros(k)
  {
    if k > 0 { ZeroBits(k - 1); }
  }

  lemma {:induction false} BitsOfMask(w: nat, i: nat)
    requires i < w
    ensures Bits(Pow2(w) - 1, w)[i]
    decreases w
  {
    if i < w - 1 {
      assert (Pow2(w) - 1) / 2 == Pow2(w - 1) - 1;
      BitsOfMask(w - 1, i);
    }
  }

  lemma {:induction false} BitsOfSmall(b: nat, k: nat, w: nat)
    requires b < Pow2(w)
    ensures Bits(b, k + w) == Zeros(k) + Bits(b, w)
    decreases w
  {
    if w > 0 { BitsOfSmall(b / 2, k, w - 1); } else { ZeroBits(k); }
  }

  lemma {:induction false} BitsInjective(a: nat, b: nat, k: nat)
    requires a < Pow2(k) && b < Pow2(k) && Bits(a, k) == Bits(b, k)
    ensures a == b
    decreases k
  {
    if k > 0 {
      assert Bits(a, k)[k - 1] == Bits(b, k)[k - 1];
      assert Bits(a, k)[..k - 1] == Bits(a / 2, k - 1);
      assert Bits(b, k)[..k - 1] == Bits(b / 2, k - 1);
      BitsInjective(a / 2, b / 2, k - 1);
    }
  }

  lemma OrWithoutWrap(x: int, y: nat, w: nat)
    requires y < MODULUS
    ensures ToUint32(Or(Shl(x, w), y)) == BitOr(ShiftLeft(ToUint32(x), w), y)
  {
    var s := ShiftLeft(ToUint32(x), w);
    assert ToUint32(Shl(x, w)) == s && ToUint32(y) == y;
    WordOr(s, y);
  }

  /** Shifting in `w` low bits appends them to the pending bits, whatever the 32-bit wrap loses. */
  lemma PushBits(x: int, y: nat, k: nat, w: nat)
    requires k + w <= 32 && y < Pow2(w) && y < MODULUS
    ensures Bits(ToUint32(Or(Shl(x, w), y)), k + w) == Bits(ToUint32(x), k) + Bits(y, w)
  {
    hide Bits, Or, Shl, BitOr, ShiftLeft, ToUint32, Pow2;
    var u, n := ToUint32(x), k + w;
    var s := ShiftLeft(u, w);
    var joined := Bits(u, k) + Bits(y, w);
    OrWithoutWrap(x, y, w);
    forall i | 0 <= i < n
      ensures Bits(BitOr(s, y), n)[i] == joined[i]
    {
      BitsOfOr(s, y, n, i);
      BitsOfShiftLeft(u, k, w);
      BitsOfSmall(y, k, w);
    }
  }

  /** Reading the top `w` of `j + w` pending bits out of the accumulator. */
  lemma PopBits(x: int, j: nat, w: nat, mask: nat)
    requires mask == Pow2(w) - 1 && mask < 0x8000_0000
    ensures 0 <= And(Shr(x, j), mask) < Pow2(w)
    ensures Bits(ToUint32(x), j + w) == Bits(And(Shr(x, j), mask), w) + Bits(ToUint32(x), j)
  {
    hide Bits, ShiftRight, BitAnd, Pow2;
    var u := ToUint32(x);
    var s := ShiftRight(u, j);
    assert And(s, mask) == BitAnd(s, mask);
    BitsOfShiftRight(u, w, j);
    forall i | 0 <= i < w
      ensures Bits(BitAnd(s, mask), w)[i] == Bits(s, w)[i]
    {
      BitsOfAnd(s, mask, w, i);
      BitsOfMask(w, i);
    }
    assert Bits(BitAnd(s, mask), w) == Bits(s, w);
  }

  /** The final, partial symbol: the pending bits followed by zeros. */
  lemma PadBits(x: int, k: nat)
    requires 0 < k < 5
    ensures 0 <= And(Shl(x, 5 - k), 31) < 32
    ensures Bits(And(Shl(x, 5 - k), 31), 5) == Bits(ToUint32(x), k) + Zeros(5 - k)
  {
    hide Bits, ShiftLeft, BitAnd, Pow2;
    Modulus();
    var v := Shl(x, 5 - k);
    PopBits(v, 0, 5, 31);
    BitsOfShiftLeft(ToUint32(x), k, 5 - k);
    assert Shr(v, 0) == ToUint32(v) == ShiftLeft(ToUint32(x), 5 - k);
    assert And(Shr(v, 0), 31) == And(v, 31);
    assert Bits(ToUint32(v), 0) == [];
  }

  // ----- The two loops ---------------------------------------------------------------------------

  /** The bytes read so far are the symbols written plus the pending bits. */
  ghost predicate Encoding(done: seq<Byte>, output: string, value: int, bits: nat)
  {
    && IsText(output)
    && 5 * |output| + bits == 8 * |done|
    && ByteBits(done) == SymbolBits(output) + Bits(ToUint32(value), bits)
  }

  lemma ByteBitsAppend(b: seq<Byte>, byte: Byte)
    ensures ByteBits(b + [byte]) == ByteBits(b) + Bits(byte, 8)
  {
    assert (b + [byte])[..|b|] == b;
  }

  lemma SymbolBitsAppend(s: string, c: char)
    requires IsText(s) && IndexOf(c) >= 0
    ensures IsText(s + [c]) && SymbolBits(s + [c]) == SymbolBits(s) + Bits(IndexOf(c), 5)
  {
    assert (s + [c])[..|s|] == s;
  }

  lemma EncodePush(done: seq<Byte>, byte: Byte, output: string, value: int, bits: nat)
    requires Encoding(done, output, value, bits) && bits < 5
    ensures Encoding(done + [byte], output, Or(Shl(value, 8), byte), bits + 8)
  {
    hide Bits, Or, Shl, Shr, And, ToUint32, ByteBits, SymbolBits, IsText, Pow2;
    ByteBitsAppend(done, byte);
    Modulus();
    PushBits(value, byte, bits, 8);
    var symbols, pending, added := SymbolBits(output), Bits(ToUint32(value), bits), Bits(byte, 8);
    assert (symbols + pending) + added == symbols + (pending + added);
  }

  lemma EncodePop(done: seq<Byte>, output: string, value: int, bits: nat)
    requires Encoding(done, output, value, bits) && bits >= 5
    ensures 0 <= And(Shr(value, bits - 5), 31) < 32
    ensures Encoding(done, Append(output, And(Shr(value, bits - 5), 31)), value, bits - 5)
  {
    hide Bits, Or, Shl, Shr, And, ToUint32, ByteBits, SymbolBits, IsText, Pow2;
    Modulus();
    PopBits(value, bits - 5, 5, 31);
  }

  lemma EncodeFinish(input: seq<Byte>, output: string, value: int, bits: nat)
    requires Encoding(input, output, value, bits) && bits < 5
    ensures bits == 0 ==> Encodes(input, output)
    ensures bits > 0 ==>
      && 0 <= And(Shl(value, 5 - bits), 31) < 32
      && Encodes(input, Append(output, And(Shl(value, 5 - bits), 31)))
  {
    hide Bits, Or, Shl, And, ToUint32, ByteBits, SymbolBits, IsText;
    if bits > 0 { PadBits(value, bits); }
  }

  method EncodeBase32(input: seq<Byte>) returns (output: string)
    ensures Encodes(input, output)
  {
    assert Encoding(input[..0], "", 0, 0);
    hide Encoding, Encodes, Append, Shl, Shr, Or, And;
    var bits, value := 0, 0;
    output := "";
    var i := 0;
    while i < |input|
      invariant 0 <= i <= |input| && 0 <= bits < 5
      invariant Encoding(input[..i], output, value, bits)
    {
      var byte := input[i];
      EncodePush(input[..i], byte, output, value, bits);
      assert input[..i + 1] == input[..i] + [byte];
      value := Or(Shl(value, 8), byte);
      bits := bits + 8;
      i := i + 1;
      while bits >= 5
        invariant 0 <= bits < 13
        invariant Encoding(input[..i], output, value, bits)
      {
        EncodePop(input[..i], output, value, bits);
        output := Append(output, And(Shr(value, bits - 5), 31));
        bits := bits - 5;
      }
    }
    assert input[..i] == input;
    EncodeFinish(input, output, value, bits);
    if bits > 0 {
      output := Append(output, And(Shl(value, 5 - bits), 31));
    }
  }

  function Append(s: string, index: int): (r: string)
    requires IsText(s) && 0 <= index < 32
    ensures IsText(r) && |r| == |s| + 1
    ensures SymbolBits(r) == SymbolBits(s) + Bits(index, 5)
  {
    AlphabetIndex(index);
    SymbolBitsAppend(s, ALPHABET[index]);
    s + [ALPHABET[index]]
  }

  /** `replace(/=+$/g, "")` */
  function StripPadding(s: string): (r: string)
    ensures r <= s && (r != "" ==> r[|r| - 1] != '=')
    ensures forall i | |r| <= i < |s| :: s[i] == '='
  {
    if s != "" && s[|s| - 1] == '=' then StripPadding(s[..|s| - 1]) else s
  }

  /** The symbols read so far are the bytes written plus the pending bits. */
  ghost predicate Decoding(done: string, output: seq<Byte>, value: int, bits: nat)
  {
    && IsText(done)
    && 8 * |output| + bits == 5 * |done|
    && SymbolBits(done) == ByteBits(output) + Bits(ToUint32(value), bits)
  }

  lemma DecodePush(done: string, c: char, output: seq<Byte>, value: int, bits: nat)
    requires Decoding(done, output, value, bits) && bits < 8 && IndexOf(c) >= 0
    ensures Decoding(done + [c], output, Or(Shl(value, 5), IndexOf(c)), bits + 5)
  {
    hide Bits, Or, Shl, Shr, And, ToUint32, ByteBits, SymbolBits, IsText, Pow2;
    Modulus();
    SymbolBitsAppend(done, c);
    PushBits(value, IndexOf(c), bits, 5);
  }

  lemma DecodePop(done: string, output: seq<Byte>, value: int, bits: nat)
    requires Decoding(done, output, value, bits) && bits >= 8
    ensures 0 <= And(Shr(value, bits - 8), 0xff) < 256
    ensures Decoding(done, output + [And(Shr(value, bits - 8), 0xff)], value, bits - 8)
  {
    hide Bits, Or, Shl, Shr, And, ToUint32, ByteBits, SymbolBits, IsText, Pow2;
    Modulus();
    PopBits(value, bits - 8, 8, 0xff);
    ByteBitsAppend(output, And(Shr(value, bits - 8), 0xff));
  }

  lemma DecodeFinish(text: string, output: seq<Byte>, value: int, bits: nat)
    requires Decoding(text, output, value, bits) && bits < 8
    ensures IsText(text) && Decodes(text, output)
  {
    hide Bits, ByteBits, SymbolBits, IsText, ToUint32;
  }

  lemma NotText(text: string, i: nat)
    requires i < |text| && IndexOf(text[i]) < 0
    ensures !IsText(text)
  {
  }

  method DecodeText(text: string) returns (r: Result<seq<Byte>, string>)
    ensures r.Ok? <==> IsText(text)
    ensures r.Ok? ==> Decodes(text, r.value)
  {
    DecodeStart(text);
    hide Decodes, Decoding, IsText, IndexOf, Shl, Shr, Or, And;
    var bits, value := 0, 0;
    var output: seq<Byte> := [];
    var i := 0;
    while i < |text|
      invariant 0 <= i <= |text| && 0 <= bits < 8
      invariant Decoding(text[..i], output, value, bits)
    {
      var index := IndexOf(text[i]);
      if index < 0 {
        NotText(text, i);
        return Err("Invalid base32 secret");
      }
      DecodePush(text[..i], text[i], output, value, bits);
      assert text[..i + 1] == text[..i] + [text[i]];
      value := Or(Shl(value, 5), index);
      bits := bits + 5;
      i := i + 1;
      if bits >= 8 {
        DecodePop(text[..i], output, value, bits);
        output := output + [And(Shr(value, bits - 8), 0xff)];
        bits := bits - 8;
      }
    }
    assert text[..i] == text;
    DecodeFinish(text, output, value, bits);
    return Ok(output);
  }

  lemma DecodeStart(text: string)
    ensures Decoding(text[..0], [], 0, 0)
  {
  }

  /** `toUpperCase` is supplied by the caller: Unicode case mapping is not modelled. */
  method DecodeBase32(input: string, upper: string -> string) returns (r: Result<seq<Byte>, string>)
    ensures r.Ok? <==> IsText(StripPadding(upper(input)))
    ensures r.Ok? ==> Decodes(StripPadding(upper(input)), r.value)
  {
    r := DecodeText(StripPadding(upper(input)));
  }

  // ----- Round trip ------------------------------------------------------------------------------

  lemma {:induction false} ByteBitsInjective(a: seq<Byte>, b: seq<Byte>)
    requires ByteBits(a) == ByteBits(b)
    ensures a == b
    decreases |a|
  {
    assert |a| == |b|;
    if a != [] {
      var n := |a| - 1;
      assert ByteBits(a)[..8 * n] == ByteBits(a[..n]) && ByteBits(b)[..8 * n] == ByteBits(b[..n]);
      assert ByteBits(a)[8 * n..] == Bits(a[n], 8) && ByteBits(b)[8 * n..] == Bits(b[n], 8);
      ByteBitsInjective(a[..n], b[..n]);
      assert Pow2(8) == 256;
      BitsInjective(a[n], b[n], 8);
      assert a == a[..n] + [a[n]] && b == b[..n] + [b[n]];
    }
  }

  /** Decoding undoes encoding for byte strings of every length. The four or fewer fill bits never
      make up a further byte, so the lengths agree as well. */
  lemma RoundTrip(b: seq<Byte>, s: string, d: seq<Byte>)
    requires Encodes(b, s) && Decodes(s, d)
    ensures d == b
  {
    assert |d| == |b|;
    assert SymbolBits(s)[..8 * |b|] == ByteBits(b);
    ByteBitsInjective(d, b);
  }

  lemma SymbolInjective(c: char, d: char)
    requires IndexOf(c) >= 0 && IndexOf(d) >= 0 && Bits(IndexOf(c), 5) == Bits(IndexOf(d), 5)
    ensures c == d
  {
    assert Pow2(5) == 32;
    BitsInjective(IndexOf(c), IndexOf(d), 5);
    IndexOfAlphabet(c);
    IndexOfAlphabet(d);
  }

  lemma {:induction false} SymbolBitsInjective(s: string, t: string)
    requires IsText(s) && IsText(t) && SymbolBits(s) == SymbolBits(t)
    ensures s == t
    decreases |s|
  {
    assert |s| == |t|;
    if s != [] {
      var n := |s| - 1;
      assert SymbolBits(s)[..5 * n] == SymbolBits(s[..n]) && SymbolBits(t)[..5 * n] == SymbolBits(t[..n]);
      assert SymbolBits(s)[5 * n..] == Bits(IndexOf(s[n]), 5) && SymbolBits(t)[5 * n..] == Bits(IndexOf(t[n]), 5);
      SymbolBitsInjective(s[..n], t[..n]);
      SymbolInjective(s[n], t[n]);
      assert s == s[..n] + [s[n]] && t == t[..n] + [t[n]];
    }
  }

  /** The encoding is a function of the bytes, and different bytes encode differently. */
  lemma EncodingUnique(b: seq<Byte>, s: string, c: seq<Byte>, t: string)
    requires Encodes(b, s) && Encodes(c, t)
    ensures b == c <==> s == t
  {
    if b == c {
      SymbolBitsInjective(s, t);
    } else if s == t {
      LengthFromText(b, c, s);
      var n := 8 * |b|;
      assert ByteBits(b) == SymbolBits(s)[..n] == ByteBits(c);
      ByteBitsInjective(b, c);
    }
  }

  lemma LengthFromText(b: seq<Byte>, c: seq<Byte>, s: string)
    requires |s| == (8 * |b| + 4) / 5 == (8 * |c| + 4) / 5
    ensures |b| == |c|
  {
  }

  /** An enrolled secret survives its base32 rendering; upper-casing need only leave the
      alphabet's own characters alone. */
  method EncodeThenDecode(b: seq<Byte>, upper: string -> string) returns (r: Result<seq<Byte>, string>)
    requires forall s | IsText(s) :: upper(s) == s
    ensures r == Ok(b)
  {
    var s := EncodeBase32(b);
    r := DecodeBase32(s, upper);
    assert StripPadding(s) == s by { assert s != "" ==> IndexOf(s[|s| - 1]) >= 0; }
    RoundTrip(b, s, r.value);
  }
}
