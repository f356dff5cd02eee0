/** Result, option and byte types shared by the models. */
module Results {
  datatype Option<+T> = None | Some(value: T)

  datatype Result<+T, +E> = Ok(value: T) | Err(error: E)

  type Byte = x: int | 0 <= x < 256
}

/**
 JavaScript strings: sequences of UTF-16 code units, with the two operations whose edge cases
 the stores depend on (trimming, and the UTF-8 round trip that encryption performs).
 */
module JsStrings {
  type CodeUnit = x: int | 0 <= x < 0x1_0000

  type JsString = seq<CodeUnit>

  const REPLACEMENT: CodeUnit := 0xFFFD

  predicate IsHigh(u: CodeUnit) { 0xD800 <= u <= 0xDBFF }
  predicate IsLow(u: CodeUnit) { 0xDC00 <= u <= 0xDFFF }

  /** No surrogate stands alone. */
  predicate WellFormed(s: JsString)
  {
    if s == [] then true
    else if IsHigh(s[0]) then |s| > 1 && IsLow(s[1]) && WellFormed(s[2..])
    else !IsLow(s[0]) && WellFormed(s[1..])
  }

  /** What encoding as UTF-8 and decoding again returns: every lone surrogate is replaced. */
  function Utf8RoundTrip(s: JsString): (r: JsString)
    ensures |r| == |s|
  {
    if s == [] then []
    else if IsHigh(s[0]) && |s| > 1 && IsLow(s[1]) then s[..2] + Utf8RoundTrip(s[2..])
    else if IsHigh(s[0]) || IsLow(s[0]) then [REPLACEMENT] + Utf8RoundTrip(s[1..])
    else [s[0]] + Utf8RoundTrip(s[1..])
  }

  lemma {:induction false} RoundTripIsWellFormed(s: JsString)
    ensures WellFormed(Utf8RoundTrip(s))
  {
    if s != [] {
      var r := Utf8RoundTrip(s);
      if IsHigh(s[0]) && |s| > 1 && IsLow(s[1]) {
        RoundTripIsWellFormed(s[2..]);
        assert r[0] == s[0] && r[1] == s[1] && r[2..] == Utf8RoundTrip(s[2..]);
      } else {
        RoundTripIsWellFormed(s[1..]);
        assert r[1..] == Utf8RoundTrip(s[1..]);
      }
    }
  }

  /** The UTF-8 round trip is the identity on exactly the well-formed strings. */
  lemma {:induction false} RoundTripIdentity(s: JsString)
    ensures Utf8RoundTrip(s) == s <==> WellFormed(s)
  {
    if s != [] {
      var r := Utf8RoundTrip(s);
      if IsHigh(s[0]) && |s| > 1 && IsLow(s[1]) {
        RoundTripIdentity(s[2..]);
        assert r[2..] == Utf8RoundTrip(s[2..]);
        assert s == s[..2] + s[2..];
      } else {
        RoundTripIdentity(s[1..]);
        assert r[1..] == Utf8RoundTrip(s[1..]);
        assert s == [s[0]] + s[1..];
      }
    }
  }

  /** The white space and line terminators that `trim` removes. */
  predicate IsWhiteSpace(u: CodeUnit)
  {
    0x09 <= u <= 0x0D || u == 0x20 || u == 0xA0 || u == 0x1680 || 0x2000 <= u <= 0x200A
    || u == 0x2028 || u == 0x2029 || u == 0x202F || u == 0x205F || u == 0x3000 || u == 0xFEFF
  }

  function TrimStart(s: JsString): JsString
  {
    if s != [] && IsWhiteSpace(s[0]) then TrimStart(s[1..]) else s
  }

  function TrimEnd(s: JsString): JsString
  {
    if s != [] && IsWhiteSpace(s[|s| - 1]) then TrimEnd(s[..|s| - 1]) else s
  }

  function Trim(s: JsString): JsString { TrimEnd(TrimStart(s)) }
}
