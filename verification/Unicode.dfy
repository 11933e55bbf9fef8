/** The encoding forms of the Unicode Standard, section 3.9, written from the standard's tables
    and not from the converters. Code units and code points are natural numbers, and the bit patterns of the
    tables are written with division and remainder by powers of two. */
module Unicode {
  type UTF32 = x: nat | x <= 0xFFFF_FFFF
  type UTF16 = x: nat | x <= 0xFFFF
  type UTF8 = x: nat | x <= 0xFF

  datatype Form = Utf8 | Utf16 | Utf32

  const REPLACEMENT_CHAR := 0xFFFD

  predicate IsHighSurrogate(v: int) {
    0xD800 <= v <= 0xDBFF
  }

  predicate IsLowSurrogate(v: int) {
    0xDC00 <= v <= 0xDFFF
  }

  predicate IsSurrogate(v: int) {
    0xD800 <= v <= 0xDFFF
  }

  predicate IsCodePoint(v: int) {
    0 <= v <= 0x10FFFF
  }

  /** Definition D76: a Unicode scalar value. */
  predicate IsScalar(v: int) {
    IsCodePoint(v) && !IsSurrogate(v)
  }

  predicate AllScalars(text: seq<int>) {
    forall i :: 0 <= i < |text| ==> IsScalar(text[i])
  }

  // The payload bits of a code point that go into a trailing byte, and the lead bytes of Table 3-6.

  function Trail(v: int): (b: int)
    ensures Continuation(b)
  {
    0x80 + v % 0x40
  }

  function Lead2(v: int): int {
    0xC0 + v / 0x40
  }

  function Lead3(v: int): int {
    0xE0 + v / 0x40 / 0x40
  }

  function Lead4(v: int): int {
    0xF0 + v / 0x40 / 0x40 / 0x40
  }

  /** Table 3-6, extended to the surrogate code points in the obvious way. */
  function Encode8(v: int): (bytes: seq<int>)
    ensures 1 <= |bytes| <= 4
  {
    if v < 0x80 then [v]
    else if v < 0x800 then [Lead2(v), Trail(v)]
    else if v < 0x10000 then [Lead3(v), Trail(v / 0x40), Trail(v)]
    else [Lead4(v), Trail(v / 0x40 / 0x40), Trail(v / 0x40), Trail(v)]
  }

  /** Table 3-5. A surrogate code point stands for itself as one unit. */
  function Encode16(v: int): (units: seq<int>)
    ensures 1 <= |units| <= 2
  {
    if v <= 0xFFFF then [v]
    else [0xD800 + (v - 0x10000) / 0x400, 0xDC00 + v % 0x400]
  }

  function Encode(form: Form, v: int): (units: seq<int>)
    ensures 1 <= |units| <= 4
    ensures form.Utf16? ==> |units| <= 2
    ensures form.Utf32? ==> |units| == 1
  {
    match form
    case Utf8 => Encode8(v)
    case Utf16 => Encode16(v)
    case Utf32 => [v]
  }

  /** The encoding of a text is the concatenation of the encodings of its characters. */
  function EncodeAll(form: Form, text: seq<int>): seq<int>
  {
    if text == [] then [] else Encode(form, text[0]) + EncodeAll(form, text[1..])
  }

  predicate Continuation(b: int) {
    0x80 <= b <= 0xBF
  }

  // Table 3-7, by the length of the sequence.

  predicate WellFormed2(a: int, b: int) {
    0xC2 <= a <= 0xDF && Continuation(b)
  }

  predicate WellFormed3(a: int, b: int, c: int) {
    && 0xE0 <= a <= 0xEF && Continuation(b) && Continuation(c)
    && (a == 0xE0 ==> 0xA0 <= b)
    && (a == 0xED ==> b <= 0x9F)
  }

  predicate WellFormed4(a: int, b: int, c: int, d: int) {
    && 0xF0 <= a <= 0xF4 && Continuation(b) && Continuation(c) && Continuation(d)
    && (a == 0xF0 ==> 0x90 <= b)
    && (a == 0xF4 ==> b <= 0x8F)
  }

  /** Table 3-7: the byte sequences that are the UTF-8 form of one scalar value. */
  predicate WellFormed8(s: seq<int>) {
    || (|s| == 1 && 0 <= s[0] <= 0x7F)
    || (|s| == 2 && WellFormed2(s[0], s[1]))
    || (|s| == 3 && WellFormed3(s[0], s[1], s[2]))
    || (|s| == 4 && WellFormed4(s[0], s[1], s[2], s[3]))
  }

  // The payload bits of Table 3-6 put together, by the length of the sequence.

  function Join2(a: int, b: int): int
    requires WellFormed2(a, b)
  {
    (a - 0xC0) * 0x40 + (b - 0x80)
  }

  function Join3(a: int, b: int, c: int): int
    requires WellFormed3(a, b, c)
  {
    ((a - 0xE0) * 0x40 + (b - 0x80)) * 0x40 + (c - 0x80)
  }

  function Join4(a: int, b: int, c: int, d: int): int
    requires WellFormed4(a, b, c, d)
  {
    (((a - 0xF0) * 0x40 + (b - 0x80)) * 0x40 + (c - 0x80)) * 0x40 + (d - 0x80)
  }

  /** The scalar value a well-formed sequence stands for. */
  function Decode8(s: seq<int>): int
    requires WellFormed8(s)
  {
    if |s| == 1 then s[0]
    else if |s| == 2 then Join2(s[0], s[1])
    else if |s| == 3 then Join3(s[0], s[1], s[2])
    else Join4(s[0], s[1], s[2], s[3])
  }

  lemma Sextet(q: int, r: int)
    requires 0 <= r < 0x40
    ensures (q * 0x40 + r) / 0x40 == q && (q * 0x40 + r) % 0x40 == r
  {
  }

  // The two tables are inverse to each other, one row at a time.

  lemma Row2(v: int)
    requires 0x80 <= v <= 0x7FF
    ensures WellFormed2(Lead2(v), Trail(v)) && Join2(Lead2(v), Trail(v)) == v
  {
  }

  lemma Row3(v: int)
    requires 0x800 <= v <= 0xFFFF && !IsSurrogate(v)
    ensures WellFormed3(Lead3(v), Trail(v / 0x40), Trail(v)) && Join3(Lead3(v), Trail(v / 0x40), Trail(v)) == v
  {
  }

  lemma Row4(v: int)
    requires 0x10000 <= v <= 0x10FFFF
    ensures WellFormed4(Lead4(v), Trail(v / 0x40 / 0x40), Trail(v / 0x40), Trail(v))
    ensures Join4(Lead4(v), Trail(v / 0x40 / 0x40), Trail(v / 0x40), Trail(v)) == v
  {
  }

  lemma UnRow2(a: int, b: int)
    requires WellFormed2(a, b)
    ensures 0x80 <= Join2(a, b) <= 0x7FF && Lead2(Join2(a, b)) == a && Trail(Join2(a, b)) == b
  {
  }

  lemma UnRow3(a: int, b: int, c: int)
    requires WellFormed3(a, b, c)
    ensures var v := Join3(a, b, c);
      0x800 <= v <= 0xFFFF && !IsSurrogate(v) && Lead3(v) == a && Trail(v / 0x40) == b && Trail(v) == c
  {
    Sextet((a - 0xE0) * 0x40 + (b - 0x80), c - 0x80);
    Sextet(a - 0xE0, b - 0x80);
  }

  lemma UnRow4(a: int, b: int, c: int, d: int)
    requires WellFormed4(a, b, c, d)
    ensures var v := Join4(a, b, c, d);
      0x10000 <= v <= 0x10FFFF && Lead4(v) == a && Trail(v / 0x40 / 0x40) == b && Trail(v / 0x40) == c && Trail(v) == d
  {
    Sextet(((a - 0xF0) * 0x40 + (b - 0x80)) * 0x40 + (c - 0x80), d - 0x80);
    Sextet((a - 0xF0) * 0x40 + (b - 0x80), c - 0x80);
    Sextet(a - 0xF0, b - 0x80);
  }

  /** Definition D92: encoding gives a well-formed sequence, and decoding it gives the scalar back. */
  lemma EncodeDecode8(v: int)
    requires IsScalar(v)
    ensures WellFormed8(Encode8(v)) && Decode8(Encode8(v)) == v
  {
    if v < 0x80 {
    } else if v < 0x800 {
      Row2(v);
    } else if v < 0x10000 {
      Row3(v);
    } else {
      Row4(v);
    }
  }

  /** And the other way round: each well-formed sequence is the encoding of the scalar it decodes to. */
  lemma DecodeEncode8(s: seq<int>)
    requires WellFormed8(s)
    ensures IsScalar(Decode8(s)) && Encode8(Decode8(s)) == s
  {
    if |s| == 2 {
      UnRow2(s[0], s[1]);
    } else if |s| == 3 {
      UnRow3(s[0], s[1], s[2]);
    } else if |s| == 4 {
      UnRow4(s[0], s[1], s[2], s[3]);
    }
  }

  /** A surrogate code point is written in the three bytes that a scalar value in its place would have, which are not
      well-formed. */
  lemma SurrogateBytes(v: int)
    requires 0xD800 <= v <= 0xDFFF
    ensures var s := Encode8(v);
      && |s| == 3 && s[0] == 0xED && 0xA0 <= s[1] <= 0xBF && 0x80 <= s[2] <= 0xBF && !WellFormed8(s)
      && ((s[0] - 0xE0) * 0x40 + (s[1] - 0x80)) * 0x40 + (s[2] - 0x80) == v
  {
  }

  lemma {:induction false} EncodeAllConcat(form: Form, a: seq<int>, b: seq<int>)
    ensures EncodeAll(form, a + b) == EncodeAll(form, a) + EncodeAll(form, b)
  {
    if a == [] {
      assert a + b == b;
    } else {
      assert (a + b)[1..] == a[1..] + b;
      EncodeAllConcat(form, a[1..], b);
    }
  }
}
