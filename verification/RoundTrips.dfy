/** Round trips between the encoding forms, and the triangles that commute. */
module RoundTrips {
  import opened Unicode
  import opened ConvertUtfSpec
  import opened Machines
  import opened Transcoding

  // ------------------------------------------------------------------ reading what was written

  lemma LegalHead(src: seq<int>, n: nat)
    requires n <= |src| && WellFormed8(src[..n])
    ensures TrailingBytes(src[0]) == n - 1 && IsLegalUTF8(src, n)
  {
  }

  /** The UTF-8 form of a scalar value is read back as that value, whatever follows it. */
  lemma Reads8(v: int, rest: seq<int>)
    requires IsScalar(v)
    ensures Front8(Encode8(v) + rest) == Char(|Encode8(v)|, v)
  {
    var s := Encode8(v);
    var src := s + rest;
    assert src[..|s|] == s;
    EncodeDecode8(v);
    LegalHead(src, |s|);
    LegalValue(src, |s| - 1);
  }

  /** The UTF-16 form of a scalar value is read back as that value, whatever follows it. */
  lemma Reads16(flags: ConversionFlags, v: int, rest: seq<int>)
    requires IsScalar(v)
    ensures Front16(flags, Encode16(v) + rest) == Char(|Encode16(v)|, v)
  {
  }

  // ------------------------------------------------------------------ well-formed text

  /** What a converter passes on: scalar values, and from UTF-32 to UTF-8 under lenient flags surrogates too. */
  predicate Convertible(flags: ConversionFlags, v: int) {
    IsCodePoint(v) && (flags.StrictConversion? ==> IsScalar(v))
  }

  predicate AllConvertible(flags: ConversionFlags, text: seq<int>) {
    forall i :: 0 <= i < |text| ==> Convertible(flags, text[i])
  }

  /** The trail of a converter that reads each character of a text and writes it in the other form. */
  function Steps(text: seq<int>, from: Form, to: Form): Trail {
    if text == [] then Done else More(|Encode(from, text[0])|, Encode(to, text[0]), false, Steps(text[1..], from, to))
  }

  lemma {:induction false} StepsRun(text: seq<int>, from: Form, to: Form, roomFirst: bool, room: nat)
    requires room >= |EncodeAll(to, text)|
    ensures Run(Steps(text, from, to), roomFirst, room, ConversionOK)
      == Outcome(ConversionOK, |EncodeAll(from, text)|, EncodeAll(to, text))
  {
    if text != [] {
      StepsRun(text[1..], from, to, roomFirst, room - |Encode(to, text[0])|);
    }
  }

  /** A converter that does this with one character, whatever follows, does it with all of them. */
  lemma {:induction false} StepsTrail(m: Machine, from: Form, to: Form, flags: ConversionFlags, text: seq<int>)
    requires Progresses(m) && AllConvertible(flags, text)
    requires forall v, rest | Convertible(flags, v) ::
      m.turn(Encode(from, v) + rest) == Take(|Encode(from, v)|, Encode(to, v), false)
    ensures TrailOf(m, EncodeAll(from, text)) == Steps(text, from, to)
  {
    if text != [] {
      var head, tail := Encode(from, text[0]), EncodeAll(from, text[1..]);
      assert m.turn(head + tail) == Take(|head|, Encode(to, text[0]), false);
      StepsTrail(m, from, to, flags, text[1..]);
      assert (head + tail)[|head|..] == tail;
    }
  }

  lemma Turns8(to: Form, flags: ConversionFlags, v: int, rest: seq<int>)
    requires to != Utf8 && IsScalar(v)
    ensures MachineOf(Utf8, to, flags).turn(Encode(Utf8, v) + rest) == Take(|Encode(Utf8, v)|, Encode(to, v), false)
  {
    Reads8(v, rest);
  }

  lemma Turns16(to: Form, flags: ConversionFlags, v: int, rest: seq<int>)
    requires to != Utf16 && IsScalar(v)
    ensures MachineOf(Utf16, to, flags).turn(Encode(Utf16, v) + rest) == Take(|Encode(Utf16, v)|, Encode(to, v), false)
  {
    Reads16(flags, v, rest);
  }

  lemma Turns32(to: Form, flags: ConversionFlags, v: int, rest: seq<int>)
    requires to != Utf32 && Convertible(flags, v) && (to.Utf16? ==> IsScalar(v))
    ensures MachineOf(Utf32, to, flags).turn(Encode(Utf32, v) + rest) == Take(|Encode(Utf32, v)|, Encode(to, v), false)
  {
  }

  /** Every converter takes a well-formed text completely and writes the same text in the other form, under either
      flag, as soon as the target is just big enough. */
  lemma Transcodes(from: Form, to: Form, flags: ConversionFlags, text: seq<int>, room: nat)
    requires from != to && AllScalars(text) && room >= |EncodeAll(to, text)|
    ensures Convert(MachineOf(from, to, flags), EncodeAll(from, text), room)
      == Outcome(ConversionOK, |EncodeAll(from, text)|, EncodeAll(to, text))
  {
    var m := MachineOf(from, to, flags);
    forall v, rest | Convertible(StrictConversion, v)
      ensures m.turn(Encode(from, v) + rest) == Take(|Encode(from, v)|, Encode(to, v), false)
    {
      match from
      case Utf8 => Turns8(to, flags, v, rest);
      case Utf16 => Turns16(to, flags, v, rest);
      case Utf32 => Turns32(to, flags, v, rest);
    }
    StepsTrail(m, from, to, StrictConversion, text);
    StepsRun(text, from, to, m.roomFirst, room);
  }

  /** Lenient conversion from UTF-32 to UTF-8 passes surrogate code points on as well. */
  lemma To8(flags: ConversionFlags, text: seq<int>, room: nat)
    requires AllConvertible(flags, text) && room >= |EncodeAll(Utf8, text)|
    ensures Convert(From32to8(flags), text, room) == Outcome(ConversionOK, |text|, EncodeAll(Utf8, text))
  {
    var m := From32to8(flags);
    forall v, rest | Convertible(flags, v)
      ensures m.turn(Encode(Utf32, v) + rest) == Take(|Encode(Utf32, v)|, Encode(Utf8, v), false)
    {
      Turns32(Utf8, flags, v, rest);
    }
    StepsTrail(m, Utf32, Utf8, flags, text);
    StepsRun(text, Utf32, Utf8, false, room);
    Encode32(text);
  }

  lemma {:induction false} Encode32(text: seq<int>)
    ensures EncodeAll(Utf32, text) == text
  {
    if text != [] { Encode32(text[1..]); }
  }

  /** Any text of scalar values survives a round trip through any two forms, under any flags, in targets that are
      just big enough; from UTF-32 to UTF-8 or UTF-16 and back in particular. */
  lemma RoundTrip(a: Form, b: Form, there: ConversionFlags, back: ConversionFlags, text: seq<int>, roomB: nat,
                  roomA: nat)
    requires a != b && AllScalars(text) && roomB >= |EncodeAll(b, text)| && roomA >= |EncodeAll(a, text)|
    ensures var src := EncodeAll(a, text);
      var mid := Convert(MachineOf(a, b, there), src, roomB);
      && mid.result == ConversionOK && mid.used == |src|
      && Convert(MachineOf(b, a, back), mid.out, roomA) == Outcome(ConversionOK, |mid.out|, src)
  {
    Transcodes(a, b, there, text, roomB);
    Transcodes(b, a, back, text, roomA);
  }

  /** Section 4 of RFC 3629: a byte sequence made of well-formed characters, each as long as its first byte says. */
  predicate WellFormedText(bytes: seq<int>) {
    bytes == [] ||
    var n := if bytes[0] < 0xC0 then 1 else if bytes[0] < 0xE0 then 2 else if bytes[0] < 0xF0 then 3 else 4;
    n <= |bytes| && WellFormed8(bytes[..n]) && WellFormedText(bytes[n..])
  }

  lemma {:induction false} WellFormedIsEncoded(bytes: seq<int>) returns (text: seq<int>)
    requires WellFormedText(bytes)
    ensures AllScalars(text) && EncodeAll(Utf8, text) == bytes
    ensures |EncodeAll(Utf16, text)| <= |bytes| && |EncodeAll(Utf32, text)| <= |bytes|
    decreases |bytes|
  {
    if bytes == [] {
      text := [];
    } else {
      var n := if bytes[0] < 0xC0 then 1 else if bytes[0] < 0xE0 then 2 else if bytes[0] < 0xF0 then 3 else 4;
      DecodeEncode8(bytes[..n]);
      var tail := WellFormedIsEncoded(bytes[n..]);
      var v := Decode8(bytes[..n]);
      text := [v] + tail;
      assert text[1..] == tail;
      assert bytes == bytes[..n] + bytes[n..];
    }
  }

  /** Well-formed UTF-8 survives the way to UTF-32 or UTF-16 and back, under any flags. */
  lemma RoundTrip8(b: Form, there: ConversionFlags, back: ConversionFlags, bytes: seq<int>, roomB: nat, room8: nat)
    requires b != Utf8 && WellFormedText(bytes) && roomB >= |bytes| && room8 >= |bytes|
    ensures var mid := Convert(MachineOf(Utf8, b, there), bytes, roomB);
      && mid.result == ConversionOK && mid.used == |bytes|
      && Convert(MachineOf(b, Utf8, back), mid.out, room8) == Outcome(ConversionOK, |mid.out|, bytes)
  {
    var text := WellFormedIsEncoded(bytes);
    RoundTrip(Utf8, b, there, back, text, roomB, room8);
  }

  // ------------------------------------------------------------------ triangles

  /** A trail of single characters, each of them good for the given flags. */
  predicate OfCharacters(t: Trail, flags: ConversionFlags) {
    t.More? ==> !t.bad && t.used >= 1 && |t.units| == 1 && Convertible(flags, t.units[0]) && OfCharacters(t.next, flags)
  }

  /** The same trail, with each character written in another form. */
  function Recode(t: Trail, form: Form): Trail
    requires OfCharacters(t, StrictConversion) || OfCharacters(t, LenientConversion)
  {
    if t.More? then More(t.used, Encode(form, t.units[0]), false, Recode(t.next, form)) else t
  }

  /** The result on a trail, from the result on the rest of it. */
  lemma RecodeTurn(t: Trail, flags: ConversionFlags, form: Form, room32: nat, room: nat, o: Outcome, all: Outcome)
    requires t.More? && OfCharacters(t, flags) && |Encode(form, t.units[0])| <= room && room32 >= 1
    requires o == Run(t.next, false, room32 - 1, ConversionOK) && all == Run(t, false, room32, ConversionOK)
    requires AllConvertible(flags, o.out) && |EncodeAll(form, o.out)| <= room - |Encode(form, t.units[0])|
    requires Run(Recode(t.next, form), false, room - |Encode(form, t.units[0])|, ConversionOK)
          == Outcome(o.result, o.used, EncodeAll(form, o.out))
    ensures AllConvertible(flags, all.out) && |EncodeAll(form, all.out)| <= room
    ensures Run(Recode(t, form), false, room, ConversionOK) == Outcome(all.result, all.used, EncodeAll(form, all.out))
  {
    assert t.units == [t.units[0]] && all.out == [t.units[0]] + o.out && all.out[1..] == o.out;
  }

  lemma {:induction false} RecodeRuns(t: Trail, flags: ConversionFlags, form: Form, room32: nat, room: nat, k: nat)
    requires OfCharacters(t, flags) && Proper(t)
    requires room32 >= Length(t) && room >= k * Length(t)
    requires k >= (match form case Utf8 => 4 case Utf16 => 2 case Utf32 => 1)
    ensures var o := Run(t, false, room32, ConversionOK);
      && AllConvertible(flags, o.out) && |EncodeAll(form, o.out)| <= room
      && Run(Recode(t, form), false, room, ConversionOK) == Outcome(o.result, o.used, EncodeAll(form, o.out))
  {
    if t.More? {
      var units := Encode(form, t.units[0]);
      Multiples(k, t.used, Length(t.next));
      RecodeRuns(t.next, flags, form, room32 - 1, room - |units|, k);
      RecodeTurn(t, flags, form, room32, room, Run(t.next, false, room32 - 1, ConversionOK),
                 Run(t, false, room32, ConversionOK));
    }
  }

  lemma {:induction false} Trails8(flags: ConversionFlags, flags': ConversionFlags, src: seq<int>)
    requires NonNegative(src)
    ensures var t := TrailOf(From8to32(flags), src);
      OfCharacters(t, flags') && TrailOf(From8to16(flags), src) == Recode(t, Utf16)
    decreases |src|
  {
    if src != [] && Front8(src).Char? {
      LegalIsScalar(src);
      Trails8(flags, flags', src[Front8(src).used..]);
    }
  }

  lemma {:induction false} Trails16(flags: ConversionFlags, src: seq<int>)
    requires InForm(Utf16, src)
    ensures var t := TrailOf(From16to32(flags), src);
      OfCharacters(t, flags) && TrailOf(From16to8(flags), src) == Recode(t, Utf8)
    decreases |src|
  {
    if src != [] && Front16(flags, src).Char? {
      Front16Range(flags, src);
      Trails16(flags, src[Front16(flags, src).used..]);
    }
  }

  lemma Front16Range(flags: ConversionFlags, src: seq<int>)
    requires InForm(Utf16, src) && src != [] && Front16(flags, src).Char?
    ensures Convertible(flags, Front16(flags, src).ch)
  {
  }

  /** UTF-8 to UTF-16 is UTF-8 to UTF-32 to UTF-16, on every input: the same part of the source is used, the same
      units come out, for the same reason. What the first step writes, the second step takes completely. */
  lemma Triangle8(flags: ConversionFlags, flags': ConversionFlags, src: seq<int>, room32: nat, room16: nat)
    requires NonNegative(src) && room32 >= |src| && room16 >= 2 * |src|
    ensures var first := Convert(From8to32(flags), src, room32);
      var second := Convert(From32to16(flags'), first.out, room16);
      && second.result == ConversionOK && second.used == |first.out|
      && Convert(From8to16(flags), src, room16) == Outcome(first.result, first.used, second.out)
  {
    Sound8(Utf32, flags);
    SoundTrail(From8to32(flags), src, 4);
    Trails8(flags, StrictConversion, src);
    RecodeRuns(TrailOf(From8to32(flags), src), StrictConversion, Utf16, room32, room16, 2);
    var text := Convert(From8to32(flags), src, room32).out;
    Encode32(text);
    Transcodes(Utf32, Utf16, flags', text, room16);
  }

  /** UTF-16 to UTF-8 is UTF-16 to UTF-32 to UTF-8 under the same flags, on every input. */
  lemma Triangle16(flags: ConversionFlags, src: seq<int>, room32: nat, room8: nat)
    requires InForm(Utf16, src) && room32 >= |src| && room8 >= 4 * |src|
    ensures var first := Convert(From16to32(flags), src, room32);
      var second := Convert(From32to8(flags), first.out, room8);
      && second.result == ConversionOK && second.used == |first.out|
      && Convert(From16to8(flags), src, room8) == Outcome(first.result, first.used, second.out)
  {
    Sound16(Utf32, flags);
    SoundTrail(From16to32(flags), src, 4);
    Trails16(flags, src);
    RecodeRuns(TrailOf(From16to32(flags), src), flags, Utf8, room32, room8, 4);
    To8(flags, Convert(From16to32(flags), src, room32).out, room8);
  }
}
