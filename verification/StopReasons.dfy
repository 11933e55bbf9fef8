/** What each of the four results of a converter says about the source, in numbers and by the tables of the standard. */
module StopReasons {
  import opened Unicode
  import opened ConvertUtfSpec
  import opened Machines
  import opened Transcoding
  import opened Resuming
  import opened ResumingUtf32

  /** What is left of the source when a call returns. */
  function Rest(from: Form, to: Form, flags: ConversionFlags, src: seq<int>, room: nat): seq<int>
    requires from != to
  {
    var used := Convert(MachineOf(from, to, flags), src, room).used;
    if used <= |src| then src[used..] else []
  }

  /** The room that is left then. */
  function Left(from: Form, to: Form, flags: ConversionFlags, src: seq<int>, room: nat): int
    requires from != to
  {
    room - |Convert(MachineOf(from, to, flags), src, room).out|
  }

  lemma RestExit(from: Form, to: Form, flags: ConversionFlags, src: seq<int>, room: nat)
    requires from != to && InForm(from, src)
    ensures var m := MachineOf(from, to, flags);
      var t, o, rest := TrailOf(m, src), Convert(m, src, room), Rest(from, to, flags, src, room);
      && o.used <= |src| && rest == src[o.used..] && InForm(from, rest) && Cut(t, o.used)
      && 0 <= Left(from, to, flags, src, room)
      && Exit(TrailOf(m, rest), m.roomFirst, Left(from, to, flags, src, room), SoFar(Flagged(t, o.used), ConversionOK),
              o.result)
  {
    ConvertExits(from, to, flags, src, room);
    var used := Convert(MachineOf(from, to, flags), src, room).used;
    assert forall i :: 0 <= i < |src[used..]| ==> src[used..][i] == src[used + i];
  }

  /** The converters from UTF-8 and UTF-16 look at the source first, and nothing is flagged on the way. */
  lemma PlainExit(from: Form, to: Form, flags: ConversionFlags, src: seq<int>, room: nat)
    requires from != to && from != Utf32 && InForm(from, src)
    ensures var m := MachineOf(from, to, flags);
      var rest, result := Rest(from, to, flags, src, room), Convert(m, src, room).result;
      && InForm(from, rest) && (result == ConversionOK <==> rest == [])
      && (rest != [] ==>
          match m.turn(rest)
          case Stop(why) => result == why
          case Take(_, units, _) => result == TargetExhausted && Left(from, to, flags, src, room) < |units|)
  {
    var m := MachineOf(from, to, flags);
    RestExit(from, to, flags, src, room);
    CleanTrail(from, to, flags, src);
    CleanCut(TrailOf(m, src), Convert(m, src, room).used);
    if Rest(from, to, flags, src, room) != [] {
      MachineSound(from, to, flags);
      assert SoundTurn(m.turn(Rest(from, to, flags, src, room)), 4);
    }
  }

  // ------------------------------------------------------------------ from UTF-8

  /** How many bytes a first byte says that there are, by its leading ones. */
  function Announced(b: int): nat {
    if b < 0xC0 then 1 else if b < 0xE0 then 2 else if b < 0xF0 then 3
    else if b < 0xF8 then 4 else if b < 0xFC then 5 else 6
  }

  predicate Readable(s: seq<int>) {
    WellFormed8(s) || Tolerated(s)
  }

  function ReadAs(s: seq<int>): int
    requires Readable(s)
  {
    if Tolerated(s) then ToleratedValue(s) else Decode8(s)
  }

  lemma Front8Is(src: seq<int>)
    requires src != [] && InForm(Utf8, src)
    ensures var n, f := Announced(src[0]), Front8(src);
      if |src| < n then f == Bad(SourceExhausted)
      else if Readable(src[..n]) then f == Char(n, ReadAs(src[..n]))
      else f == Bad(SourceIllegal)
  {
    LegalSet(src);
    if Front8(src).Char? {
      MagicDecodes(src);
    }
  }

  lemma Turn8Is(to: Form, flags: ConversionFlags, src: seq<int>)
    requires to != Utf8 && src != [] && InForm(Utf8, src)
    ensures var n, turn := Announced(src[0]), MachineOf(Utf8, to, flags).turn(src);
      if |src| < n then turn == Stop(SourceExhausted)
      else if Readable(src[..n]) then turn == Take(n, Encode(to, ReadAs(src[..n])), false)
      else turn == Stop(SourceIllegal)
  {
    Front8Is(src);
    if Front8(src).Char? {
      LegalIsScalar(src);
    }
  }

  /** A call from UTF-8 has read everything, or the source ends inside the character that its next byte announces, or
      that character is there and neither well-formed nor tolerated, or it is and there is no room for what it is
      written as; and the result is OK, SourceExhausted, SourceIllegal and TargetExhausted in that order. */
  lemma Why8(to: Form, flags: ConversionFlags, src: seq<int>, room: nat)
    requires to != Utf8 && InForm(Utf8, src)
    ensures var rest := Rest(Utf8, to, flags, src, room);
      var result := Convert(MachineOf(Utf8, to, flags), src, room).result;
      && (result == ConversionOK <==> rest == [])
      && (result == SourceExhausted <==> rest != [] && |rest| < Announced(rest[0]))
      && (result == SourceIllegal <==>
          rest != [] && Announced(rest[0]) <= |rest| && !Readable(rest[..Announced(rest[0])]))
      && (result == TargetExhausted <==>
          && rest != [] && Announced(rest[0]) <= |rest| && Readable(rest[..Announced(rest[0])])
          && Left(Utf8, to, flags, src, room) < |Encode(to, ReadAs(rest[..Announced(rest[0])]))|)
  {
    PlainExit(Utf8, to, flags, src, room);
    var rest := Rest(Utf8, to, flags, src, room);
    if rest != [] {
      Turn8Is(to, flags, rest);
    }
  }

  // ------------------------------------------------------------------ from UTF-16

  predicate High(v: int) {
    0xD800 <= v <= 0xDBFF
  }

  predicate Low(v: int) {
    0xDC00 <= v <= 0xDFFF
  }

  /** The source ends inside a pair. */
  predicate HalfPair(src: seq<int>) {
    |src| == 1 && High(src[0])
  }

  /** A surrogate stands in front that is not one of a pair, and not perhaps one of a pair that goes on behind the
      end. */
  predicate Unpaired(src: seq<int>) {
    src != [] && (Low(src[0]) || (High(src[0]) && |src| > 1 && !Low(src[1])))
  }

  /** The code point in front: that of a pair, or the unit itself. */
  function FirstOf(src: seq<int>): int
    requires src != []
  {
    if |src| > 1 && High(src[0]) && Low(src[1]) then 0x10000 + (src[0] - 0xD800) * 0x400 + (src[1] - 0xDC00) else src[0]
  }

  lemma Turn16Is(to: Form, flags: ConversionFlags, src: seq<int>)
    requires to != Utf16 && src != [] && InForm(Utf16, src)
    ensures var turn := MachineOf(Utf16, to, flags).turn(src);
      if HalfPair(src) then turn == Stop(SourceExhausted)
      else if flags.StrictConversion? && Unpaired(src) then turn == Stop(SourceIllegal)
      else turn == Take(if FirstOf(src) >= 0x10000 then 2 else 1, Encode(to, FirstOf(src)), false)
  {
  }

  /** A call from UTF-16 has read everything, or a lone high surrogate is left, or the strict converter has met an
      unpaired surrogate, or there is no room for the next code point. */
  lemma Why16(to: Form, flags: ConversionFlags, src: seq<int>, room: nat)
    requires to != Utf16 && InForm(Utf16, src)
    ensures var rest := Rest(Utf16, to, flags, src, room);
      var result := Convert(MachineOf(Utf16, to, flags), src, room).result;
      && (result == ConversionOK <==> rest == [])
      && (result == SourceExhausted <==> HalfPair(rest))
      && (result == SourceIllegal <==> flags.StrictConversion? && Unpaired(rest))
      && (result == TargetExhausted <==>
          && rest != [] && !HalfPair(rest) && !(flags.StrictConversion? && Unpaired(rest))
          && Left(Utf16, to, flags, src, room) < |Encode(to, FirstOf(rest))|)
  {
    PlainExit(Utf16, to, flags, src, room);
    var rest := Rest(Utf16, to, flags, src, room);
    if rest != [] {
      Turn16Is(to, flags, rest);
    }
  }

  // ------------------------------------------------------------------ from UTF-32

  /** What a character is written as: one above the range is replaced, or dropped by the strict converter to UTF-16, and
      the lenient converter to UTF-16 replaces surrogates. */
  function Units32(to: Form, flags: ConversionFlags, v: int): seq<int> {
    if v > 0x10FFFF then if to.Utf16? && flags.StrictConversion? then [] else Encode(to, 0xFFFD)
    else if to.Utf16? && 0xD800 <= v <= 0xDFFF then [0xFFFD]
    else Encode(to, v)
  }

  /** The strict converters stop at a surrogate. */
  predicate Forbidden(flags: ConversionFlags, v: int) {
    flags.StrictConversion? && 0xD800 <= v <= 0xDFFF
  }

  lemma Turn32Is(to: Form, flags: ConversionFlags, src: seq<int>)
    requires to != Utf32 && src != [] && InForm(Utf32, src)
    ensures var turn := MachineOf(Utf32, to, flags).turn(src);
      if Forbidden(flags, src[0]) then turn == Stop(SourceIllegal)
      else turn == Take(1, Units32(to, flags, src[0]), src[0] > 0x10FFFF && (to.Utf8? || flags.StrictConversion?))
  {
  }

  /** A character has gone by that makes the result illegal without stopping the call. */
  predicate TooHigh(to: Form, flags: ConversionFlags, taken: seq<int>) {
    (to.Utf8? || flags.StrictConversion?) && exists i :: 0 <= i < |taken| && taken[i] > 0x10FFFF
  }

  /** No room: the converter to UTF-16 wants room for a unit before it looks at anything. */
  predicate NoRoom(to: Form, flags: ConversionFlags, v: int, left: int) {
    (to.Utf16? && left == 0) || (!Forbidden(flags, v) && left < |Units32(to, flags, v)|)
  }

  /** A call from UTF-32 is never exhausted by its source. It ends without room for the next character, or at a
      surrogate that the strict converter forbids, or at the end; and there the result says whether a character above
      the range has gone by. */
  lemma Why32(to: Form, flags: ConversionFlags, src: seq<int>, room: nat)
    requires to != Utf32 && InForm(Utf32, src)
    ensures var rest, left := Rest(Utf32, to, flags, src, room), Left(Utf32, to, flags, src, room);
      var o := Convert(MachineOf(Utf32, to, flags), src, room);
      && o.used <= |src|
      && (o.result == ConversionOK <==> rest == [] && !TooHigh(to, flags, src))
      && o.result != SourceExhausted
      && (o.result == SourceIllegal <==>
          if rest == [] then TooHigh(to, flags, src)
          else Forbidden(flags, rest[0]) && !NoRoom(to, flags, rest[0], left))
      && (o.result == TargetExhausted <==> rest != [] && NoRoom(to, flags, rest[0], left))
  {
    var m := MachineOf(Utf32, to, flags);
    var used, rest := Convert(m, src, room).used, Rest(Utf32, to, flags, src, room);
    RestExit(Utf32, to, flags, src, room);
    Followed(to, flags, src);
    CutIs(to, flags, src, TrailOf(m, src), used);
    if rest == [] {
      assert src[..used] == src;
      FlaggedIs(to, flags, src);
    } else {
      Turn32Is(to, flags, rest);
    }
  }

  lemma FlaggedIs(to: Form, flags: ConversionFlags, src: seq<int>)
    requires to != Utf32
    ensures AnyFlagged(to, flags, src) <==> TooHigh(to, flags, src)
  {
    if TooHigh(to, flags, src) {
      var i :| 0 <= i < |src| && src[i] > 0x10FFFF;
      assert Flags(to, flags, src[i]);
    }
  }

  // ------------------------------------------------------------------ the inputs that tell the results apart

  lemma ReplacementInUnits()
    ensures Encode(Utf16, 0xFFFD) == [0xFFFD] && Encode(Utf8, 0xFFFD) == [0xEF, 0xBF, 0xBD]
  {
  }

  /** The front of a three-byte character that has been cut, and a trailing byte without a first one. */
  lemma CutAndStray(to: Form, flags: ConversionFlags)
    requires to != Utf8
    ensures Convert(MachineOf(Utf8, to, flags), [0xE2, 0x82], 9).result == SourceExhausted
    ensures Convert(MachineOf(Utf8, to, flags), [0x80], 9).result == SourceIllegal
  {
    Turn8Is(to, flags, [0xE2, 0x82]);
    Turn8Is(to, flags, [0x80]);
  }
}
