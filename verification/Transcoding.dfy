/** What the six converters promise about Unicode text. */
module Transcoding {
  import opened Unicode
  import opened ConvertUtfSpec
  import opened Machines

  // ------------------------------------------------------------------ the legality check

  /** The two families isLegalUTF8 lets through although Table 3-7 does not have them: on the rows ED and F4
      it does not ask that the second byte be a continuation byte. */
  predicate Tolerated(s: seq<int>) {
    || (|s| == 3 && s[0] == 0xED && 0 <= s[1] < 0x80 && Continuation(s[2]))
    || (|s| == 4 && s[0] == 0xF4 && 0 <= s[1] < 0x80 && Continuation(s[2]) && Continuation(s[3]))
  }

  /** What a tolerated sequence is read as: the sum that its row of Table 3-6 would give. */
  function ToleratedValue(s: seq<int>): int
    requires Tolerated(s)
  {
    if |s| == 3 then Sum3(s[0], s[1], s[2]) else Sum4(s[0], s[1], s[2], s[3])
  }

  /** Exactly what isLegalUTF8Sequence accepts at the front of a buffer of bytes. */
  lemma LegalSet(src: seq<int>)
    requires src != [] && NonNegative(src)
    ensures var length := TrailingBytes(src[0]) + 1;
      IsLegalUTF8Sequence(src) <==> length <= |src| && (WellFormed8(src[..length]) || Tolerated(src[..length]))
  {
  }

  /** The unsubtracted table of the standard and the magic offsets agree on well-formed sequences. */
  lemma MagicDecodes(src: seq<int>)
    requires src != [] && NonNegative(src) && Front8(src).Char?
    ensures var s := src[..Front8(src).used];
      && (WellFormed8(s) ==> Front8(src).ch == Decode8(s))
      && (Tolerated(s) ==> Front8(src).ch == ToleratedValue(s))
    ensures WellFormed8(src[..Front8(src).used]) || Tolerated(src[..Front8(src).used])
  {
    LegalValue(src, TrailingBytes(src[0]));
    LegalSet(src);
  }

  /** Since every accepted sequence is a scalar value, the flags make no difference to what is read from UTF-8:
      the strict and the lenient conversion are the same on every input. */
  lemma {:induction false} FlagsDoNotMatter8(src: seq<int>)
    requires NonNegative(src)
    ensures TrailOf(From8to16(StrictConversion), src) == TrailOf(From8to16(LenientConversion), src)
    ensures TrailOf(From8to32(StrictConversion), src) == TrailOf(From8to32(LenientConversion), src)
    decreases |src|
  {
    if src != [] && Front8(src).Char? {
      LegalIsScalar(src);
      FlagsDoNotMatter8(src[Front8(src).used..]);
    }
  }

  lemma StrictIsLenient8(src: seq<int>, room: nat)
    requires NonNegative(src)
    ensures Convert(From8to16(StrictConversion), src, room) == Convert(From8to16(LenientConversion), src, room)
    ensures Convert(From8to32(StrictConversion), src, room) == Convert(From8to32(LenientConversion), src, room)
  {
    FlagsDoNotMatter8(src);
  }

  // ------------------------------------------------------------------ the six converters together

  function MachineOf(from: Form, to: Form, flags: ConversionFlags): (m: Machine)
    requires from != to
    ensures Progresses(m)
  {
    match (from, to)
    case (Utf32, Utf16) => From32to16(flags)
    case (Utf32, Utf8) => From32to8(flags)
    case (Utf16, Utf32) => From16to32(flags)
    case (Utf16, Utf8) => From16to8(flags)
    case (Utf8, Utf16) => From8to16(flags)
    case (Utf8, Utf32) => From8to32(flags)
  }

  /** The units of a buffer are those of its form. */
  predicate InForm(form: Form, src: seq<int>) {
    forall i :: 0 <= i < |src| ==>
      0 <= src[i] <= (match form case Utf8 => 0xFF case Utf16 => 0xFFFF case Utf32 => 0xFFFF_FFFF)
  }

  /** The text one character of the source stands for. It is one code point, except that the strict converter from
      UTF-32 to UTF-16 drops what is above the range. UTF-16 units stand for the code points they encode, with an
      unpaired surrogate standing for itself. */
  predicate Denotes(from: Form, to: Form, flags: ConversionFlags, seg: seq<int>, text: seq<int>) {
    match from
    case Utf8 => |text| == 1 && IsScalar(text[0])
      && (if Tolerated(seg) then text[0] == ToleratedValue(seg) else WellFormed8(seg) && Decode8(seg) == text[0])
    case Utf16 => |text| == 1 && IsCodePoint(text[0]) && seg == Encode16(text[0])
      && (flags.StrictConversion? ==> IsScalar(text[0]))
    case Utf32 =>
      |seg| == 1 &&
      if IsScalar(seg[0]) then text == seg
      else if IsSurrogate(seg[0]) then flags.LenientConversion?
        && text == (if to.Utf16? then [REPLACEMENT_CHAR] else seg)
      else if to.Utf16? && flags.StrictConversion? then text == []
      else text == [REPLACEMENT_CHAR]
  }

  /** One turn writes the encoding of the text that the units it takes stand for. */
  ghost predicate TurnDenotes(from: Form, to: Form, flags: ConversionFlags, src: seq<int>, turn: Turn, text: seq<int>) {
    turn.Take? ==>
      1 <= turn.used <= |src| && Denotes(from, to, flags, src[..turn.used], text) && turn.units == EncodeAll(to, text)
  }

  function Meaning(from: Form, to: Form, flags: ConversionFlags, src: seq<int>): seq<int> {
    if src == [] then []
    else
      match from
      case Utf8 => if Front8(src).Char? then [Front8(src).ch] else []
      case Utf16 => if Front16(flags, src).Char? then [Front16(flags, src).ch] else []
      case Utf32 =>
        if IsScalar(src[0]) then [src[0]]
        else if IsSurrogate(src[0]) && to.Utf8? then [src[0]]
        else if !IsSurrogate(src[0]) && to.Utf16? && flags.StrictConversion? then []
        else [REPLACEMENT_CHAR]
  }

  lemma Turn8Denotes(to: Form, flags: ConversionFlags, src: seq<int>)
    requires to != Utf8 && InForm(Utf8, src) && src != []
    ensures TurnDenotes(Utf8, to, flags, src, if to.Utf16? then Turn8to16(flags, src)
                        else Turn8to32(flags, src), Meaning(Utf8, to, flags, src))
  {
    if Front8(src).Char? {
      LegalIsScalar(src);
      MagicDecodes(src);
      EncodeOne(to, Front8(src).ch);
    }
  }

  lemma Turn16Denotes(to: Form, flags: ConversionFlags, src: seq<int>)
    requires to != Utf16 && InForm(Utf16, src) && src != []
    ensures TurnDenotes(Utf16, to, flags, src, if to.Utf8? then Turn16to8(flags, src)
                        else Turn16to32(flags, src), Meaning(Utf16, to, flags, src))
  {
    var f := Front16(flags, src);
    if f.Char? {
      EncodeOne(to, f.ch);
    }
  }

  lemma Turn32Denotes(to: Form, flags: ConversionFlags, src: seq<int>)
    requires to != Utf32 && InForm(Utf32, src) && src != []
    ensures TurnDenotes(Utf32, to, flags, src, if to.Utf8? then Turn32to8(flags, src)
                        else Turn32to16(flags, src), Meaning(Utf32, to, flags, src))
  {
    var text := Meaning(Utf32, to, flags, src);
    if text != [] { EncodeOne(to, text[0]); }
  }

  lemma AnyTurnDenotes(from: Form, to: Form, flags: ConversionFlags, src: seq<int>)
    requires from != to && InForm(from, src) && src != []
    ensures TurnDenotes(from, to, flags, src, MachineOf(from, to, flags).turn(src), Meaning(from, to, flags, src))
  {
    match from
    case Utf8 => Turn8Denotes(to, flags, src);
    case Utf16 => Turn16Denotes(to, flags, src);
    case Utf32 => Turn32Denotes(to, flags, src);
  }

  lemma EncodeOne(form: Form, ch: int)
    ensures EncodeAll(form, [ch]) == Encode(form, ch)
  {
    assert [ch][1..] == [];
  }

  /** The text that the characters at these places stand for. */
  function TextAt(from: Form, to: Form, flags: ConversionFlags, places: seq<seq<int>>): seq<int> {
    if places == [] then [] else Meaning(from, to, flags, places[0]) + TextAt(from, to, flags, places[1..])
  }

  lemma {:induction false} UnitsEncodeText(from: Form, to: Form, flags: ConversionFlags, m: Machine,
                                           places: seq<seq<int>>)
    requires AllTake(m, places)
    requires forall i :: 0 <= i < |places| ==>
      m.turn(places[i]).units == EncodeAll(to, Meaning(from, to, flags, places[i]))
    ensures Units(m, places) == EncodeAll(to, TextAt(from, to, flags, places))
  {
    if places != [] {
      UnitsEncodeText(from, to, flags, m, places[1..]);
      EncodeAllConcat(to, Meaning(from, to, flags, places[0]), TextAt(from, to, flags, places[1..]));
    }
  }

  /** Every exit of every converter (end of source, source exhausted, target exhausted, illegal): the source prefix
      that was used is a sequence of whole characters, and the written units are exactly the encoding of the text
      that these characters stand for. */
  lemma ExitTranscribes(from: Form, to: Form, flags: ConversionFlags, src: seq<int>, room: nat)
    returns (places: seq<seq<int>>)
    requires from != to && InForm(from, src)
    ensures var m := MachineOf(from, to, flags);
      var o := Convert(m, src, room);
      && o.used <= |src| && |o.out| <= room
      && AllTake(m, places) && Taken(m, places) == src[..o.used]
      && o.out == EncodeAll(to, TextAt(from, to, flags, places))
    ensures var m := MachineOf(from, to, flags);
      forall i :: 0 <= i < |places| ==>
        Denotes(from, to, flags, places[i][..m.turn(places[i]).used], Meaning(from, to, flags, places[i]))
  {
    var m := MachineOf(from, to, flags);
    var n := Convert(m, src, room).used;
    ConvertExits(from, to, flags, src, room);
    places := Places(m, src, n);
    CutPlaces(m, src, n);
    forall i | 0 <= i < |places|
      ensures TurnDenotes(from, to, flags, places[i], m.turn(places[i]), Meaning(from, to, flags, places[i]))
    {
      assert Suffix(places[i], src);
      AnyTurnDenotes(from, to, flags, places[i]);
    }
    UnitsEncodeText(from, to, flags, m, places);
  }

  /** The exits of Machines.Exits, for a call of one of the six. */
  lemma ConvertExits(from: Form, to: Form, flags: ConversionFlags, src: seq<int>, room: nat)
    requires from != to
    ensures var m := MachineOf(from, to, flags);
      var t := TrailOf(m, src);
      var o := Convert(m, src, room);
      && Cut(t, o.used) && o.used <= |src|
      && o.out == Written(t, o.used)
      && Drop(t, o.used) == TrailOf(m, src[o.used..])
      && Exit(TrailOf(m, src[o.used..]), m.roomFirst, room - |o.out|, SoFar(Flagged(t, o.used), ConversionOK), o.result)
  {
    var m := MachineOf(from, to, flags);
    MachineSound(from, to, flags);
    SoundTrail(m, src, 4);
    Exits(TrailOf(m, src), m.roomFirst, room, ConversionOK);
    DropSource(m, src, Convert(m, src, room).used);
  }

  lemma MachineSound(from: Form, to: Form, flags: ConversionFlags)
    requires from != to
    ensures Sound(MachineOf(from, to, flags), 4)
  {
    match from
    case Utf8 => Sound8(to, flags);
    case Utf16 => Sound16(to, flags);
    case Utf32 => Sound32(to, flags);
  }

  lemma Sound8(to: Form, flags: ConversionFlags)
    requires to != Utf8
    ensures Sound(MachineOf(Utf8, to, flags), 2)
    ensures Sound(MachineOf(Utf8, to, flags), 4)
  {
    var m := MachineOf(Utf8, to, flags);
    forall src ensures SoundTurn(m.turn(src), 2) {
      SoundTurn8(to, flags, src);
    }
    SoundMore(m, 2, 4);
  }

  lemma SoundTurn8(to: Form, flags: ConversionFlags, src: seq<int>)
    requires to != Utf8
    ensures SoundTurn(MachineOf(Utf8, to, flags).turn(src), 2)
  {
  }

  lemma SoundMore(m: Machine, k: nat, more: nat)
    requires Sound(m, k) && k <= more
    ensures Sound(m, more)
  {
    forall src ensures SoundTurn(m.turn(src), more) {
      assert SoundTurn(m.turn(src), k);
    }
  }

  lemma Sound16(to: Form, flags: ConversionFlags)
    requires to != Utf16
    ensures Sound(MachineOf(Utf16, to, flags), 4)
  {
    var m := MachineOf(Utf16, to, flags);
    forall src ensures SoundTurn(m.turn(src), 4) {
      SoundTurn16(to, flags, src);
    }
  }

  lemma SoundTurn16(to: Form, flags: ConversionFlags, src: seq<int>)
    requires to != Utf16
    ensures SoundTurn(MachineOf(Utf16, to, flags).turn(src), 4)
  {
  }

  lemma Sound32(to: Form, flags: ConversionFlags)
    requires to != Utf32
    ensures Sound(MachineOf(Utf32, to, flags), 4)
  {
    var m := MachineOf(Utf32, to, flags);
    forall src ensures SoundTurn(m.turn(src), 4) {
      SoundTurn32(to, flags, src);
    }
  }

  lemma SoundTurn32(to: Form, flags: ConversionFlags, src: seq<int>)
    requires to != Utf32
    ensures SoundTurn(MachineOf(Utf32, to, flags).turn(src), 4)
  {
  }

  /** A place inside a surrogate pair. */
  predicate InsidePair(src: seq<int>, n: nat) {
    0 < n < |src| && IsHighSurrogate(src[n - 1]) && IsLowSurrogate(src[n])
  }

  lemma {:induction false} CutKeepsPairs(m: Machine, src: seq<int>, n: nat)
    requires Progresses(m) && Cut(TrailOf(m, src), n)
    requires forall s :: m.turn(s).Take? ==> !InsidePair(s, m.turn(s).used)
    ensures !InsidePair(src, n)
    decreases |src|
  {
    if n > 0 {
      var used := m.turn(src).used;
      assert !InsidePair(src, used);
      CutKeepsPairs(m, src[used..], n - used);
    }
  }

  lemma Front16KeepsPairs(flags: ConversionFlags, src: seq<int>)
    requires src != [] && Front16(flags, src).Char?
    ensures !InsidePair(src, Front16(flags, src).used)
  {
  }

  lemma Turn16KeepsPairs(to: Form, flags: ConversionFlags, src: seq<int>)
    requires to != Utf16 && MachineOf(Utf16, to, flags).turn(src).Take?
    ensures !InsidePair(src, MachineOf(Utf16, to, flags).turn(src).used)
  {
    Front16KeepsPairs(flags, src);
  }

  /** Neither converter from UTF-16 ever leaves its source pointer inside a surrogate pair. */
  lemma PairsStayWhole(to: Form, flags: ConversionFlags, src: seq<int>, room: nat)
    requires to != Utf16
    ensures !InsidePair(src, Convert(MachineOf(Utf16, to, flags), src, room).used)
  {
    var m := MachineOf(Utf16, to, flags);
    ConvertExits(Utf16, to, flags, src, room);
    forall s | m.turn(s).Take? ensures !InsidePair(s, m.turn(s).used) {
      Turn16KeepsPairs(to, flags, s);
    }
    CutKeepsPairs(m, src, Convert(m, src, room).used);
  }
}
