/** The tables and decisions of ConvertUTF.cc as functions: what one call of a converter does. */
module ConvertUtfSpec {
  import opened Unicode

  datatype ConversionResult = ConversionOK | SourceExhausted | TargetExhausted | SourceIllegal

  datatype ConversionFlags = StrictConversion | LenientConversion

  // ------------------------------------------------------------------ tables

  /** The table trailingBytesForUTF8, by ranges of the first byte. */
  function TrailingBytes(b: int): (n: nat)
    ensures n <= 5
  {
    if b < 0xC0 then 0 else if b < 0xE0 then 1 else if b < 0xF0 then 2
    else if b < 0xF8 then 3 else if b < 0xFC then 4 else 5
  }

  /** The table offsetsFromUTF8, for the lengths that pass the legality check. */
  function OffsetFromUTF8(extra: nat): int
    requires extra <= 3
  {
    if extra == 0 then 0 else if extra == 1 then 0x3080 else if extra == 2 then 0xE2080 else 0x03C82080
  }

  /** The table firstByteMark, for one to four bytes. */
  function FirstByteMark(n: nat): int
    requires 1 <= n <= 4
  {
    if n == 1 then 0 else if n == 2 then 0xC0 else if n == 3 then 0xE0 else 0xF0
  }

  // ------------------------------------------------------------------ isLegalUTF8

  /** The inner switch on the first byte, which looks at the second one. On the rows ED and F4 it checks
      the upper bound only. */
  predicate SecondByteOk(a: int, b: int) {
    if a == 0xE0 then 0xA0 <= b
    else if a == 0xED then b <= 0x9F
    else if a == 0xF0 then 0x90 <= b
    else if a == 0xF4 then b <= 0x8F
    else 0x80 <= b
  }

  /** isLegalUTF8: the cases fall through from the given length down to 1. */
  predicate IsLegalUTF8(src: seq<int>, length: nat)
    requires 1 <= length
    requires length <= 4 ==> length <= |src|
  {
    && length <= 4
    && (length >= 4 ==> 0x80 <= src[3] <= 0xBF)
    && (length >= 3 ==> 0x80 <= src[2] <= 0xBF)
    && (length >= 2 ==> src[1] <= 0xBF && SecondByteOk(src[0], src[1]))
    && (src[0] < 0x80 || 0xC2 <= src[0])
    && src[0] <= 0xF4
  }

  /** isLegalUTF8Sequence. The source reads the first byte of an empty range; that read is the caller's duty. */
  predicate IsLegalUTF8Sequence(src: seq<int>)
    requires src != []
  {
    var length := TrailingBytes(src[0]) + 1;
    length <= |src| && IsLegalUTF8(src, length)
  }

  /** Unsigned 32-bit arithmetic wraps around. */
  function Wrap(x: int): UTF32 {
    if 0 <= x <= 0xFFFF_FFFF then x else x % 0x1_0000_0000
  }

  /** What the fall-through reading switch makes of ch from index i on, entered at the case for `extra` trailing
      bytes. */
  function Accumulate(src: seq<int>, i: nat, ch: int, extra: nat): int
    requires i + extra < |src|
    decreases extra
  {
    if extra == 0 then Wrap(ch + src[i])
    else Accumulate(src, i + 1, Wrap(Wrap(ch + src[i]) * 0x40), extra - 1)
  }

  /** The character that a sequence is read as: the offset takes away all the marker bits at once. */
  function Magic(src: seq<int>, extra: nat): int
    requires extra <= 3 && extra < |src|
  {
    Wrap(Accumulate(src, 0, 0, extra) - OffsetFromUTF8(extra))
  }

  // ------------------------------------------------------------------ one turn of a loop

  /** One turn of a converter's loop: it stops where it is, or it takes some source units and has some target
      units to write. `bad` says that the final result becomes SourceIllegal although the loop goes on. */
  datatype Turn = Stop(why: ConversionResult) | Take(used: nat, units: seq<int>, bad: bool)

  function Turn32to16(flags: ConversionFlags, src: seq<int>): Turn
    requires src != []
  {
    var ch := src[0];
    if ch <= 0xFFFF then
      if !IsSurrogate(ch) then Take(1, [ch], false)
      else if flags.StrictConversion? then Stop(SourceIllegal)
      else Take(1, [REPLACEMENT_CHAR], false)
    else if ch <= 0x10FFFF then Take(1, Encode16(ch), false)
    else if flags.StrictConversion? then Take(1, [], true)
    else Take(1, [REPLACEMENT_CHAR], false)
  }

  function Turn32to8(flags: ConversionFlags, src: seq<int>): Turn
    requires src != []
  {
    var ch := src[0];
    if flags.StrictConversion? && IsSurrogate(ch) then Stop(SourceIllegal)
    else if ch <= 0x10FFFF then Take(1, Encode8(ch), false)
    else Take(1, Encode8(REPLACEMENT_CHAR), true)
  }

  /** The code point of a surrogate pair, section 2.2 of RFC 2781. */
  function Pair(high: int, low: int): (v: int)
    requires IsHighSurrogate(high) && IsLowSurrogate(low)
    ensures 0x10000 <= v <= 0x10FFFF && Encode16(v) == [high, low]
  {
    (high - 0xD800) * 0x400 + (low - 0xDC00) + 0x10000
  }

  /** The front of a UTF-16 source: a pair, one unit, or a reason to stop. Both converters from UTF-16 start
      their loop with the same decision. */
  datatype Front = Bad(why: ConversionResult) | Char(used: nat, ch: int)

  function Front16(flags: ConversionFlags, src: seq<int>): (f: Front)
    requires src != []
    ensures f.Char? ==> 1 <= f.used <= |src|
  {
    var ch := src[0];
    if IsHighSurrogate(ch) then
      if |src| < 2 then Bad(SourceExhausted)
      else if IsLowSurrogate(src[1]) then Char(2, Pair(ch, src[1]))
      else if flags.StrictConversion? then Bad(SourceIllegal)
      else Char(1, ch)
    else if flags.StrictConversion? && IsLowSurrogate(ch) then Bad(SourceIllegal)
    else Char(1, ch)
  }

  function Turn16to32(flags: ConversionFlags, src: seq<int>): Turn
    requires src != []
  {
    match Front16(flags, src)
    case Bad(why) => Stop(why)
    case Char(used, ch) => Take(used, [ch], false)
  }

  function Turn16to8(flags: ConversionFlags, src: seq<int>): Turn
    requires src != []
  {
    match Front16(flags, src)
    case Bad(why) => Stop(why)
    case Char(used, ch) => Take(used, Encode8(ch), false)
  }

  /** The front of a UTF-8 source, which both converters from UTF-8 find in the same way. */
  function Front8(src: seq<int>): (f: Front)
    requires src != []
    ensures f.Char? ==> 1 <= f.used <= |src|
  {
    var extra := TrailingBytes(src[0]);
    if extra >= |src| then Bad(SourceExhausted)
    else if !IsLegalUTF8(src, extra + 1) then Bad(SourceIllegal)
    else Char(extra + 1, Magic(src, extra))
  }

  /** The units of the source are unsigned. */
  predicate NonNegative(src: seq<int>) {
    forall i :: 0 <= i < |src| ==> 0 <= src[i]
  }

  /** Every sequence the legality check accepts is read, without 32-bit wrap, as a scalar value. */
  lemma LegalIsScalar(src: seq<int>)
    requires src != [] && Front8(src).Char? && NonNegative(src)
    ensures IsScalar(Front8(src).ch)
  {
    LegalValue(src, TrailingBytes(src[0]));
  }

  /** The value that is read, written out: no addition, shift or subtraction wraps around. */
  lemma LegalValue(src: seq<int>, extra: nat)
    requires src != [] && extra == TrailingBytes(src[0]) < |src| && IsLegalUTF8(src, extra + 1)
    requires NonNegative(src[..extra + 1])
    ensures extra == 0 ==> Magic(src, 0) == src[0] <= 0x7F
    ensures extra == 1 ==> Magic(src, 1) == Sum2(src[0], src[1]) && 0x80 <= Magic(src, 1) <= 0x7FF
    ensures extra == 2 ==>
      Magic(src, 2) == Sum3(src[0], src[1], src[2]) && 0x800 <= Magic(src, 2) <= 0xFFFF && !IsSurrogate(Magic(src, 2))
    ensures extra == 3 ==> Magic(src, 3) == Sum4(src[0], src[1], src[2], src[3]) && 0x10000 <= Magic(src, 3) <= 0x10FFFF
  {
    assert forall i :: 0 <= i <= extra ==> src[..extra + 1][i] == src[i];
    if extra == 1 {
      Accumulated(src, 0, 0, 1, src[0]);
      Accumulated(src, 1, src[0] * 0x40, 0, src[0] * 0x40 + src[1]);
    } else if extra == 2 {
      LegalValue3(src);
    } else if extra == 3 {
      LegalValue4(src);
    }
  }

  lemma LegalValue3(src: seq<int>)
    requires |src| >= 3 && TrailingBytes(src[0]) == 2 && IsLegalUTF8(src, 3) && 0 <= src[1]
    ensures Magic(src, 2) == Sum3(src[0], src[1], src[2]) && 0x800 <= Magic(src, 2) <= 0xFFFF
    ensures !IsSurrogate(Magic(src, 2))
  {
    var a := src[0];
    var b := a * 0x40 + src[1];
    var c := b * 0x40 + src[2];
    Accumulated(src, 0, 0, 2, a);
    Accumulated(src, 1, a * 0x40, 1, b);
    Accumulated(src, 2, b * 0x40, 0, c);
  }

  lemma LegalValue4(src: seq<int>)
    requires |src| >= 4 && TrailingBytes(src[0]) == 3 && IsLegalUTF8(src, 4) && 0 <= src[1]
    ensures Magic(src, 3) == Sum4(src[0], src[1], src[2], src[3]) && 0x10000 <= Magic(src, 3) <= 0x10FFFF
  {
    var a := src[0];
    var b := a * 0x40 + src[1];
    var c := b * 0x40 + src[2];
    var d := c * 0x40 + src[3];
    Accumulated(src, 0, 0, 3, a);
    Accumulated(src, 1, a * 0x40, 2, b);
    Accumulated(src, 2, b * 0x40, 1, c);
    Accumulated(src, 3, c * 0x40, 0, d);
  }

  /** A step of the reading switch that stays within 32 bits. */
  lemma Accumulated(src: seq<int>, i: nat, ch: int, extra: nat, sum: int)
    requires i + extra < |src| && sum == ch + src[i]
    requires 0 <= sum
    requires sum < 0x400_0000 || (extra == 0 && sum < 0x1_0000_0000)
    ensures extra == 0 ==> Accumulate(src, i, ch, extra) == sum
    ensures extra > 0 ==> Accumulate(src, i, ch, extra) == Accumulate(src, i + 1, sum * 0x40, extra - 1)
  {
  }

  function Sum2(a: int, b: int): int {
    (a - 0xC0) * 0x40 + (b - 0x80)
  }

  function Sum3(a: int, b: int, c: int): int {
    ((a - 0xE0) * 0x40 + (b - 0x80)) * 0x40 + (c - 0x80)
  }

  function Sum4(a: int, b: int, c: int, d: int): int {
    (((a - 0xF0) * 0x40 + (b - 0x80)) * 0x40 + (c - 0x80)) * 0x40 + (d - 0x80)
  }

  function Turn8to16(flags: ConversionFlags, src: seq<int>): Turn
    requires src != []
  {
    match Front8(src)
    case Bad(why) => Stop(why)
    case Char(used, ch) =>
      if ch <= 0xFFFF then
        if !IsSurrogate(ch) then Take(used, [ch], false)
        else if flags.StrictConversion? then Stop(SourceIllegal)
        else Take(used, [REPLACEMENT_CHAR], false)
      else if ch <= 0x10FFFF then Take(used, Encode16(ch), false)
      else if flags.StrictConversion? then Stop(SourceIllegal)
      else Take(used, [REPLACEMENT_CHAR], false)
  }

  function Turn8to32(flags: ConversionFlags, src: seq<int>): Turn
    requires src != []
  {
    match Front8(src)
    case Bad(why) => Stop(why)
    case Char(used, ch) =>
      if ch <= 0x10FFFF then
        if !IsSurrogate(ch) then Take(used, [ch], false)
        else if flags.StrictConversion? then Stop(SourceIllegal)
        else Take(used, [REPLACEMENT_CHAR], false)
      else Take(used, [REPLACEMENT_CHAR], true)
  }

  // ------------------------------------------------------------------ a whole call

  /** A converter as the theorems see it: its turns, and whether it looks at the room before it looks at the
      character, which only the converter from UTF-32 to UTF-16 does. */
  datatype Machine = Machine(turn: seq<int> -> Turn, roomFirst: bool)

  ghost predicate Progresses(m: Machine) {
    forall src :: m.turn(src).Take? ==> 1 <= m.turn(src).used <= |src|
  }

  function From32to16(flags: ConversionFlags): (m: Machine)
    ensures Progresses(m)
  {
    Machine(src => if src == [] then Stop(SourceExhausted) else Turn32to16(flags, src), true)
  }

  function From32to8(flags: ConversionFlags): (m: Machine)
    ensures Progresses(m)
  {
    Machine(src => if src == [] then Stop(SourceExhausted) else Turn32to8(flags, src), false)
  }

  function From16to32(flags: ConversionFlags): (m: Machine)
    ensures Progresses(m)
  {
    Machine(src => if src == [] then Stop(SourceExhausted) else Turn16to32(flags, src), false)
  }

  function From16to8(flags: ConversionFlags): (m: Machine)
    ensures Progresses(m)
  {
    Machine(src => if src == [] then Stop(SourceExhausted) else Turn16to8(flags, src), false)
  }

  function From8to16(flags: ConversionFlags): (m: Machine)
    ensures Progresses(m)
  {
    Machine(src => if src == [] then Stop(SourceExhausted) else Turn8to16(flags, src), false)
  }

  function From8to32(flags: ConversionFlags): (m: Machine)
    ensures Progresses(m)
  {
    Machine(src => if src == [] then Stop(SourceExhausted) else Turn8to32(flags, src), false)
  }

  /** The turns a converter takes on a source, up to the end or to where it stops. */
  datatype Trail = Done | Halt(why: ConversionResult) | More(used: nat, units: seq<int>, bad: bool, next: Trail)

  function TrailOf(m: Machine, src: seq<int>): (t: Trail)
    requires Progresses(m)
    decreases |src|
  {
    if src == [] then Done
    else
      match m.turn(src)
      case Stop(why) => Halt(why)
      case Take(used, units, bad) => More(used, units, bad, TrailOf(m, src[used..]))
  }

  /** What a call returns: its result, how many source units it used and which target units it wrote. */
  datatype Outcome = Outcome(result: ConversionResult, used: nat, out: seq<int>)

  /** Walks along a trail as far as `room` target units allow. `sofar` is the result at the end of the trail. */
  function Run(t: Trail, roomFirst: bool, room: nat, sofar: ConversionResult): (o: Outcome)
    ensures |o.out| <= room
  {
    if t.Done? then Outcome(sofar, 0, [])
    else if roomFirst && room == 0 then Outcome(TargetExhausted, 0, [])
    else if t.Halt? then Outcome(t.why, 0, [])
    else if |t.units| > room then Outcome(TargetExhausted, 0, [])
    else Prepend(t.used, t.units, Run(t.next, roomFirst, room - |t.units|, if t.bad then SourceIllegal else sofar))
  }

  function Prepend(used: nat, out: seq<int>, o: Outcome): Outcome {
    Outcome(o.result, used + o.used, out + o.out)
  }

  /** One call of a converter on a source window with room for `room` target units. */
  function Convert(m: Machine, src: seq<int>, room: nat): (o: Outcome)
    requires Progresses(m)
  {
    Run(TrailOf(m, src), m.roomFirst, room, ConversionOK)
  }
}
