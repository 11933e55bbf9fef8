/** The six converters of ConvertUTF.cc as loops over a source and a target buffer. A pointer is an index, and
    the four pointer arguments of the source give a window of each buffer. */
module ConvertUtf {
  import opened BitFacts
  import opened Unicode
  import opened ConvertUtfSpec

  // ------------------------------------------------------------------ how a loop refines Convert

  /** What one pass of a loop body does with the turn it is given. `stop` is a break; `result` is the local
      variable of the source, which keeps SourceIllegal once it has it. */
  ghost predicate Passed(turn: Turn, roomFirst: bool, s: nat, s': nat, t: nat, t': nat, tEnd: nat,
                         sofar: ConversionResult, result: ConversionResult, stop: bool, now: seq<int>, next: seq<int>)
    requires t <= tEnd
  {
    if roomFirst && t == tEnd then
      stop && result == TargetExhausted && s' == s && t' == t && next == now
    else if turn.Stop? then
      stop && result == turn.why && s' == s && t' == t && next == now
    else if |turn.units| > tEnd - t then
      stop && result == TargetExhausted && s' == s && t' == t && next == now
    else
      && !stop && s' == s + turn.used && t' == t + |turn.units|
      && result == (if turn.bad then SourceIllegal else sofar)
      && Overwritten(now, next, t, turn.units)
  }

  ghost predicate Overwritten(now: seq<int>, next: seq<int>, t: nat, units: seq<int>) {
    && |next| == |now|
    && forall i :: 0 <= i < |next| ==> next[i] == if t <= i < t + |units| then units[i - t] else now[i]
  }

  /** The target held `before` and holds `now`: `out` has been written at t0, and nothing else has changed. */
  ghost predicate Wrote(before: seq<int>, now: seq<int>, t0: nat, t: nat, out: seq<int>) {
    t0 <= t == t0 + |out| <= |before| && now == before[..t0] + out + before[t..]
  }

  lemma WroteMore(before: seq<int>, now: seq<int>, next: seq<int>, t0: nat, t: nat, out: seq<int>, units: seq<int>)
    requires Wrote(before, now, t0, t, out) && t + |units| <= |before|
    requires Overwritten(now, next, t, units)
    ensures Wrote(before, next, t0, t + |units|, out + units)
  {
  }

  /** The source units in [s0, s) gave `out`, and the rest of the call is a call on what is left. */
  ghost predicate Progress(m: Machine, source: seq<int>, s0: nat, s: nat, end: nat,
                           room0: nat, room: nat, sofar: ConversionResult, out: seq<int>)
    requires Progresses(m)
  {
    && s0 <= s <= end <= |source|
    && Convert(m, source[s0..end], room0)
      == Prepend(s - s0, out, Run(TrailOf(m, source[s..end]), m.roomFirst, room, sofar))
  }

  lemma Advance(m: Machine, source: seq<int>, s0: nat, s: nat, s': nat, end: nat, room0: nat, room: nat, room': nat,
                sofar: ConversionResult, result: ConversionResult, out: seq<int>, turn: Turn)
    requires Progresses(m)
    requires Progress(m, source, s0, s, end, room0, room, sofar, out) && s < end
    requires turn == m.turn(source[s..end]) && turn.Take? && room' + |turn.units| == room
    requires s' == s + turn.used && result == if turn.bad then SourceIllegal else sofar
    requires !(m.roomFirst && room == 0)
    ensures Progress(m, source, s0, s', end, room0, room', result, out + turn.units)
  {
    assert source[s..end][turn.used..] == source[s'..end];
    var rest := Run(TrailOf(m, source[s'..end]), m.roomFirst, room', result);
    assert out + (turn.units + rest.out) == out + turn.units + rest.out;
  }

  /** A loop in the middle of a call. */
  ghost predicate Midway(m: Machine, source: seq<int>, s0: nat, s: nat, end: nat, before: seq<int>, now: seq<int>,
                         t0: nat, t: nat, tEnd: nat, sofar: ConversionResult, out: seq<int>)
    requires Progresses(m)
  {
    && t0 <= t <= tEnd <= |before|
    && Wrote(before, now, t0, t, out)
    && Progress(m, source, s0, s, end, tEnd - t0, tEnd - t, sofar, out)
  }

  /** What a call promises: the result and the pointers are those of the specification, and the target has changed
      only where the output is. */
  ghost predicate Finished(m: Machine, source: seq<int>, s0: nat, s: nat, end: nat, before: seq<int>, now: seq<int>,
                           t0: nat, t: nat, tEnd: nat, result: ConversionResult)
    requires Progresses(m)
  {
    && s0 <= s <= end <= |source| && t0 <= t <= tEnd
    && var o := Convert(m, source[s0..end], tEnd - t0);
    && result == o.result && s == s0 + o.used && Wrote(before, now, t0, t, o.out)
  }

  lemma Start(m: Machine, source: seq<int>, s0: nat, end: nat, before: seq<int>, t0: nat, tEnd: nat)
    requires Progresses(m) && s0 <= end <= |source| && t0 <= tEnd <= |before|
    ensures Midway(m, source, s0, s0, end, before, before, t0, t0, tEnd, ConversionOK, [])
  {
    var o := Convert(m, source[s0..end], tEnd - t0);
    assert [] + o.out == o.out;
  }

  /** A pass that does not stop keeps the loop midway. */
  lemma Goes(m: Machine, source: seq<int>, s0: nat, s: nat, s': nat, end: nat, before: seq<int>, now: seq<int>,
             next: seq<int>, t0: nat, t: nat, t': nat, tEnd: nat, sofar: ConversionResult, result: ConversionResult,
             out: seq<int>, turn: Turn)
    requires Progresses(m)
    requires Midway(m, source, s0, s, end, before, now, t0, t, tEnd, sofar, out) && s < end
    requires turn == m.turn(source[s..end])
    requires Passed(turn, m.roomFirst, s, s', t, t', tEnd, sofar, result, false, now, next)
    ensures turn.Take? && Midway(m, source, s0, s', end, before, next, t0, t', tEnd, result, out + turn.units)
  {
    PassedOn(turn, m.roomFirst, s, s', t, t', tEnd, sofar, result, now, next);
    Advance(m, source, s0, s, s', end, tEnd - t0, tEnd - t, tEnd - t', sofar, result, out, turn);
    WroteMore(before, now, next, t0, t, out, turn.units);
  }

  lemma PassedOn(turn: Turn, roomFirst: bool, s: nat, s': nat, t: nat, t': nat, tEnd: nat,
                 sofar: ConversionResult, result: ConversionResult, now: seq<int>, next: seq<int>)
    requires t <= tEnd && Passed(turn, roomFirst, s, s', t, t', tEnd, sofar, result, false, now, next)
    ensures turn.Take? && s' == s + turn.used && t' == t + |turn.units| <= tEnd && !(roomFirst && t == tEnd)
    ensures result == if turn.bad then SourceIllegal else sofar
    ensures Overwritten(now, next, t, turn.units)
  {
  }

  /** A pass that stops finishes the call. */
  lemma Stops(m: Machine, source: seq<int>, s0: nat, s: nat, s': nat, end: nat, before: seq<int>, now: seq<int>,
              next: seq<int>, t0: nat, t: nat, t': nat, tEnd: nat, sofar: ConversionResult, result: ConversionResult,
              out: seq<int>)
    requires Progresses(m)
    requires Midway(m, source, s0, s, end, before, now, t0, t, tEnd, sofar, out) && s < end
    requires Passed(m.turn(source[s..end]), m.roomFirst, s, s', t, t', tEnd, sofar, result, true, now, next)
    ensures Finished(m, source, s0, s', end, before, next, t0, t', tEnd, result)
  {
    assert out + [] == out;
  }

  lemma Ends(m: Machine, source: seq<int>, s0: nat, end: nat, before: seq<int>, now: seq<int>,
             t0: nat, t: nat, tEnd: nat, result: ConversionResult, out: seq<int>)
    requires Progresses(m)
    requires Midway(m, source, s0, end, end, before, now, t0, t, tEnd, result, out)
    ensures Finished(m, source, s0, end, end, before, now, t0, t, tEnd, result)
  {
    assert out + [] == out;
  }

  // ------------------------------------------------------------------ shared blocks

  /** Reads a legal sequence and takes the offset away. The loop is the one Note A of the source gives for the
      fall-through switch that it unrolls. */
  method ReadUTF8(source: seq<UTF8>, start: nat, end: nat, extra: nat) returns (ch: int, s: nat)
    requires extra <= 3 && start + extra < end <= |source|
    ensures ch == Magic(source[start..end], extra) && s == start + extra + 1
  {
    ch, s := 0, start;
    var tmpBytesToRead := extra;
    while tmpBytesToRead > 0
      invariant 0 <= tmpBytesToRead <= extra && s == start + extra - tmpBytesToRead
      invariant Accumulate(source[start..end], 0, 0, extra)
        == Accumulate(source[start..end], s - start, ch, tmpBytesToRead)
    {
      ch := Wrap(ch + source[s]);
      s := s + 1;
      ch := Wrap(ch * 0x40);
      tmpBytesToRead := tmpBytesToRead - 1;
    }
    ch := Wrap(ch + source[s]);
    s := s + 1;
    ch := Wrap(ch - OffsetFromUTF8(extra));
  }

  /** The start of the loop body of both converters from UTF-16: a surrogate pair becomes one character. */
  method ReadUTF16(source: seq<UTF16>, start: nat, end: nat, flags: ConversionFlags) returns (front: Front)
    requires start < end <= |source|
    ensures front == Front16(flags, source[start..end])
  {
    var ch: int := source[start];
    var s := start + 1;
    if IsHighSurrogate(ch) {
      if s < end {
        var ch2: int := source[s];
        if IsLowSurrogate(ch2) {
          ch := (ch - 0xD800) * 0x400 + (ch2 - 0xDC00) + 0x10000;
          s := s + 1;
        } else if flags == StrictConversion {
          return Bad(SourceIllegal);
        }
      } else {
        return Bad(SourceExhausted);
      }
    } else if flags == StrictConversion {
      if IsLowSurrogate(ch) { return Bad(SourceIllegal); }
    }
    return Char(s - start, ch);
  }

  /** How many bytes a code point takes. */
  function BytesToWrite(ch: int): (n: nat)
    ensures n == |Encode8(ch)|
  {
    if ch < 0x80 then 1 else if ch < 0x800 then 2 else if ch < 0x10000 then 3 else 4
  }

  /** (UTF8)((ch | byteMark) & byteMask) */
  function LowMarked(ch: nat): (b: UTF8)
    ensures b == 0x80 + ch % 0x40
  {
    MarkLowBits(ch);
    And(Or(ch, 0x80), 0xBF)
  }

  /** What is left of a code point for the first byte of n. */
  predicate FirstByteLeft(ch: nat, n: nat) {
    1 <= n <= 4 && ch < (if n == 1 then 0x80 else if n == 2 then 0x20 else if n == 3 then 0x10 else 8)
  }

  /** (UTF8)(ch | firstByteMark[bytesToWrite]) */
  function FirstMarked(ch: nat, n: nat): (b: UTF8)
    requires FirstByteLeft(ch, n)
    ensures b == ch + FirstByteMark(n)
  {
    MarkFirst(ch, n, FirstByteMark(n));
    Or(ch, FirstByteMark(n))
  }

  /** (UTF16)((ch & halfMask) + UNI_SUR_LOW_START) */
  function MarkedHalf(ch: nat): (unit: UTF16)
    ensures unit == ch % 0x400 + 0xDC00
  {
    LowHalf(ch);
    And(ch, 0x3FF) + 0xDC00
  }

  /** The fall-through switch that writes the bytes of a character from the last one back to the first.
      `start` is where the first byte goes; the source moves the target pointer past the last one before. */
  method WriteUTF8(target: array<UTF8>, start: nat, character: int, bytesToWrite: nat)
    requires IsCodePoint(character) && bytesToWrite == BytesToWrite(character)
    requires start + bytesToWrite <= target.Length
    modifies target
    ensures forall i :: 0 <= i < target.Length ==>
      target[i] == if start <= i < start + bytesToWrite then Encode8(character)[i - start] else old(target[i])
  {
    var ch, t := character, start + bytesToWrite;
    if bytesToWrite >= 4 { t := t - 1; target[t] := LowMarked(ch); ch := ch / 0x40; }
    if bytesToWrite >= 3 { t := t - 1; target[t] := LowMarked(ch); ch := ch / 0x40; }
    if bytesToWrite >= 2 { t := t - 1; target[t] := LowMarked(ch); ch := ch / 0x40; }
    t := t - 1;
    target[t] := FirstMarked(ch, bytesToWrite);
  }

  /** A code point above 0xFFFF becomes a surrogate pair. */
  method WritePair(target: array<UTF16>, t: nat, character: int)
    requires 0x10000 <= character <= 0x10FFFF && t + 2 <= target.Length
    modifies target
    ensures forall i :: 0 <= i < target.Length ==>
      target[i] == if t <= i < t + 2 then Encode16(character)[i - t] else old(target[i])
  {
    var ch := character - 0x10000;
    target[t] := ch / 0x400 + 0xD800;
    target[t + 1] := MarkedHalf(ch);
  }

  // ------------------------------------------------------------------ the loops
  //
  // The body of each loop is a method of its own: it returns `stop` where the source breaks out of the loop.

  method Pass32to16(source: seq<UTF32>, s0: nat, end: nat, target: array<UTF16>, t0: nat, tEnd: nat,
                      flags: ConversionFlags, sofar: ConversionResult)
    returns (stop: bool, result: ConversionResult, s: nat, t: nat)
    requires s0 < end <= |source| && t0 <= tEnd <= target.Length
    modifies target
    ensures Passed(Turn32to16(flags, source[s0..end]), true, s0, s, t0, t, tEnd, sofar, result, stop, old(target[..]),
                   target[..])
  {
    stop, result, s, t := false, sofar, s0, t0;
    if t >= tEnd { return true, TargetExhausted, s, t; }
    var ch := source[s];
    s := s + 1;
    if ch <= 0xFFFF {
      if IsSurrogate(ch) {
        if flags == StrictConversion { return true, SourceIllegal, s - 1, t; }
        target[t] := REPLACEMENT_CHAR;
        t := t + 1;
      } else {
        target[t] := ch;
        t := t + 1;
      }
    } else if ch > 0x10FFFF {
      if flags == StrictConversion {
        result := SourceIllegal;
      } else {
        target[t] := REPLACEMENT_CHAR;
        t := t + 1;
      }
    } else {
      if t + 1 >= tEnd { return true, TargetExhausted, s - 1, t; }
      WritePair(target, t, ch);
      t := t + 2;
    }
  }

  method ConvertUTF32toUTF16(source: seq<UTF32>, s0: nat, end: nat, target: array<UTF16>, t0: nat, tEnd: nat,
                             flags: ConversionFlags)
    returns (result: ConversionResult, s: nat, t: nat)
    requires s0 <= end <= |source| && t0 <= tEnd <= target.Length
    modifies target
    ensures Finished(From32to16(flags), source, s0, s, end, old(target[..]), target[..], t0, t, tEnd, result)
  {
    result, s, t := ConversionOK, s0, t0;
    ghost var m, before, out: seq<int> := From32to16(flags), target[..], [];
    Start(m, source, s0, end, before, t0, tEnd);
    while s < end
      invariant Midway(m, source, s0, s, end, before, target[..], t0, t, tEnd, result, out)
    {
      ghost var sofar, s1, t1, now := result, s, t, target[..];
      var stop: bool;
      stop, result, s, t := Pass32to16(source, s, end, target, t, tEnd, flags, result);
      if stop {
        Stops(m, source, s0, s1, s, end, before, now, target[..], t0, t1, t, tEnd, sofar, result, out);
        return;
      }
      ghost var turn := m.turn(source[s1..end]);
      Goes(m, source, s0, s1, s, end, before, now, target[..], t0, t1, t, tEnd, sofar, result, out, turn);
      out := out + turn.units;
    }
    Ends(m, source, s0, end, before, target[..], t0, t, tEnd, result, out);
  }

  method Pass32to8(source: seq<UTF32>, s0: nat, end: nat, target: array<UTF8>, t0: nat, tEnd: nat,
                      flags: ConversionFlags, sofar: ConversionResult)
    returns (stop: bool, result: ConversionResult, s: nat, t: nat)
    requires s0 < end <= |source| && t0 <= tEnd <= target.Length
    modifies target
    ensures Passed(Turn32to8(flags, source[s0..end]), false, s0, s, t0, t, tEnd, sofar, result, stop, old(target[..]),
                   target[..])
  {
    stop, result, s, t := false, sofar, s0, t0;
    var ch := source[s];
    s := s + 1;
    if flags == StrictConversion {
      if IsSurrogate(ch) { return true, SourceIllegal, s - 1, t; }
    }
    var bytesToWrite: nat;
    if ch < 0x80 { bytesToWrite := 1; }
    else if ch < 0x800 { bytesToWrite := 2; }
    else if ch < 0x10000 { bytesToWrite := 3; }
    else if ch <= 0x10FFFF { bytesToWrite := 4; }
    else {
      bytesToWrite := 3;
      ch := REPLACEMENT_CHAR;
      result := SourceIllegal;
    }
    if t + bytesToWrite > tEnd { return true, TargetExhausted, s - 1, t; }
    WriteUTF8(target, t, ch, bytesToWrite);
    t := t + bytesToWrite;
  }

  method ConvertUTF32toUTF8(source: seq<UTF32>, s0: nat, end: nat, target: array<UTF8>, t0: nat, tEnd: nat,
                            flags: ConversionFlags)
    returns (result: ConversionResult, s: nat, t: nat)
    requires s0 <= end <= |source| && t0 <= tEnd <= target.Length
    modifies target
    ensures Finished(From32to8(flags), source, s0, s, end, old(target[..]), target[..], t0, t, tEnd, result)
  {
    result, s, t := ConversionOK, s0, t0;
    ghost var m, before, out: seq<int> := From32to8(flags), target[..], [];
    Start(m, source, s0, end, before, t0, tEnd);
    while s < end
      invariant Midway(m, source, s0, s, end, before, target[..], t0, t, tEnd, result, out)
    {
      ghost var sofar, s1, t1, now := result, s, t, target[..];
      var stop: bool;
      stop, result, s, t := Pass32to8(source, s, end, target, t, tEnd, flags, result);
      if stop {
        Stops(m, source, s0, s1, s, end, before, now, target[..], t0, t1, t, tEnd, sofar, result, out);
        return;
      }
      ghost var turn := m.turn(source[s1..end]);
      Goes(m, source, s0, s1, s, end, before, now, target[..], t0, t1, t, tEnd, sofar, result, out, turn);
      out := out + turn.units;
    }
    Ends(m, source, s0, end, before, target[..], t0, t, tEnd, result, out);
  }

  method Pass16to32(source: seq<UTF16>, s0: nat, end: nat, target: array<UTF32>, t0: nat, tEnd: nat,
                      flags: ConversionFlags, sofar: ConversionResult)
    returns (stop: bool, result: ConversionResult, s: nat, t: nat)
    requires s0 < end <= |source| && t0 <= tEnd <= target.Length
    modifies target
    ensures Passed(Turn16to32(flags, source[s0..end]), false, s0, s, t0, t, tEnd, sofar, result, stop, old(target[..]),
                   target[..])
  {
    stop, result, s, t := false, sofar, s0, t0;
    var front := ReadUTF16(source, s, end, flags);
    if front.Bad? { return true, front.why, s, t; }
    var ch := front.ch;
    s := s + front.used;
    if t >= tEnd { return true, TargetExhausted, s0, t; }
    target[t] := ch;
    t := t + 1;
  }

  method ConvertUTF16toUTF32(source: seq<UTF16>, s0: nat, end: nat, target: array<UTF32>, t0: nat, tEnd: nat,
                             flags: ConversionFlags)
    returns (result: ConversionResult, s: nat, t: nat)
    requires s0 <= end <= |source| && t0 <= tEnd <= target.Length
    modifies target
    ensures Finished(From16to32(flags), source, s0, s, end, old(target[..]), target[..], t0, t, tEnd, result)
  {
    result, s, t := ConversionOK, s0, t0;
    ghost var m, before, out: seq<int> := From16to32(flags), target[..], [];
    Start(m, source, s0, end, before, t0, tEnd);
    while s < end
      invariant Midway(m, source, s0, s, end, before, target[..], t0, t, tEnd, result, out)
    {
      ghost var sofar, s1, t1, now := result, s, t, target[..];
      var stop: bool;
      stop, result, s, t := Pass16to32(source, s, end, target, t, tEnd, flags, result);
      if stop {
        Stops(m, source, s0, s1, s, end, before, now, target[..], t0, t1, t, tEnd, sofar, result, out);
        return;
      }
      ghost var turn := m.turn(source[s1..end]);
      Goes(m, source, s0, s1, s, end, before, now, target[..], t0, t1, t, tEnd, sofar, result, out, turn);
      out := out + turn.units;
    }
    Ends(m, source, s0, end, before, target[..], t0, t, tEnd, result, out);
  }

  method Pass16to8(source: seq<UTF16>, s0: nat, end: nat, target: array<UTF8>, t0: nat, tEnd: nat,
                      flags: ConversionFlags, sofar: ConversionResult)
    returns (stop: bool, result: ConversionResult, s: nat, t: nat)
    requires s0 < end <= |source| && t0 <= tEnd <= target.Length
    modifies target
    ensures Passed(Turn16to8(flags, source[s0..end]), false, s0, s, t0, t, tEnd, sofar, result, stop, old(target[..]),
                   target[..])
  {
    stop, result, s, t := false, sofar, s0, t0;
    var front := ReadUTF16(source, s, end, flags);
    if front.Bad? { return true, front.why, s, t; }
    var ch := front.ch;
    s := s + front.used;
    var bytesToWrite: nat;
    if ch < 0x80 { bytesToWrite := 1; }
    else if ch < 0x800 { bytesToWrite := 2; }
    else if ch < 0x10000 { bytesToWrite := 3; }
    else { bytesToWrite := 4; }
    if t + bytesToWrite > tEnd { return true, TargetExhausted, s0, t; }
    WriteUTF8(target, t, ch, bytesToWrite);
    t := t + bytesToWrite;
  }

  method ConvertUTF16toUTF8(source: seq<UTF16>, s0: nat, end: nat, target: array<UTF8>, t0: nat, tEnd: nat,
                            flags: ConversionFlags)
    returns (result: ConversionResult, s: nat, t: nat)
    requires s0 <= end <= |source| && t0 <= tEnd <= target.Length
    modifies target
    ensures Finished(From16to8(flags), source, s0, s, end, old(target[..]), target[..], t0, t, tEnd, result)
  {
    result, s, t := ConversionOK, s0, t0;
    ghost var m, before, out: seq<int> := From16to8(flags), target[..], [];
    Start(m, source, s0, end, before, t0, tEnd);
    while s < end
      invariant Midway(m, source, s0, s, end, before, target[..], t0, t, tEnd, result, out)
    {
      ghost var sofar, s1, t1, now := result, s, t, target[..];
      var stop: bool;
      stop, result, s, t := Pass16to8(source, s, end, target, t, tEnd, flags, result);
      if stop {
        Stops(m, source, s0, s1, s, end, before, now, target[..], t0, t1, t, tEnd, sofar, result, out);
        return;
      }
      ghost var turn := m.turn(source[s1..end]);
      Goes(m, source, s0, s1, s, end, before, now, target[..], t0, t1, t, tEnd, sofar, result, out, turn);
      out := out + turn.units;
    }
    Ends(m, source, s0, end, before, target[..], t0, t, tEnd, result, out);
  }

  method Pass8to16(source: seq<UTF8>, s0: nat, end: nat, target: array<UTF16>, t0: nat, tEnd: nat,
                      flags: ConversionFlags, sofar: ConversionResult)
    returns (stop: bool, result: ConversionResult, s: nat, t: nat)
    requires s0 < end <= |source| && t0 <= tEnd <= target.Length
    modifies target
    ensures Passed(Turn8to16(flags, source[s0..end]), false, s0, s, t0, t, tEnd, sofar, result, stop, old(target[..]),
                   target[..])
  {
    stop, result, s, t := false, sofar, s0, t0;
    var extraBytesToRead := TrailingBytes(source[s]);
    if s + extraBytesToRead >= end { return true, SourceExhausted, s, t; }
    if !IsLegalUTF8(source[s..end], extraBytesToRead + 1) { return true, SourceIllegal, s, t; }
    var ch: int;
    ch, s := ReadUTF8(source, s, end, extraBytesToRead);
    LegalIsScalar(source[s0..end]);
    if t >= tEnd { return true, TargetExhausted, s - (extraBytesToRead + 1), t; }
    if ch <= 0xFFFF {
      if IsSurrogate(ch) {
        assert false;
      } else {
        target[t] := ch;
        t := t + 1;
      }
    } else if ch > 0x10FFFF {
      assert false;
    } else {
      if t + 1 >= tEnd { return true, TargetExhausted, s - (extraBytesToRead + 1), t; }
      WritePair(target, t, ch);
      t := t + 2;
    }
  }

  method ConvertUTF8toUTF16(source: seq<UTF8>, s0: nat, end: nat, target: array<UTF16>, t0: nat, tEnd: nat,
                            flags: ConversionFlags)
    returns (result: ConversionResult, s: nat, t: nat)
    requires s0 <= end <= |source| && t0 <= tEnd <= target.Length
    modifies target
    ensures Finished(From8to16(flags), source, s0, s, end, old(target[..]), target[..], t0, t, tEnd, result)
  {
    result, s, t := ConversionOK, s0, t0;
    ghost var m, before, out: seq<int> := From8to16(flags), target[..], [];
    Start(m, source, s0, end, before, t0, tEnd);
    while s < end
      invariant Midway(m, source, s0, s, end, before, target[..], t0, t, tEnd, result, out)
    {
      ghost var sofar, s1, t1, now := result, s, t, target[..];
      var stop: bool;
      stop, result, s, t := Pass8to16(source, s, end, target, t, tEnd, flags, result);
      if stop {
        Stops(m, source, s0, s1, s, end, before, now, target[..], t0, t1, t, tEnd, sofar, result, out);
        return;
      }
      ghost var turn := m.turn(source[s1..end]);
      Goes(m, source, s0, s1, s, end, before, now, target[..], t0, t1, t, tEnd, sofar, result, out, turn);
      out := out + turn.units;
    }
    Ends(m, source, s0, end, before, target[..], t0, t, tEnd, result, out);
  }

  method Pass8to32(source: seq<UTF8>, s0: nat, end: nat, target: array<UTF32>, t0: nat, tEnd: nat,
                      flags: ConversionFlags, sofar: ConversionResult)
    returns (stop: bool, result: ConversionResult, s: nat, t: nat)
    requires s0 < end <= |source| && t0 <= tEnd <= target.Length
    modifies target
    ensures Passed(Turn8to32(flags, source[s0..end]), false, s0, s, t0, t, tEnd, sofar, result, stop, old(target[..]),
                   target[..])
  {
    stop, result, s, t := false, sofar, s0, t0;
    var extraBytesToRead := TrailingBytes(source[s]);
    if s + extraBytesToRead >= end { return true, SourceExhausted, s, t; }
    if !IsLegalUTF8(source[s..end], extraBytesToRead + 1) { return true, SourceIllegal, s, t; }
    var ch: int;
    ch, s := ReadUTF8(source, s, end, extraBytesToRead);
    LegalIsScalar(source[s0..end]);
    if t >= tEnd { return true, TargetExhausted, s - (extraBytesToRead + 1), t; }
    if ch <= 0x10FFFF {
      if IsSurrogate(ch) {
        assert false;
      } else {
        target[t] := ch;
        t := t + 1;
      }
    } else {
      assert false;
    }
  }

  method ConvertUTF8toUTF32(source: seq<UTF8>, s0: nat, end: nat, target: array<UTF32>, t0: nat, tEnd: nat,
                            flags: ConversionFlags)
    returns (result: ConversionResult, s: nat, t: nat)
    requires s0 <= end <= |source| && t0 <= tEnd <= target.Length
    modifies target
    ensures Finished(From8to32(flags), source, s0, s, end, old(target[..]), target[..], t0, t, tEnd, result)
  {
    result, s, t := ConversionOK, s0, t0;
    ghost var m, before, out: seq<int> := From8to32(flags), target[..], [];
    Start(m, source, s0, end, before, t0, tEnd);
    while s < end
      invariant Midway(m, source, s0, s, end, before, target[..], t0, t, tEnd, result, out)
    {
      ghost var sofar, s1, t1, now := result, s, t, target[..];
      var stop: bool;
      stop, result, s, t := Pass8to32(source, s, end, target, t, tEnd, flags, result);
      if stop {
        Stops(m, source, s0, s1, s, end, before, now, target[..], t0, t1, t, tEnd, sofar, result, out);
        return;
      }
      ghost var turn := m.turn(source[s1..end]);
      Goes(m, source, s0, s1, s, end, before, now, target[..], t0, t1, t, tEnd, sofar, result, out, turn);
      out := out + turn.units;
    }
    Ends(m, source, s0, end, before, target[..], t0, t, tEnd, result, out);
  }
}
