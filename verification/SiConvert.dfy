/** The UTF-8 mode of SI_ConvertW and the scratch buffer of Converter in SimpleIni.h: the size estimates and the
    conversions they are for. A wchar_t is a UTF-32 or a UTF-16 unit. */
module SiConvert {
  import opened Unicode
  import opened ConvertUtfSpec
  import opened ConvertUtf
  import opened Machines
  import opened Transcoding

  /** A call on the front of a buffer with the whole of a target. */
  lemma WholeTarget(m: Machine, data: seq<int>, s: nat, src: seq<int>, before: seq<int>, now: seq<int>, t: nat,
                    size: nat, result: ConversionResult)
    requires Progresses(m) && |src| <= |data| && data[0..|src|] == src
    requires Finished(m, data, 0, s, |src|, before, now, 0, t, size, result)
    ensures var o := Convert(m, src, size);
      result == o.result && s == o.used && |o.out| <= |before| && now == o.out + before[|o.out|..]
  {
    assert before[..0] == [];
  }

  // ------------------------------------------------------------------ from the store

  function SizeFromStore(data: seq<UTF8>): nat {
    |data|
  }

  /** The store holds nothing but sequences that the converters accept. */
  predicate LegalText(data: seq<int>) {
    data == [] || (Front8(data).Char? && LegalText(data[Front8(data).used..]))
  }

  /** No turn writes more units than it takes. */
  predicate NoLonger(t: Trail) {
    t.More? ==> |t.units| <= t.used && !t.bad && NoLonger(t.next)
  }

  predicate EndsWell(t: Trail) {
    t.Done? || (t.More? && EndsWell(t.next))
  }

  lemma {:induction false} EnoughRoom(t: Trail, room: nat)
    requires Proper(t) && NoLonger(t) && room >= Length(t)
    ensures !Run(t, false, room, ConversionOK).result.TargetExhausted?
    ensures Run(t, false, room, ConversionOK).result.ConversionOK? <==> EndsWell(t)
  {
    if t.More? { EnoughRoom(t.next, room - |t.units|); }
  }

  lemma {:induction false} From8Trail(to: Form, data: seq<int>)
    requires to != Utf8 && NonNegative(data)
    ensures var t := TrailOf(MachineOf(Utf8, to, LenientConversion), data);
      NoLonger(t) && (EndsWell(t) <==> LegalText(data))
    decreases |data|
  {
    if data != [] && Front8(data).Char? {
      LegalIsScalar(data);
      FourUnitsForFour(data);
      From8Trail(to, data[Front8(data).used..]);
    }
  }

  lemma FourUnitsForFour(data: seq<int>)
    requires data != [] && NonNegative(data) && Front8(data).Char?
    ensures |Encode16(Front8(data).ch)| <= Front8(data).used
  {
    LegalValue(data, TrailingBytes(data[0]));
  }

  /** A target of SizeFromStore units never runs out, for both sizes of wchar_t. */
  lemma SizeFromStoreSuffices(to: Form, data: seq<int>, room: nat)
    requires to != Utf8 && NonNegative(data) && room >= |data|
    ensures var o := Convert(MachineOf(Utf8, to, LenientConversion), data, room);
      !o.result.TargetExhausted? && (o.result.ConversionOK? <==> LegalText(data))
  {
    var m := MachineOf(Utf8, to, LenientConversion);
    MachineSound(Utf8, to, LenientConversion);
    SoundTrail(m, data, 4);
    From8Trail(to, data);
    EnoughRoom(TrailOf(m, data), room);
  }

  /** ConvertFromStore with a 32-bit wchar_t. With SizeFromStore units it succeeds exactly on legal text. */
  method ConvertFromStore32(data: seq<UTF8>, output: array<UTF32>, size: nat) returns (ok: bool)
    requires size <= output.Length
    modifies output
    ensures ok <==> Convert(From8to32(LenientConversion), data, size).result.ConversionOK?
    ensures size >= SizeFromStore(data) ==> (ok <==> LegalText(data))
    ensures var text := Convert(From8to32(LenientConversion), data, size).out;
      output[..] == text + old(output[|text|..])
  {
    if size >= SizeFromStore(data) {
      SizeFromStoreSuffices(Utf32, data, size);
    }
    var retval, s, t := ConvertUTF8toUTF32(data, 0, |data|, output, 0, size, LenientConversion);
    assert data[0..|data|] == data;
    WholeTarget(From8to32(LenientConversion), data, s, data, old(output[..]), output[..], t, size, retval);
    ok := retval == ConversionOK;
  }

  /** The same with a 16-bit wchar_t. */
  method ConvertFromStore16(data: seq<UTF8>, output: array<UTF16>, size: nat) returns (ok: bool)
    requires size <= output.Length
    modifies output
    ensures ok <==> Convert(From8to16(LenientConversion), data, size).result.ConversionOK?
    ensures size >= SizeFromStore(data) ==> (ok <==> LegalText(data))
    ensures var text := Convert(From8to16(LenientConversion), data, size).out;
      output[..] == text + old(output[|text|..])
  {
    if size >= SizeFromStore(data) {
      SizeFromStoreSuffices(Utf16, data, size);
    }
    var retval, s, t := ConvertUTF8toUTF16(data, 0, |data|, output, 0, size, LenientConversion);
    assert data[0..|data|] == data;
    WholeTarget(From8to16(LenientConversion), data, s, data, old(output[..]), output[..], t, size, retval);
    ok := retval == ConversionOK;
  }

  // ------------------------------------------------------------------ to the store

  /** A lenient converter on a terminated string: it takes every character and then the terminator. */
  ghost predicate TakesStrings(m: Machine) {
    && m.turn([0]) == Take(1, [0], false)
    && forall s :: s != [] ==> TakesFront(m.turn(s + [0]), |s|)
  }

  predicate TakesFront(turn: Turn, n: nat) {
    turn.Take? && 1 <= turn.used <= n && |turn.units| <= 4
  }

  predicate AnyBad(t: Trail) {
    t.More? && (t.bad || AnyBad(t.next))
  }

  function Cost(t: Trail): nat {
    if t.More? then |t.units| + Cost(t.next) else 0
  }

  lemma {:induction false} CostIsEnough(t: Trail, room: nat, sofar: ConversionResult)
    requires EndsWell(t) && room >= Cost(t)
    ensures Run(t, false, room, sofar).result == SoFar(AnyBad(t), sofar) && Run(t, false, room, sofar).used == Length(t)
  {
    if t.More? { CostIsEnough(t.next, room - |t.units|, if t.bad then SourceIllegal else sofar); }
  }

  /** A string takes four bytes for each unit and one for the terminator at the most. */
  lemma {:induction false} StringTrail(m: Machine, str: seq<int>)
    requires Progresses(m) && TakesStrings(m)
    ensures var t := TrailOf(m, str + [0]);
      EndsWell(t) && Cost(t) <= 4 * |str| + 1 && Length(t) == |str| + 1
    decreases |str|
  {
    if str == [] {
      assert str + [0] == [0] && [0][1..] == [];
      assert TrailOf(m, [0]) == More(1, [0], false, Done);
    } else {
      var turn := m.turn(str + [0]);
      assert TakesFront(turn, |str|);
      assert (str + [0])[turn.used..] == str[turn.used..] + [0];
      StringTrail(m, str[turn.used..]);
    }
  }

  lemma From32TakesStrings()
    ensures TakesStrings(From32to8(LenientConversion))
  {
  }

  lemma From16TakesStrings()
    ensures TakesStrings(From16to8(LenientConversion))
  {
  }

  predicate InRange(str: seq<int>) {
    forall i :: 0 <= i < |str| ==> IsCodePoint(str[i])
  }

  lemma FirstOutOfRange(str: seq<int>)
    requires str != []
    ensures InRange(str) <==> IsCodePoint(str[0]) && InRange(str[1..])
  {
    assert str == [str[0]] + str[1..];
  }

  lemma {:induction false} BadIsOutOfRange(str: seq<int>)
    requires InForm(Utf32, str)
    ensures AnyBad(TrailOf(From32to8(LenientConversion), str)) <==> !InRange(str)
    decreases |str|
  {
    if str != [] {
      BadIsOutOfRange(str[1..]);
      FirstOutOfRange(str);
    }
  }

  lemma {:induction false} NeverBad16(str: seq<int>)
    ensures !AnyBad(TrailOf(From16to8(LenientConversion), str))
    decreases |str|
  {
    if str != [] && Front16(LenientConversion, str).Char? {
      NeverBad16(str[Front16(LenientConversion, str).used..]);
    }
  }

  /** Where the terminator is. */
  predicate Terminated(data: seq<int>, n: nat) {
    n < |data| && data[n] == 0 && 0 !in data[..n]
  }

  /** The loop of SizeToStore and ConvertToStore that looks for the terminator. */
  method StringLength(data: seq<int>) returns (n: nat)
    requires 0 in data
    ensures Terminated(data, n)
  {
    n := 0;
    while data[n] != 0
      invariant n < |data| && 0 !in data[..n]
      invariant 0 in data[n..]
      decreases |data| - n
    {
      assert data[n..][1..] == data[n + 1..];
      assert data[..n + 1] == data[..n] + [data[n]];
      n := n + 1;
    }
  }

  lemma StringStores(m: Machine, str: seq<int>, room: nat)
    requires Progresses(m) && !m.roomFirst && TakesStrings(m) && room >= 6 * |str| + 1
    ensures var o := Convert(m, str + [0], room);
      !o.result.TargetExhausted? && (o.result.ConversionOK? <==> !AnyBad(TrailOf(m, str + [0]))) && o.used == |str| + 1
  {
    StringTrail(m, str);
    CostIsEnough(TrailOf(m, str + [0]), room, ConversionOK);
  }

  /** A target of SizeToStore bytes never runs out, for both sizes of wchar_t. With 32 bits the conversion succeeds
      exactly when no character is above the range; with 16 bits it always does. */
  lemma SizeToStoreSuffices32(str: seq<int>, room: nat)
    requires InForm(Utf32, str) && room >= 6 * |str| + 1
    ensures var o := Convert(From32to8(LenientConversion), str + [0], room);
      !o.result.TargetExhausted? && (o.result.ConversionOK? <==> InRange(str)) && o.used == |str| + 1
  {
    From32TakesStrings();
    StringStores(From32to8(LenientConversion), str, room);
    BadIsOutOfRange(str + [0]);
    assert forall i :: 0 <= i < |str| ==> (str + [0])[i] == str[i];
  }

  lemma SizeToStoreSuffices16(str: seq<int>, room: nat)
    requires room >= 6 * |str| + 1
    ensures var o := Convert(From16to8(LenientConversion), str + [0], room);
      o.result.ConversionOK? && o.used == |str| + 1
  {
    From16TakesStrings();
    StringStores(From16to8(LenientConversion), str, room);
    NeverBad16(str + [0]);
  }

  lemma Stored32(data: seq<UTF32>, len: nat, s: nat, before: seq<int>, now: seq<int>, t: nat, size: nat,
                 retval: ConversionResult)
    requires Terminated(data, len)
    requires Finished(From32to8(LenientConversion), data, 0, s, len + 1, before, now, 0, t, size, retval)
    ensures var o := Convert(From32to8(LenientConversion), data[..len] + [0], size); retval == o.result && o.out <= now
    ensures size >= 6 * len + 1 ==> (retval == ConversionOK <==> InRange(data[..len]))
  {
    if size >= 6 * len + 1 {
      SizeToStoreSuffices32(data[..len], size);
    }
    WithTerminator(data, len);
    OutputIsPrefix(From32to8(LenientConversion), data, s, data[..len] + [0], before, now, t, size, retval);
  }

  /** ConvertToStore of SI_ConvertW with a 32-bit wchar_t. */
  method ConvertToStore32(data: seq<UTF32>, len: nat, target: array<UTF8>) returns (ok: bool)
    requires Terminated(data, len)
    modifies target
    ensures var o := Convert(From32to8(LenientConversion), data[..len] + [0], target.Length);
      (ok <==> o.result.ConversionOK?) && o.out <= target[..]
    ensures target.Length >= 6 * len + 1 ==> (ok <==> InRange(data[..len]))
  {
    ghost var before := target[..];
    var retval, s, t := ConvertUTF32toUTF8(data, 0, len + 1, target, 0, target.Length, LenientConversion);
    Stored32(data, len, s, before, target[..], t, target.Length, retval);
    ok := retval == ConversionOK;
  }

  lemma Stored16(data: seq<UTF16>, len: nat, s: nat, before: seq<int>, now: seq<int>, t: nat, size: nat,
                 retval: ConversionResult)
    requires Terminated(data, len)
    requires Finished(From16to8(LenientConversion), data, 0, s, len + 1, before, now, 0, t, size, retval)
    ensures var o := Convert(From16to8(LenientConversion), data[..len] + [0], size); retval == o.result && o.out <= now
    ensures size >= 6 * len + 1 ==> retval == ConversionOK
  {
    if size >= 6 * len + 1 {
      SizeToStoreSuffices16(data[..len], size);
    }
    WithTerminator(data, len);
    OutputIsPrefix(From16to8(LenientConversion), data, s, data[..len] + [0], before, now, t, size, retval);
  }

  lemma WithTerminator(data: seq<int>, len: nat)
    requires Terminated(data, len)
    ensures data[0..len + 1] == data[..len] + [0] && |data[..len] + [0]| == len + 1
  {
  }

  lemma OutputIsPrefix(m: Machine, data: seq<int>, s: nat, src: seq<int>, before: seq<int>, now: seq<int>, t: nat,
                       size: nat, result: ConversionResult)
    requires Progresses(m) && |src| <= |data| && data[0..|src|] == src
    requires Finished(m, data, 0, s, |src|, before, now, 0, t, size, result)
    ensures result == Convert(m, src, size).result && Convert(m, src, size).out <= now
  {
    WholeTarget(m, data, s, src, before, now, t, size, result);
  }

  /** ConvertToStore of SI_ConvertW with a 16-bit wchar_t. */
  method ConvertToStore16(data: seq<UTF16>, len: nat, target: array<UTF8>) returns (ok: bool)
    requires Terminated(data, len)
    modifies target
    ensures var o := Convert(From16to8(LenientConversion), data[..len] + [0], target.Length);
      (ok <==> o.result.ConversionOK?) && o.out <= target[..]
    ensures target.Length >= 6 * len + 1 ==> ok
  {
    ghost var before := target[..];
    var retval, s, t := ConvertUTF16toUTF8(data, 0, len + 1, target, 0, target.Length, LenientConversion);
    Stored16(data, len, s, before, target[..], t, target.Length, retval);
    ok := retval == ConversionOK;
  }

  // ------------------------------------------------------------------ the scratch buffer

  class Converter {
    var scratch: array<UTF8>

    predicate Valid()
      reads this
    {
      scratch.Length > 0
    }

    constructor ()
      ensures Valid() && fresh(scratch)
    {
      scratch := new UTF8[1024];
    }

    /** Doubles the scratch buffer until it is big enough. */
    method Reserve(uLen: nat)
      requires Valid()
      modifies this
      ensures Valid() && scratch.Length >= uLen
      ensures scratch == old(scratch) || fresh(scratch)
      ensures old(scratch.Length) >= uLen ==> scratch == old(scratch)
      ensures old(scratch.Length) < uLen ==> uLen <= scratch.Length < 2 * uLen
    {
      while uLen > scratch.Length
        invariant Valid() && (scratch == old(scratch) || fresh(scratch))
        invariant scratch == old(scratch) || old(scratch.Length) < uLen
        invariant scratch == old(scratch) || scratch.Length < 2 * uLen
        decreases uLen - scratch.Length
      {
        scratch := new UTF8[scratch.Length * 2];
      }
    }

    /** ConvertToStore of Converter: the length is found, the scratch buffer is made big enough, and then the
        conversion cannot run out of it. */
    method Store32(data: seq<UTF32>) returns (ok: bool, ghost n: nat)
      requires Valid() && 0 in data
      modifies this, scratch
      ensures Valid() && Terminated(data, n)
      ensures ok <==> InRange(data[..n])
      ensures Convert(From32to8(LenientConversion), data[..n] + [0], scratch.Length).out <= scratch[..]
    {
      var len := StringLength(data);
      n := len;
      Reserve(6 * len + 1);
      ok := ConvertToStore32(data, len, scratch);
    }

    method Store16(data: seq<UTF16>) returns (ok: bool, ghost n: nat)
      requires Valid() && 0 in data
      modifies this, scratch
      ensures Valid() && Terminated(data, n)
      ensures ok
      ensures Convert(From16to8(LenientConversion), data[..n] + [0], scratch.Length).out <= scratch[..]
    {
      var len := StringLength(data);
      n := len;
      Reserve(6 * len + 1);
      ok := ConvertToStore16(data, len, scratch);
    }
  }
}
