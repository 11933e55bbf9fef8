/** Converting in pieces: a caller with small targets that calls again from the returned source pointer. */
module Resuming {
  import opened Unicode
  import opened ConvertUtfSpec
  import opened Machines
  import opened Transcoding

  /** Calls a converter with one target size after the other, each time from where the last call stopped, until a
      call ends for a reason other than room. The outcome adds up what the calls used and wrote. */
  function Calls(m: Machine, src: seq<int>, rooms: seq<nat>): Outcome
    requires Progresses(m)
    decreases |rooms|
  {
    if rooms == [] then Outcome(TargetExhausted, 0, [])
    else
      var o := Convert(m, src, rooms[0]);
      if !o.result.TargetExhausted? || o.used > |src| then o
      else Prepend(o.used, o.out, Calls(m, src[o.used..], rooms[1..]))
  }

  lemma {:induction false} CallsAreResumed(m: Machine, src: seq<int>, rooms: seq<nat>, k: nat)
    requires Progresses(m) && Sound(m, k)
    ensures Proper(TrailOf(m, src)) && Calls(m, src, rooms) == Resumed(TrailOf(m, src), m.roomFirst, rooms)
    decreases |rooms|
  {
    SoundTrail(m, src, k);
    if rooms != [] {
      Exits(TrailOf(m, src), m.roomFirst, rooms[0], ConversionOK);
      var o := Convert(m, src, rooms[0]);
      if o.result.TargetExhausted? {
        DropSource(m, src, o.used);
        CallsAreResumed(m, src[o.used..], rooms[1..], k);
      }
    }
  }

  /** The most units one character takes. */
  function OneCharacter(to: Form): nat {
    match to case Utf8 => 4 case Utf16 => 2 case Utf32 => 1
  }

  lemma SoundTo(from: Form, to: Form, flags: ConversionFlags)
    requires from != to
    ensures Sound(MachineOf(from, to, flags), OneCharacter(to))
  {
    match (from, to)
    case (Utf8, Utf16) => Sound8to16(flags);
    case (Utf8, Utf32) => Sound8to32(flags);
    case (Utf16, Utf32) => Sound16to32(flags);
    case (Utf32, Utf16) => Sound32to16(flags);
    case (_, Utf8) => MachineSound(from, to, flags);
  }

  lemma Sound8to16(flags: ConversionFlags) ensures Sound(From8to16(flags), 2) {}

  lemma Sound8to32(flags: ConversionFlags) ensures Sound(From8to32(flags), 1) {}

  lemma Sound16to32(flags: ConversionFlags) ensures Sound(From16to32(flags), 1) {}

  lemma Sound32to16(flags: ConversionFlags) ensures Sound(From32to16(flags), 2) {}

  /** No turn is bad: so it is for the converters from UTF-8 and UTF-16. */
  predicate Clean(t: Trail) {
    t.More? ==> !t.bad && Clean(t.next)
  }

  lemma {:induction false} CleanTrail(from: Form, to: Form, flags: ConversionFlags, src: seq<int>)
    requires from != to && from != Utf32 && InForm(from, src)
    ensures Clean(TrailOf(MachineOf(from, to, flags), src))
    decreases |src|
  {
    var m := MachineOf(from, to, flags);
    if src != [] && m.turn(src).Take? {
      CleanTurn(from, to, flags, src);
      CleanTrail(from, to, flags, src[m.turn(src).used..]);
    }
  }

  lemma CleanTurn(from: Form, to: Form, flags: ConversionFlags, src: seq<int>)
    requires from != to && from != Utf32 && InForm(from, src) && src != []
    ensures var turn := MachineOf(from, to, flags).turn(src);
      turn.Take? ==> !turn.bad
  {
    if from.Utf8? && Front8(src).Char? { LegalIsScalar(src); }
  }

  lemma {:induction false} CleanForgetsNothing(t: Trail, roomFirst: bool, rooms: seq<nat>)
    requires Proper(t) && Clean(t)
    ensures !Forgot(t, roomFirst, rooms)
    decreases |rooms|
  {
    if rooms != [] {
      var o := Run(t, roomFirst, rooms[0], ConversionOK);
      Exits(t, roomFirst, rooms[0], ConversionOK);
      CleanCut(t, o.used);
      DropProper(t, o.used);
      if o.result.TargetExhausted? {
        CleanForgetsNothing(Drop(t, o.used), roomFirst, rooms[1..]);
      }
    }
  }

  lemma {:induction false} CleanCut(t: Trail, n: nat)
    requires Clean(t) && Cut(t, n)
    ensures !Flagged(t, n) && Clean(Drop(t, n))
  {
    if n > 0 { CleanCut(t.next, n - t.used); }
  }

  /** Small calls and one call with enough room: the same source is used and the same units come out. The result
      differs in one case only. */
  lemma AgreesWithOneCall(m: Machine, k: nat, src: seq<int>, rooms: seq<nat>, big: nat)
    requires Progresses(m) && Sound(m, k) && k >= 1
    requires |rooms| > |src| && forall i :: 0 <= i < |rooms| ==> rooms[i] >= k
    requires !Convert(m, src, big).result.TargetExhausted?
    ensures Proper(TrailOf(m, src))
    ensures var small, whole := Calls(m, src, rooms), Convert(m, src, big);
      && !small.result.TargetExhausted? && small.used == whole.used && small.out == whole.out
      && whole.result == if small.result.ConversionOK?
        then SoFar(Forgot(TrailOf(m, src), m.roomFirst, rooms), ConversionOK)
                         else small.result
  {
    var t := TrailOf(m, src);
    SoundTrail(m, src, k);
    CallsAreResumed(m, src, rooms, k);
    ResumedEnds(t, m.roomFirst, k, rooms);
    var big' := |Convert(m, src, big).out| + |Calls(m, src, rooms).out| + 1;
    OtherRoom(t, m.roomFirst, big, big', ConversionOK);
    ResumedAgrees(t, m.roomFirst, rooms, big', ConversionOK);
  }

  /** Conversion from UTF-8 and from UTF-16 is resumable: calls with any targets that hold one character come to an
      end, and together they are one call with a target that is big enough. */
  lemma Resumable(from: Form, to: Form, flags: ConversionFlags, src: seq<int>, rooms: seq<nat>, big: nat)
    requires from != to && from != Utf32 && InForm(from, src)
    requires |rooms| > |src| && forall i :: 0 <= i < |rooms| ==> rooms[i] >= OneCharacter(to)
    requires !Convert(MachineOf(from, to, flags), src, big).result.TargetExhausted?
    ensures Calls(MachineOf(from, to, flags), src, rooms) == Convert(MachineOf(from, to, flags), src, big)
  {
    var m := MachineOf(from, to, flags);
    SoundTo(from, to, flags);
    AgreesWithOneCall(m, OneCharacter(to), src, rooms, big);
    CleanTrail(from, to, flags, src);
    CleanForgetsNothing(TrailOf(m, src), m.roomFirst, rooms);
  }

  /** Conversion from UTF-32 is resumable as far as source and target go. Only one difference in the result is possible:
      SourceIllegal is overwritten by TargetExhausted, and the next call starts afresh. */
  lemma ResumableUpToResult(to: Form, flags: ConversionFlags, src: seq<int>, rooms: seq<nat>, big: nat)
    requires to != Utf32
    requires |rooms| > |src| && forall i :: 0 <= i < |rooms| ==> rooms[i] >= OneCharacter(to)
    requires !Convert(MachineOf(Utf32, to, flags), src, big).result.TargetExhausted?
    ensures var m := MachineOf(Utf32, to, flags);
      var small, whole := Calls(m, src, rooms), Convert(m, src, big);
      && small.used == whole.used && small.out == whole.out
      && (small.result == whole.result || (small.result.ConversionOK? && whole.result.SourceIllegal?))
  {
    SoundTo(Utf32, to, flags);
    AgreesWithOneCall(MachineOf(Utf32, to, flags), OneCharacter(to), src, rooms, big);
  }

  /** The case where it differs, with targets of four bytes: U+110000 is replaced by three bytes and flagged, and
      U+10000 has to wait for the next call, which knows nothing of the flag. */
  lemma ForgottenIllegal()
    ensures var src := [0x110000, 0x10000];
      && Calls(From32to8(LenientConversion), src, [4, 4, 4]).result == ConversionOK
      && Convert(From32to8(LenientConversion), src, 8).result == SourceIllegal
  {
    var src := [0x110000, 0x10000];
    Above(src);
    Astral(src[1..]);
    ForgetsFlag(From32to8(LenientConversion), src);
  }

  lemma Above(src: seq<int>)
    requires |src| == 2 && src[0] == 0x110000
    ensures var m := From32to8(LenientConversion);
      TrailOf(m, src) == More(1, Encode8(REPLACEMENT_CHAR), true, TrailOf(m, src[1..]))
  {
  }

  lemma Astral(src: seq<int>)
    requires |src| == 1 && src[0] == 0x10000
    ensures TrailOf(From32to8(LenientConversion), src) == More(1, Encode8(0x10000), false, Done)
  {
    assert src[1..] == [];
  }

  /** Two turns of three and four units, the first of them bad. */
  lemma ForgetsFlag(m: Machine, src: seq<int>)
    requires Progresses(m) && !m.roomFirst && |src| == 2
    requires var t := TrailOf(m, src);
      t.More? && t.used == 1 && |t.units| == 3 && t.bad && t.next == TrailOf(m, src[1..])
    requires var last := TrailOf(m, src[1..]);
      last.More? && last.used == 1 && |last.units| == 4 && !last.bad && last.next.Done?
    ensures Calls(m, src, [4, 4, 4]).result == ConversionOK && Convert(m, src, 8).result == SourceIllegal
  {
    TwoTurns(TrailOf(m, src), TrailOf(m, src[1..]));
    assert [4, 4, 4][1..] == [4, 4];
    assert Calls(m, src[1..], [4, 4]) == Convert(m, src[1..], 4);
  }

  lemma TwoTurns(t: Trail, last: Trail)
    requires t.More? && t.used == 1 && |t.units| == 3 && t.bad && t.next == last
    requires last.More? && last.used == 1 && |last.units| == 4 && !last.bad && last.next.Done?
    ensures Run(t, false, 4, ConversionOK).result == TargetExhausted && Run(t, false, 4, ConversionOK).used == 1
    ensures Run(last, false, 4, ConversionOK).result == ConversionOK
    ensures Run(t, false, 8, ConversionOK).result == SourceIllegal
  {
    assert Run(last, false, 5, SourceIllegal).result == SourceIllegal;
  }
}
