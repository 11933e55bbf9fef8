/** What holds of any converter, whatever it reads and writes: theorems about walking along a trail. A clause that
    says `P(..) == true` states P as one fact, which the verifier does not unfold there. */
module Machines {
  import opened ConvertUtfSpec

  // ------------------------------------------------------------------ places between turns

  /** `n` source units are used up at some place between two turns: no character is split there. */
  predicate Cut(t: Trail, n: nat) {
    n == 0 || (t.More? && t.used <= n && t.used > 0 && Cut(t.next, n - t.used))
  }

  /** The trail from a cut on. */
  function Drop(t: Trail, n: nat): Trail
    requires Cut(t, n)
  {
    if n == 0 then t else Drop(t.next, n - t.used)
  }

  /** What the turns up to a cut write. */
  function Written(t: Trail, n: nat): seq<int>
    requires Cut(t, n)
  {
    if n == 0 then [] else t.units + Written(t.next, n - t.used)
  }

  /** Some turn up to a cut was bad. */
  predicate Flagged(t: Trail, n: nat)
    requires Cut(t, n)
  {
    n != 0 && (t.bad || Flagged(t.next, n - t.used))
  }

  function SoFar(flagged: bool, sofar: ConversionResult): ConversionResult {
    if flagged then SourceIllegal else sofar
  }

  /** What every trail of a converter satisfies: a turn takes something, and a stop is the source's fault. */
  predicate Proper(t: Trail) {
    match t
    case Done => true
    case Halt(why) => why.SourceExhausted? || why.SourceIllegal?
    case More(used, _, _, next) => used > 0 && Proper(next)
  }

  function Length(t: Trail): nat {
    if t.More? then t.used + Length(t.next) else 0
  }

  // ------------------------------------------------------------------ exits

  /** Why a call ends where it does, from what is left of the trail and of the room. */
  predicate Exit(rest: Trail, roomFirst: bool, left: nat, sofar: ConversionResult, result: ConversionResult) {
    if rest.Done? then result == sofar
    else if roomFirst && left == 0 then result == TargetExhausted
    else if rest.Halt? then result == rest.why
    else result == TargetExhausted && left < |rest.units|
  }

  /** Every exit of every converter: the call ends at a cut, it has written exactly what the turns before the cut
      write, and its result tells why it could not go on from there. */
  lemma {:induction false} Exits(t: Trail, roomFirst: bool, room: nat, sofar: ConversionResult)
    requires Proper(t)
    ensures var o := Run(t, roomFirst, room, sofar);
      && Cut(t, o.used)
      && o.out == Written(t, o.used)
      && Exit(Drop(t, o.used), roomFirst, room - |o.out|, SoFar(Flagged(t, o.used), sofar), o.result)
  {
    if t.More? && !(roomFirst && room == 0) && |t.units| <= room {
      Exits(t.next, roomFirst, room - |t.units|, if t.bad then SourceIllegal else sofar);
    }
  }

  /** `big` has room for `out`; the converter that looks at the room first wants one unit more. */
  predicate Fits(roomFirst: bool, out: seq<int>, big: nat) {
    |out| + (if roomFirst then 1 else 0) <= big
  }

  /** A call that had enough room is the same with any other room that is enough. */
  lemma {:induction false} OtherRoom(t: Trail, roomFirst: bool, room: nat, big: nat, sofar: ConversionResult)
    requires !Run(t, roomFirst, room, sofar).result.TargetExhausted?
    requires Fits(roomFirst, Run(t, roomFirst, room, sofar).out, big)
    ensures Run(t, roomFirst, big, sofar) == Run(t, roomFirst, room, sofar)
  {
    if t.More? && !(roomFirst && room == 0) && |t.units| <= room {
      OtherRoom(t.next, roomFirst, room - |t.units|, big - |t.units|, if t.bad then SourceIllegal else sofar);
    }
  }

  /** No turn writes more than k units. */
  predicate AtMost(t: Trail, k: nat) {
    t.More? ==> |t.units| <= k && AtMost(t.next, k)
  }

  /** Room for k units per source unit is enough. */
  lemma {:induction false} AmpleRoom(t: Trail, roomFirst: bool, k: nat, room: nat, sofar: ConversionResult)
    requires Proper(t) && AtMost(t, k) && k >= 1 && !sofar.TargetExhausted?
    requires if roomFirst then room > k * Length(t) else room >= k * Length(t)
    ensures !Run(t, roomFirst, room, sofar).result.TargetExhausted?
  {
    if t.More? {
      Multiples(k, t.used, Length(t.next));
      AmpleRoom(t.next, roomFirst, k, room - |t.units|, if t.bad then SourceIllegal else sofar);
    }
  }

  lemma Multiples(k: nat, a: nat, b: nat)
    requires a >= 1
    ensures k * (a + b) >= k + k * b
  {
    assert k * (a + b) == k * a + k * b;
    assert k * a >= k;
  }

  /** What the result is at the end of a trail matters for the result only, and only if no turn is bad. */
  lemma {:induction false} SoFarMatters(t: Trail, roomFirst: bool, room: nat, sofar: ConversionResult)
    requires Proper(t) && (sofar.ConversionOK? || sofar.SourceIllegal?)
    ensures var x, y := Run(t, roomFirst, room, ConversionOK), Run(t, roomFirst, room, sofar);
      y == Outcome(if x.result.ConversionOK? then sofar else x.result, x.used, x.out)
  {
    if t.More? && !(roomFirst && room == 0) && |t.units| <= room {
      SoFarMatters(t.next, roomFirst, room - |t.units|, if t.bad then SourceIllegal else sofar);
    }
  }

  /** The part of a call that is left when `o` is done with. */
  function Remainder(t: Trail, roomFirst: bool, o: Outcome, big: nat, sofar: ConversionResult): Outcome
    requires Cut(t, o.used) && |o.out| <= big
  {
    Run(Drop(t, o.used), roomFirst, big - |o.out|, SoFar(Flagged(t, o.used), sofar))
  }

  /** A call with little room is the first part of a call with more. */
  lemma {:induction false} Split(t: Trail, roomFirst: bool, room: nat, big: nat, sofar: ConversionResult)
    requires Proper(t) && Fits(roomFirst, Run(t, roomFirst, room, sofar).out, big)
    ensures var o := Run(t, roomFirst, room, sofar);
      Cut(t, o.used) && Run(t, roomFirst, big, sofar) == Prepend(o.used, o.out, Remainder(t, roomFirst, o, big, sofar))
  {
    if t.More? && !(roomFirst && room == 0) && |t.units| <= room {
      var sofar' := if t.bad then SourceIllegal else sofar;
      Split(t.next, roomFirst, room - |t.units|, big - |t.units|, sofar');
      SplitOne(t, roomFirst, Run(t.next, roomFirst, room - |t.units|, sofar'), big, sofar);
    } else {
      PrependNothing(Run(t, roomFirst, big, sofar));
    }
  }

  lemma SplitOne(t: Trail, roomFirst: bool, o: Outcome, big: nat, sofar: ConversionResult)
    requires t.More? && t.used > 0 && Cut(t.next, o.used) && |t.units| + |o.out| <= big && !(roomFirst && big == 0)
    requires var sofar' := if t.bad then SourceIllegal else sofar;
      Run(t.next, roomFirst, big - |t.units|, sofar')
        == Prepend(o.used, o.out, Remainder(t.next, roomFirst, o, big - |t.units|, sofar'))
    ensures var whole := Prepend(t.used, t.units, o);
      Cut(t, whole.used)
        && Run(t, roomFirst, big, sofar) == Prepend(whole.used, whole.out, Remainder(t, roomFirst, whole, big, sofar))
  {
    var sofar' := if t.bad then SourceIllegal else sofar;
    PrependTwice(t.used, t.units, o.used, o.out, Remainder(t.next, roomFirst, o, big - |t.units|, sofar'));
  }

  lemma PrependTwice(a: nat, x: seq<int>, b: nat, y: seq<int>, o: Outcome)
    ensures Prepend(a, x, Prepend(b, y, o)) == Prepend(a + b, x + y, o)
  {
    assert x + (y + o.out) == (x + y) + o.out;
  }

  lemma PrependNothing(o: Outcome)
    ensures Prepend(0, [], o) == o
  {
    assert [] + o.out == o.out;
  }

  // ------------------------------------------------------------------ resuming after TargetExhausted

  /** A caller with small targets: each time a call runs out of room, empty the target and call again from the
      returned source pointer with a target of the next size. */
  function Resumed(t: Trail, roomFirst: bool, rooms: seq<nat>): Outcome
    requires Proper(t)
    decreases |rooms|
  {
    if rooms == [] then Outcome(TargetExhausted, 0, [])
    else
      var o := Run(t, roomFirst, rooms[0], ConversionOK);
      if !o.result.TargetExhausted? then o
      else
        assert Cut(t, o.used) && Proper(Drop(t, o.used))
          by { Exits(t, roomFirst, rooms[0], ConversionOK); DropProper(t, o.used); }
        Prepend(o.used, o.out, Resumed(Drop(t, o.used), roomFirst, rooms[1..]))
  }

  lemma {:induction false} DropProper(t: Trail, n: nat)
    requires Proper(t) && Cut(t, n)
    ensures Proper(Drop(t, n)) && Length(Drop(t, n)) == Length(t) - n
  {
    if n > 0 { DropProper(t.next, n - t.used); }
  }

  /** Some call before the last one met a bad turn and went on. */
  predicate Forgot(t: Trail, roomFirst: bool, rooms: seq<nat>)
    requires Proper(t)
    decreases |rooms|
  {
    if rooms == [] then false
    else
      var o := Run(t, roomFirst, rooms[0], ConversionOK);
      o.result.TargetExhausted? &&
      assert Cut(t, o.used) && Proper(Drop(t, o.used))
        by { Exits(t, roomFirst, rooms[0], ConversionOK); DropProper(t, o.used); }
      (Flagged(t, o.used) || Forgot(Drop(t, o.used), roomFirst, rooms[1..]))
  }

  /** Every call gets somewhere, so the calls come to an end. */
  lemma {:induction false} ResumedEnds(t: Trail, roomFirst: bool, k: nat, rooms: seq<nat>)
    requires Proper(t) && AtMost(t, k) && k >= 1
    requires forall i :: 0 <= i < |rooms| ==> rooms[i] >= k
    requires |rooms| > Length(t)
    ensures !Resumed(t, roomFirst, rooms).result.TargetExhausted?
    decreases |rooms|
  {
    var o := Run(t, roomFirst, rooms[0], ConversionOK);
    if o.result.TargetExhausted? {
      Exits(t, roomFirst, rooms[0], ConversionOK);
      DropProper(t, o.used);
      DropAtMost(t, k, o.used);
      assert o.used > 0;
      ResumedEnds(Drop(t, o.used), roomFirst, k, rooms[1..]);
    }
  }

  lemma {:induction false} DropAtMost(t: Trail, k: nat, n: nat)
    requires AtMost(t, k) && Cut(t, n)
    ensures AtMost(Drop(t, n), k)
  {
    if n > 0 { DropAtMost(t.next, k, n - t.used); }
  }

  /** What is the same, and what may not be, between small calls that have come to an end and one big call. */
  predicate Agrees(t: Trail, roomFirst: bool, rooms: seq<nat>, big: nat, sofar: ConversionResult)
    requires Proper(t)
  {
    var small := Resumed(t, roomFirst, rooms);
    Run(t, roomFirst, big, sofar)
      == Outcome(if small.result.ConversionOK? then SoFar(Forgot(t, roomFirst, rooms), sofar)
                 else small.result, small.used, small.out)
  }

  lemma AgreesOnce(t: Trail, roomFirst: bool, rooms: seq<nat>, big: nat, sofar: ConversionResult)
    requires Proper(t) && (sofar.ConversionOK? || sofar.SourceIllegal?)
    requires rooms != [] && !Run(t, roomFirst, rooms[0], ConversionOK).result.TargetExhausted?
    requires Fits(roomFirst, Resumed(t, roomFirst, rooms).out, big)
    ensures Agrees(t, roomFirst, rooms, big, sofar)
  {
    OtherRoom(t, roomFirst, rooms[0], big, ConversionOK);
    SoFarMatters(t, roomFirst, big, sofar);
  }

  lemma AgreesMore(t: Trail, roomFirst: bool, rooms: seq<nat>, big: nat, sofar: ConversionResult, o: Outcome)
    requires Proper(t) && (sofar.ConversionOK? || sofar.SourceIllegal?)
    requires rooms != [] && o == Run(t, roomFirst, rooms[0], ConversionOK) && o.result.TargetExhausted?
    requires Cut(t, o.used) && Proper(Drop(t, o.used)) && Fits(roomFirst, o.out, big)
    requires Agrees(Drop(t, o.used), roomFirst, rooms[1..], big - |o.out|, SoFar(Flagged(t, o.used), sofar))
    ensures Agrees(t, roomFirst, rooms, big, sofar)
  {
    FirstCall(t, roomFirst, rooms[0], big, sofar);
  }

  /** When the calls end, they have used the same source and written the same units as one call with enough room.
      The result is the same too, unless a call before the last one met a bad turn and the last one got to the end:
      then the one call says SourceIllegal and the last of the small ones does not. */
  lemma {:induction false} ResumedAgrees(t: Trail, roomFirst: bool, rooms: seq<nat>, big: nat, sofar: ConversionResult)
    requires Proper(t)
    requires sofar.ConversionOK? || sofar.SourceIllegal?
    requires !Resumed(t, roomFirst, rooms).result.TargetExhausted?
    requires Fits(roomFirst, Resumed(t, roomFirst, rooms).out, big)
    ensures Agrees(t, roomFirst, rooms, big, sofar)
    decreases |rooms|
  {
    var o := Run(t, roomFirst, rooms[0], ConversionOK);
    if o.result.TargetExhausted? {
      Exits(t, roomFirst, rooms[0], ConversionOK);
      DropProper(t, o.used);
      ResumedAgrees(Drop(t, o.used), roomFirst, rooms[1..], big - |o.out|, SoFar(Flagged(t, o.used), sofar));
      AgreesMore(t, roomFirst, rooms, big, sofar, o);
    } else {
      AgreesOnce(t, roomFirst, rooms, big, sofar);
    }
  }

  lemma FirstCall(t: Trail, roomFirst: bool, room: nat, big: nat, sofar: ConversionResult)
    requires Proper(t)
    requires sofar.ConversionOK? || sofar.SourceIllegal?
    requires Fits(roomFirst, Run(t, roomFirst, room, ConversionOK).out, big)
    ensures var o := Run(t, roomFirst, room, ConversionOK);
      Cut(t, o.used) && Run(t, roomFirst, big, sofar) == Prepend(o.used, o.out, Remainder(t, roomFirst, o, big, sofar))
  {
    SoFarMatters(t, roomFirst, room, sofar);
    Split(t, roomFirst, room, big, sofar);
  }

  // ------------------------------------------------------------------ the trail of a source

  /** A turn writes at most k units, and a turn that stops blames the source. */
  predicate SoundTurn(turn: Turn, k: nat) {
    match turn
    case Take(_, units, _) => |units| <= k
    case Stop(why) => why.SourceExhausted? || why.SourceIllegal?
  }

  ghost predicate Sound(m: Machine, k: nat) {
    forall src :: SoundTurn(m.turn(src), k)
  }

  lemma {:induction false} SoundTrail(m: Machine, src: seq<int>, k: nat)
    requires Progresses(m) && Sound(m, k)
    ensures Proper(TrailOf(m, src)) && AtMost(TrailOf(m, src), k) && Length(TrailOf(m, src)) <= |src|
    decreases |src|
  {
    assert SoundTurn(m.turn(src), k);
    if src != [] && m.turn(src).Take? {
      SoundTrail(m, src[m.turn(src).used..], k);
    }
  }

  /** Dropping a part of the trail is the same as dropping the source units it used. */
  lemma {:induction false} DropSource(m: Machine, src: seq<int>, n: nat)
    requires Progresses(m) && Cut(TrailOf(m, src), n)
    ensures n <= |src| && Drop(TrailOf(m, src), n) == TrailOf(m, src[n..])
    decreases |src|
  {
    if n == 0 {
      assert src[0..] == src;
    } else {
      var used := m.turn(src).used;
      DropSource(m, src[used..], n - used);
      assert src[used..][n - used..] == src[n..];
    }
  }

  /** The first turn before a cut that is not the start. */
  lemma CutStep(m: Machine, src: seq<int>, n: nat)
    requires Progresses(m) && n > 0 && Cut(TrailOf(m, src), n)
    ensures src != [] && m.turn(src).Take? && m.turn(src).used <= n
    ensures var rest := TrailOf(m, src[m.turn(src).used..]);
      Cut(rest, n - m.turn(src).used)
        && Written(TrailOf(m, src), n) == m.turn(src).units + Written(rest, n - m.turn(src).used)
  {
  }

  /** The sources from which the turns up to a cut were taken, each one a suffix of the one before. */
  function Places(m: Machine, src: seq<int>, n: nat): (places: seq<seq<int>>)
    requires Progresses(m) && Cut(TrailOf(m, src), n)
    decreases n
  {
    if n == 0 then [] else [src] + Places(m, src[m.turn(src).used..], n - m.turn(src).used)
  }

  /** The source units taken, and the target units written, in the turns from these places. */
  function Taken(m: Machine, places: seq<seq<int>>): seq<int>
    requires forall i :: 0 <= i < |places| ==> m.turn(places[i]).Take? && m.turn(places[i]).used <= |places[i]|
  {
    if places == [] then [] else places[0][..m.turn(places[0]).used] + Taken(m, places[1..])
  }

  function Units(m: Machine, places: seq<seq<int>>): seq<int>
    requires forall i :: 0 <= i < |places| ==> m.turn(places[i]).Take?
  {
    if places == [] then [] else m.turn(places[0]).units + Units(m, places[1..])
  }

  predicate AllTake(m: Machine, places: seq<seq<int>>) {
    forall i :: 0 <= i < |places| ==> m.turn(places[i]).Take? && m.turn(places[i]).used <= |places[i]|
  }

  predicate Suffix(s: seq<int>, src: seq<int>) {
    |s| <= |src| && s == src[|src| - |s|..]
  }

  lemma PlacesStep(m: Machine, src: seq<int>, n: nat, tail: seq<int>, left: nat)
    requires Progresses(m) && n > 0 && Cut(TrailOf(m, src), n)
    requires m.turn(src).Take? && m.turn(src).used <= n && m.turn(src).used <= |src|
    requires tail == src[m.turn(src).used..] && left == n - m.turn(src).used
    ensures Cut(TrailOf(m, tail), left) && Places(m, src, n) == [src] + Places(m, tail, left)
    ensures Written(TrailOf(m, src), n) == m.turn(src).units + Written(TrailOf(m, tail), left)
  {
    CutStep(m, src, n);
  }

  lemma StepTakes(m: Machine, src: seq<int>, n: nat)
    requires Progresses(m) && n > 0 && Cut(TrailOf(m, src), n)
    ensures m.turn(src).Take? && m.turn(src).used <= n && 1 <= m.turn(src).used <= |src|
  {
    CutStep(m, src, n);
  }

  lemma {:induction false} PlacesTake(m: Machine, src: seq<int>, n: nat)
    requires Progresses(m) && Cut(TrailOf(m, src), n)
    ensures n <= |src| && AllTake(m, Places(m, src, n))
    decreases n
  {
    if n > 0 {
      StepTakes(m, src, n);
      PlacesStep(m, src, n, src[m.turn(src).used..], n - m.turn(src).used);
      PlacesTake(m, src[m.turn(src).used..], n - m.turn(src).used);
    }
  }

  predicate AllSuffixes(places: seq<seq<int>>, src: seq<int>) {
    forall i :: 0 <= i < |places| ==> Suffix(places[i], src)
  }

  lemma SuffixesOfSuffix(places: seq<seq<int>>, tail: seq<int>, src: seq<int>)
    requires AllSuffixes(places, tail) && Suffix(tail, src)
    ensures AllSuffixes([src] + places, src) == true
  {
  }

  lemma {:induction false} PlacesSuffix(m: Machine, src: seq<int>, n: nat)
    requires Progresses(m) && Cut(TrailOf(m, src), n)
    ensures AllSuffixes(Places(m, src, n), src) == true
    decreases n
  {
    if n > 0 {
      StepTakes(m, src, n);
      var tail, left := src[m.turn(src).used..], n - m.turn(src).used;
      PlacesStep(m, src, n, tail, left);
      PlacesSuffix(m, tail, left);
      SuffixesOfSuffix(Places(m, tail, left), tail, src);
    }
  }

  lemma TakenCons(m: Machine, src: seq<int>, rest: seq<seq<int>>)
    requires AllTake(m, [src] + rest)
    ensures m.turn(src).Take? && m.turn(src).used <= |src|
    ensures AllTake(m, rest) && Taken(m, [src] + rest) == src[..m.turn(src).used] + Taken(m, rest)
    ensures Units(m, [src] + rest) == m.turn(src).units + Units(m, rest)
  {
    var all := [src] + rest;
    assert all[1..] == rest && all[0] == src && m.turn(all[0]).Take?;
    forall i | 0 <= i < |rest| ensures m.turn(rest[i]).Take? && m.turn(rest[i]).used <= |rest[i]| {
      assert all[i + 1] == rest[i];
    }
  }

  lemma {:induction false} PlacesTaken(m: Machine, src: seq<int>, n: nat)
    requires Progresses(m) && Cut(TrailOf(m, src), n) && AllTake(m, Places(m, src, n)) && n <= |src|
    ensures Taken(m, Places(m, src, n)) == src[..n]
    decreases n
  {
    if n > 0 {
      StepTakes(m, src, n);
      var used := m.turn(src).used;
      var tail, left := src[used..], n - used;
      PlacesStep(m, src, n, tail, left);
      TakenCons(m, src, Places(m, tail, left));
      PlacesTaken(m, tail, left);
      TakenJoin(src, used, tail, left, n);
    }
  }

  lemma TakenJoin(src: seq<int>, used: nat, tail: seq<int>, left: nat, n: nat)
    requires used <= n <= |src| && tail == src[used..] && left == n - used
    ensures src[..used] + tail[..left] == src[..n]
  {
  }

  lemma {:induction false} PlacesWritten(m: Machine, src: seq<int>, n: nat)
    requires Progresses(m) && Cut(TrailOf(m, src), n) && AllTake(m, Places(m, src, n))
    ensures Units(m, Places(m, src, n)) == Written(TrailOf(m, src), n)
    decreases n
  {
    if n > 0 {
      StepTakes(m, src, n);
      var tail, left := src[m.turn(src).used..], n - m.turn(src).used;
      PlacesStep(m, src, n, tail, left);
      TakenCons(m, src, Places(m, tail, left));
      PlacesWritten(m, tail, left);
    }
  }

  /** The source up to a cut is what these turns took, and what is written is what they wrote. */
  lemma CutPlaces(m: Machine, src: seq<int>, n: nat)
    requires Progresses(m) && Cut(TrailOf(m, src), n)
    ensures var places := Places(m, src, n);
      && n <= |src| && AllTake(m, places)
      && AllSuffixes(places, src)
      && Taken(m, places) == src[..n] && Units(m, places) == Written(TrailOf(m, src), n)
  {
    PlacesTake(m, src, n);
    PlacesSuffix(m, src, n);
    PlacesTaken(m, src, n);
    PlacesWritten(m, src, n);
  }
}
