/** Conversion from UTF-32 in pieces. A character above the range makes the result SourceIllegal without ending the
    call, and TargetExhausted overwrites that: then the next call does not know of it. Here is, on the source, when. A
    clause that says `P(..) == true` states P as one fact, which the verifier does not unfold there. */
module ResumingUtf32 {
  import opened Unicode
  import opened ConvertUtfSpec
  import opened Machines
  import opened Transcoding
  import opened Resuming

  predicate Above(v: int) {
    v > 0x10FFFF
  }

  predicate AnyAbove(src: seq<int>) {
    exists i :: 0 <= i < |src| && Above(src[i])
  }

  predicate AllAbove(src: seq<int>) {
    forall i :: 0 <= i < |src| ==> Above(src[i])
  }

  predicate NoSurrogate(src: seq<int>) {
    forall i :: 0 <= i < |src| ==> !IsSurrogate(src[i])
  }

  /** Some calls with targets that hold one character forget that the source was illegal: a character above the range
      stands in front of the last one, which is in range; the strict converter does not stop at a surrogate; and what
      stands in front of the last character cannot all go into the smallest target together with it. */
  predicate CanForget(to: Form, flags: ConversionFlags, src: seq<int>) {
    && |src| >= 2
    && AnyAbove(src[..|src| - 1]) && !Above(src[|src| - 1])
    && (flags.StrictConversion? ==> NoSurrogate(src))
    && if to.Utf8? then !(|src| == 2 && src[1] < 0x80) else flags.StrictConversion? && FillsTarget16(src)
  }

  /** The strict converter to UTF-16 writes nothing for a character above the range, and it stops in front of the last
      character if that needs two units and one is left, or if the one before it has filled a target of two units or
      more. */
  predicate FillsTarget16(src: seq<int>)
    requires |src| >= 2
  {
    var n := |src|;
    if src[n - 1] > 0xFFFF then !AllAbove(src[..n - 1])
    else !Above(src[n - 2]) && (src[n - 2] > 0xFFFF || !AllAbove(src[..n - 2]))
  }

  // ------------------------------------------------------------------ the turns on the source

  /** How many units one character is written with. */
  function Width(to: Form, flags: ConversionFlags, v: int): nat {
    if to.Utf8? then if v < 0x80 then 1 else if v < 0x800 then 2 else if v <= 0xFFFF || Above(v) then 3 else 4
    else if v <= 0xFFFF then 1 else if !Above(v) then 2 else if flags.StrictConversion? then 0 else 1
  }

  function Widths(to: Form, flags: ConversionFlags, src: seq<int>): nat {
    if src == [] then 0 else Width(to, flags, src[0]) + Widths(to, flags, src[1..])
  }

  /** The character stops the converter. */
  predicate Blocks(flags: ConversionFlags, v: int) {
    flags.StrictConversion? && IsSurrogate(v)
  }

  /** The character is flagged. */
  predicate Flags(to: Form, flags: ConversionFlags, v: int) {
    Above(v) && (to.Utf8? || flags.StrictConversion?)
  }

  function M(to: Form, flags: ConversionFlags): (m: Machine)
    requires to != Utf32
    ensures Progresses(m)
  {
    MachineOf(Utf32, to, flags)
  }

  lemma TurnIs(to: Form, flags: ConversionFlags, src: seq<int>)
    requires to != Utf32 && src != [] && InForm(Utf32, src)
    ensures var turn := M(to, flags).turn(src);
      if Blocks(flags, src[0]) then turn == Stop(SourceIllegal)
      else (turn.Take? && turn.used == 1 && |turn.units| == Width(to, flags, src[0])
            && (turn.bad <==> Flags(to, flags, src[0])))
  {
  }

  /** The trail of a source, seen from the source. */
  predicate Follows(to: Form, flags: ConversionFlags, src: seq<int>, t: Trail) {
    if src == [] then t.Done?
    else if Blocks(flags, src[0]) then t == Halt(SourceIllegal)
    else FollowsOne(to, flags, src[0], t) && Follows(to, flags, src[1..], t.next)
  }

  predicate FollowsOne(to: Form, flags: ConversionFlags, v: int, t: Trail) {
    t.More? && t.used == 1 && |t.units| == Width(to, flags, v) && (t.bad <==> Flags(to, flags, v))
  }

  lemma {:induction false} Followed(to: Form, flags: ConversionFlags, src: seq<int>)
    requires to != Utf32 && InForm(Utf32, src)
    ensures Follows(to, flags, src, TrailOf(M(to, flags), src))
    decreases |src|
  {
    if src != [] {
      TurnIs(to, flags, src);
      Followed(to, flags, src[1..]);
    }
  }

  /** Up to a cut: how many characters, whether one is flagged, and how many units are written. */
  lemma {:induction false} CutIs(to: Form, flags: ConversionFlags, src: seq<int>, t: Trail, n: nat)
    requires Follows(to, flags, src, t) && Cut(t, n)
    ensures n <= |src| && Follows(to, flags, src[n..], Drop(t, n))
    ensures |Written(t, n)| == Widths(to, flags, src[..n])
    ensures Flagged(t, n) <==> AnyFlagged(to, flags, src[..n])
    ensures NoneBlocks(flags, src[..n])
    decreases n
  {
    if n == 0 {
      assert src[0..] == src;
    } else {
      CutIs(to, flags, src[1..], t.next, n - 1);
      assert src[..n] == [src[0]] + src[1..][..n - 1] && src[1..][n - 1..] == src[n..];
      FirstFlagged(to, flags, src[0], src[1..][..n - 1]);
    }
  }

  predicate AnyFlagged(to: Form, flags: ConversionFlags, src: seq<int>) {
    exists i :: 0 <= i < |src| && Flags(to, flags, src[i])
  }

  predicate NoneBlocks(flags: ConversionFlags, src: seq<int>) {
    forall i :: 0 <= i < |src| ==> !Blocks(flags, src[i])
  }

  lemma FirstFlagged(to: Form, flags: ConversionFlags, v: int, rest: seq<int>)
    ensures AnyFlagged(to, flags, [v] + rest) <==> Flags(to, flags, v) || AnyFlagged(to, flags, rest)
    ensures NoneBlocks(flags, [v] + rest) <==> !Blocks(flags, v) && NoneBlocks(flags, rest)
    ensures Widths(to, flags, [v] + rest) == Width(to, flags, v) + Widths(to, flags, rest)
  {
    var all := [v] + rest;
    assert all[1..] == rest && all[0] == v;
    assert forall i :: 0 <= i < |rest| ==> all[i + 1] == rest[i];
    if AnyFlagged(to, flags, all) {
      var i :| 0 <= i < |all| && Flags(to, flags, all[i]);
      assert i > 0 ==> rest[i - 1] == all[i];
    }
  }

  lemma {:induction false} WidthsConcat(to: Form, flags: ConversionFlags, a: seq<int>, b: seq<int>)
    ensures Widths(to, flags, a + b) == Widths(to, flags, a) + Widths(to, flags, b)
    decreases |a|
  {
    if a == [] {
      assert a + b == b;
    } else {
      assert a + b == [a[0]] + (a[1..] + b) && a == [a[0]] + a[1..];
      FirstFlagged(to, flags, a[0], a[1..] + b);
      WidthsConcat(to, flags, a[1..], b);
    }
  }

  // ------------------------------------------------------------------ calls that forget

  predicate Whole(t: Trail) {
    t.Done? || (t.More? && Whole(t.next))
  }

  lemma {:induction false} RunOk(t: Trail, roomFirst: bool, room: nat, sofar: ConversionResult)
    requires Proper(t) && Run(t, roomFirst, room, sofar).result.ConversionOK? && !sofar.TargetExhausted?
    ensures Clean(t) && Whole(t) && sofar.ConversionOK?
  {
    if t.More? {
      RunOk(t.next, roomFirst, room - |t.units|, if t.bad then SourceIllegal else sofar);
    }
  }

  lemma {:induction false} CutOk(t: Trail, n: nat)
    requires Cut(t, n) && !Flagged(t, n) && Clean(Drop(t, n)) && Whole(Drop(t, n))
    ensures Clean(t) && Whole(t)
  {
    if n > 0 { CutOk(t.next, n - t.used); }
  }

  /** Calls that forget nothing and end well have met nothing bad. */
  lemma {:induction false} OkIsClean(t: Trail, roomFirst: bool, rooms: seq<nat>)
    requires Proper(t) && Resumed(t, roomFirst, rooms).result.ConversionOK? && !Forgot(t, roomFirst, rooms)
    ensures Clean(t) && Whole(t)
    decreases |rooms|
  {
    var o := Run(t, roomFirst, rooms[0], ConversionOK);
    if o.result.TargetExhausted? {
      Exits(t, roomFirst, rooms[0], ConversionOK);
      DropProper(t, o.used);
      OkIsClean(Drop(t, o.used), roomFirst, rooms[1..]);
      CutOk(t, o.used);
    } else {
      RunOk(t, roomFirst, rooms[0], ConversionOK);
    }
  }

  lemma {:induction false} CleanIs(to: Form, flags: ConversionFlags, src: seq<int>, t: Trail)
    requires Follows(to, flags, src, t)
    ensures Clean(t) && Whole(t) <==> NoneBlocks(flags, src) && !AnyFlagged(to, flags, src)
    decreases |src|
  {
    if src != [] {
      assert src == [src[0]] + src[1..];
      FirstFlagged(to, flags, src[0], src[1..]);
      if t.More? { CleanIs(to, flags, src[1..], t.next); }
    }
  }

  /** Where a call runs out of room: the smallest target is filled, or the next character does not go in any more. */
  predicate StopsBefore(to: Form, flags: ConversionFlags, src: seq<int>, p: nat)
    requires p < |src|
  {
    var written := Widths(to, flags, src[..p]);
    if to.Utf8? then written + Width(to, flags, src[p]) >= 5
    else (written >= 2 && p > 0 && Width(to, flags, src[p - 1]) > 0) || (written >= 1 && Width(to, flags, src[p]) == 2)
  }

  /** The converter that looks at the room first stops at once when the target is full. */
  lemma {:induction false} LastWrites(to: Form, flags: ConversionFlags, src: seq<int>, t: Trail, room: nat,
                                      sofar: ConversionResult)
    requires Follows(to, flags, src, t)
    requires var o := Run(t, true, room, sofar); o.result.TargetExhausted? && |o.out| == room && 0 < o.used <= |src|
    ensures Width(to, flags, src[Run(t, true, room, sofar).used - 1]) > 0
    decreases |src|
  {
    var rest := if t.bad then SourceIllegal else sofar;
    if Run(t.next, true, room - |t.units|, rest).used > 0 {
      LastWrites(to, flags, src[1..], t.next, room - |t.units|, rest);
    }
  }

  lemma CallStops(to: Form, flags: ConversionFlags, src: seq<int>, t: Trail, room: nat)
    requires to != Utf32 && Follows(to, flags, src, t) && Proper(t) && room >= OneCharacter(to)
    requires Run(t, to.Utf16?, room, ConversionOK).result.TargetExhausted?
    ensures var p := Run(t, to.Utf16?, room, ConversionOK).used; p < |src| && StopsBefore(to, flags, src, p)
  {
    var o := Run(t, to.Utf16?, room, ConversionOK);
    Exits(t, to.Utf16?, room, ConversionOK);
    CutIs(to, flags, src, t, o.used);
    if to.Utf16? && |o.out| == room {
      assert o.used > 0;
      LastWrites(to, flags, src, t, room, ConversionOK);
    }
  }

  lemma StopsShift(to: Form, flags: ConversionFlags, src: seq<int>, u: nat, p: nat)
    requires u <= |src| && p < |src[u..]| && p > 0 && StopsBefore(to, flags, src[u..], p)
    ensures StopsBefore(to, flags, src, u + p)
  {
    assert src[..u + p] == src[..u] + src[u..][..p];
    WidthsConcat(to, flags, src[..u], src[u..][..p]);
  }

  /** The last call of some that forget: where it starts, one has run out of room; behind that place nothing is
      flagged. */
  ghost predicate Boundary(to: Form, flags: ConversionFlags, src: seq<int>, p: nat) {
    && 0 < p < |src| && AnyFlagged(to, flags, src[..p]) && !AnyFlagged(to, flags, src[p..])
    && NoneBlocks(flags, src) && StopsBefore(to, flags, src, p)
  }

  lemma BoundaryShift(to: Form, flags: ConversionFlags, src: seq<int>, u: nat, p: nat)
    requires u <= |src| && NoneBlocks(flags, src[..u]) && Boundary(to, flags, src[u..], p)
    ensures Boundary(to, flags, src, u + p)
  {
    StopsShift(to, flags, src, u, p);
    assert src[u..][p..] == src[u + p..];
    var i :| 0 <= i < p && Flags(to, flags, src[u..][..p][i]);
    assert src[..u + p][u + i] == src[u..][..p][i];
    forall i | 0 <= i < |src| ensures !Blocks(flags, src[i]) {
      assert if i < u then src[i] == src[..u][i] else src[i] == src[u..][i - u];
    }
  }

  lemma BoundaryHere(to: Form, flags: ConversionFlags, src: seq<int>, u: nat)
    requires u < |src| && AnyFlagged(to, flags, src[..u]) && !AnyFlagged(to, flags, src[u..])
    requires NoneBlocks(flags, src[..u]) && NoneBlocks(flags, src[u..]) && StopsBefore(to, flags, src, u)
    ensures Boundary(to, flags, src, u)
  {
    forall i | 0 <= i < |src| ensures !Blocks(flags, src[i]) {
      assert if i < u then src[i] == src[..u][i] else src[i] == src[u..][i - u];
    }
  }

  /** What a call that runs out of room has done. */
  lemma FirstCallStops(to: Form, flags: ConversionFlags, src: seq<int>, t: Trail, room: nat, u: nat, rest: Trail)
    requires to != Utf32 && Follows(to, flags, src, t) && Proper(t) && room >= OneCharacter(to)
    requires Run(t, to.Utf16?, room, ConversionOK).result.TargetExhausted?
    requires u == Run(t, to.Utf16?, room, ConversionOK).used
    requires Cut(t, u) && rest == Drop(t, u)
    ensures u < |src| && StopsBefore(to, flags, src, u) && NoneBlocks(flags, src[..u])
    ensures Follows(to, flags, src[u..], rest) && Proper(rest) && (Flagged(t, u) <==> AnyFlagged(to, flags, src[..u]))
  {
    DropProper(t, u);
    CutIs(to, flags, src, t, u);
    CallStops(to, flags, src, t, room);
  }

  lemma {:induction false} HasBoundary(to: Form, flags: ConversionFlags, src: seq<int>, t: Trail, rooms: seq<nat>)
    returns (p: nat)
    requires to != Utf32 && Follows(to, flags, src, t) && Proper(t)
    requires forall i :: 0 <= i < |rooms| ==> rooms[i] >= OneCharacter(to)
    requires Resumed(t, to.Utf16?, rooms).result.ConversionOK? && Forgot(t, to.Utf16?, rooms)
    ensures Boundary(to, flags, src, p) == true
    decreases |rooms|
  {
    var u := Run(t, to.Utf16?, rooms[0], ConversionOK).used;
    Exits(t, to.Utf16?, rooms[0], ConversionOK);
    var rest := Drop(t, u);
    FirstCallStops(to, flags, src, t, rooms[0], u, rest);
    if Forgot(rest, to.Utf16?, rooms[1..]) {
      p := HasBoundary(to, flags, src[u..], rest, rooms[1..]);
      BoundaryShift(to, flags, src, u, p);
      p := u + p;
    } else {
      OkIsClean(rest, to.Utf16?, rooms[1..]);
      CleanIs(to, flags, src[u..], rest);
      BoundaryHere(to, flags, src, u);
      p := u;
    }
  }

  lemma {:induction false} NoWidth(to: Form, flags: ConversionFlags, src: seq<int>)
    requires to.Utf16? && flags.StrictConversion?
    ensures Widths(to, flags, src) == 0 <==> AllAbove(src)
    decreases |src|
  {
    if src != [] {
      NoWidth(to, flags, src[1..]);
      assert src == [src[0]] + src[1..];
      assert forall i :: 0 <= i < |src[1..]| ==> src[1..][i] == src[i + 1];
    }
  }

  lemma LastWidth(to: Form, flags: ConversionFlags, src: seq<int>, p: nat)
    requires p < |src|
    ensures Widths(to, flags, src[..p + 1]) == Widths(to, flags, src[..p]) + Width(to, flags, src[p])
  {
    assert src[..p + 1] == src[..p] + [src[p]];
    WidthsConcat(to, flags, src[..p], [src[p]]);
    assert [src[p]][1..] == [];
  }

  lemma BoundaryForgets8(flags: ConversionFlags, src: seq<int>, p: nat)
    requires Boundary(Utf8, flags, src, p)
    ensures CanForget(Utf8, flags, src)
  {
    var n := |src|;
    var i :| 0 <= i < p && Flags(Utf8, flags, src[..p][i]);
    assert src[..n - 1][i] == src[i] && src[p..][n - 1 - p] == src[n - 1];
    if n == 2 {
      LastWidth(Utf8, flags, src, 0);
    }
  }

  lemma BoundaryForgets16(flags: ConversionFlags, src: seq<int>, p: nat)
    requires Boundary(Utf16, flags, src, p)
    ensures CanForget(Utf16, flags, src)
  {
    var n := |src|;
    var i :| 0 <= i < p && Flags(Utf16, flags, src[..p][i]);
    assert src[..n - 1][i] == src[i] && src[p..][n - 1 - p] == src[n - 1];
    NoWidth(Utf16, flags, src[..p]);
    if src[n - 1] > 0xFFFF {
      var j :| 0 <= j < p && !Above(src[..p][j]);
      assert src[..n - 1][j] == src[j];
    } else {
      BoundaryBehind16(flags, src, p);
    }
  }

  /** The last character is one unit, so there is another one in range before it, and more than one unit before that. */
  lemma BoundaryBehind16(flags: ConversionFlags, src: seq<int>, p: nat)
    requires Boundary(Utf16, flags, src, p) && flags.StrictConversion? && src[|src| - 1] <= 0xFFFF
    ensures FillsTarget16(src)
  {
    var n := |src|;
    NoWidth(Utf16, flags, src[..p]);
    if p < n - 1 {
      assert src[p..][n - 2 - p] == src[n - 2];
      var j :| 0 <= j < p && !Above(src[..p][j]);
      assert src[..n - 2][j] == src[j];
    } else {
      LastWidth(Utf16, flags, src, n - 2);
      NoWidth(Utf16, flags, src[..n - 2]);
    }
  }

  // ------------------------------------------------------------------ a call that makes the next one forget

  /** A target that the characters before n fill, or into which the one at n does not go any more. */
  ghost predicate Ends(to: Form, flags: ConversionFlags, src: seq<int>, n: nat, room: nat)
    requires n < |src|
  {
    var written := Widths(to, flags, src[..n]);
    || (to.Utf16? && room == written && (n == 0 || Width(to, flags, src[n - 1]) > 0))
    || (written <= room < written + Width(to, flags, src[n]) && (to.Utf16? ==> room > written))
  }

  lemma EndsNext(to: Form, flags: ConversionFlags, src: seq<int>, n: nat, room: nat)
    requires 0 < n < |src| && Ends(to, flags, src, n, room)
    ensures var w := Width(to, flags, src[0]);
      w <= room && (to.Utf16? ==> room > 0) && Ends(to, flags, src[1..], n - 1, room - w)
  {
    assert src[..n] == [src[0]] + src[1..][..n - 1];
    FirstFlagged(to, flags, src[0], src[1..][..n - 1]);
    if to.Utf16? && room == Widths(to, flags, src[..n]) && Width(to, flags, src[n - 1]) > 0 {
      LastWidth(to, flags, src, n - 1);
    }
  }

  lemma {:induction false} StopsThere(to: Form, flags: ConversionFlags, src: seq<int>, t: Trail, n: nat, room: nat,
                                      sofar: ConversionResult)
    requires to != Utf32 && Follows(to, flags, src, t) && NoneBlocks(flags, src) && n < |src|
    requires Ends(to, flags, src, n, room)
    ensures var o := Run(t, to.Utf16?, room, sofar); o.result.TargetExhausted? && o.used == n
    decreases n
  {
    assert !Blocks(flags, src[0]);
    if n > 0 {
      EndsNext(to, flags, src, n, room);
      assert forall i :: 0 <= i < |src[1..]| ==> src[1..][i] == src[i + 1];
      StopsThere(to, flags, src[1..], t.next, n - 1, room - |t.units|, if t.bad then SourceIllegal else sofar);
    }
  }

  /** The room that ends a call in front of the last character. */
  lemma RoomBeforeLast(to: Form, flags: ConversionFlags, src: seq<int>) returns (room: nat)
    requires to != Utf32 && CanForget(to, flags, src)
    ensures room >= OneCharacter(to) && Ends(to, flags, src, |src| - 1, room)
  {
    var n := |src| - 1;
    var written := Widths(to, flags, src[..n]);
    if to.Utf8? {
      room := written + Width(to, flags, src[n]) - 1;
      AboveWidth8(flags, src, n);
    } else {
      NoWidth(to, flags, src[..n]);
      if src[n] > 0xFFFF {
        room := written + 1;
      } else {
        room := written;
        LastWidth(to, flags, src, n - 1);
        NoWidth(to, flags, src[..n - 1]);
      }
    }
  }

  lemma AboveWidth8(flags: ConversionFlags, src: seq<int>, n: nat)
    requires CanForget(Utf8, flags, src) && n == |src| - 1
    ensures Widths(Utf8, flags, src[..n]) + Width(Utf8, flags, src[n]) >= 5
  {
    var i :| 0 <= i < n && Above(src[..n][i]);
    assert src[..n] == src[..i] + ([src[i]] + src[i + 1..n]);
    WidthsConcat(Utf8, flags, src[..i], [src[i]] + src[i + 1..n]);
    FirstFlagged(Utf8, flags, src[i], src[i + 1..n]);
    if n > 1 {
      SomeWidth8(flags, src[..i]);
      SomeWidth8(flags, src[i + 1..n]);
    }
  }

  lemma SomeWidth8(flags: ConversionFlags, src: seq<int>)
    ensures src != [] ==> Widths(Utf8, flags, src) >= 1
  {
  }

  /** Then the next call gets to the end, and knows of nothing. */
  lemma ForgetsThere(to: Form, flags: ConversionFlags, src: seq<int>, t: Trail, room: nat, more: seq<nat>)
    requires to != Utf32 && CanForget(to, flags, src) && Follows(to, flags, src, t) && Proper(t)
    requires Ends(to, flags, src, |src| - 1, room) && more != [] && more[0] >= OneCharacter(to)
    ensures Resumed(t, to.Utf16?, [room] + more).result.ConversionOK? && Forgot(t, to.Utf16?, [room] + more)
  {
    var n := |src| - 1;
    StopsThere(to, flags, src, t, n, room, ConversionOK);
    Exits(t, to.Utf16?, room, ConversionOK);
    CutIs(to, flags, src, t, n);
    var i :| 0 <= i < n && Above(src[..n][i]);
    assert Flags(to, flags, src[..n][i]);
    assert src[n..] == [src[n]] && [src[n]][1..] == [];
    assert ([room] + more)[1..] == more;
    LastFits(to, flags, src[n], Drop(t, n), more[0]);
  }

  lemma LastFits(to: Form, flags: ConversionFlags, v: int, t: Trail, room: nat)
    requires to != Utf32 && Follows(to, flags, [v], t) && !Above(v) && !Blocks(flags, v) && room >= OneCharacter(to)
    ensures Run(t, to.Utf16?, room, ConversionOK).result.ConversionOK?
  {
    assert [v][1..] == [];
  }

  // ------------------------------------------------------------------ exactly when

  /** Enough calls, each with a target that holds one character. */
  ghost predicate Adequate(to: Form, src: seq<int>, rooms: seq<nat>) {
    |rooms| > |src| && forall i :: 0 <= i < |rooms| ==> rooms[i] >= OneCharacter(to)
  }

  /** These calls are one call with a target of that size, if it is big enough. */
  ghost predicate AsOne(to: Form, flags: ConversionFlags, src: seq<int>, rooms: seq<nat>, big: nat)
    requires to != Utf32
  {
    Convert(M(to, flags), src, big).result.TargetExhausted?
      || Calls(M(to, flags), src, rooms) == Convert(M(to, flags), src, big)
  }

  /** The trail of a source, and what is known of it. */
  lemma TrailKnown(to: Form, flags: ConversionFlags, src: seq<int>, rooms: seq<nat>)
    requires to != Utf32 && InForm(Utf32, src)
    ensures var t := TrailOf(M(to, flags), src);
      && Follows(to, flags, src, t) && Proper(t) && M(to, flags).roomFirst == to.Utf16?
      && Calls(M(to, flags), src, rooms) == Resumed(t, to.Utf16?, rooms)
  {
    Followed(to, flags, src);
    SoundTo(Utf32, to, flags);
    SoundTrail(M(to, flags), src, OneCharacter(to));
    CallsAreResumed(M(to, flags), src, rooms, OneCharacter(to));
  }

  lemma ResumableUnlessForgets(to: Form, flags: ConversionFlags, src: seq<int>, rooms: seq<nat>, big: nat)
    requires to != Utf32 && InForm(Utf32, src) && !CanForget(to, flags, src) && Adequate(to, src, rooms)
    ensures AsOne(to, flags, src, rooms, big)
  {
    if !Convert(M(to, flags), src, big).result.TargetExhausted? {
      var t := TrailOf(M(to, flags), src);
      TrailKnown(to, flags, src, rooms);
      SoundTo(Utf32, to, flags);
      AgreesWithOneCall(M(to, flags), OneCharacter(to), src, rooms, big);
      if Resumed(t, to.Utf16?, rooms).result.ConversionOK? && Forgot(t, to.Utf16?, rooms) {
        var p := HasBoundary(to, flags, src, t, rooms);
        if to.Utf8? { BoundaryForgets8(flags, src, p); } else { BoundaryForgets16(flags, src, p); }
      }
    }
  }

  /** Calls that forget. */
  lemma ForgettingCalls(to: Form, flags: ConversionFlags, src: seq<int>) returns (rooms: seq<nat>)
    requires to != Utf32 && InForm(Utf32, src) && CanForget(to, flags, src)
    ensures Adequate(to, src, rooms) && Calls(M(to, flags), src, rooms).result.ConversionOK?
    ensures Proper(TrailOf(M(to, flags), src)) && Forgot(TrailOf(M(to, flags), src), M(to, flags).roomFirst, rooms)
  {
    var k := OneCharacter(to);
    var room := RoomBeforeLast(to, flags, src);
    rooms := [room] + seq(|src|, _ => k);
    TrailKnown(to, flags, src, rooms);
    ForgetsThere(to, flags, src, TrailOf(M(to, flags), src), room, seq(|src|, _ => k));
  }

  /** And one call with a target that is big enough, which does not. */
  lemma Forgets(to: Form, flags: ConversionFlags, src: seq<int>) returns (rooms: seq<nat>, big: nat)
    requires to != Utf32 && InForm(Utf32, src) && CanForget(to, flags, src)
    ensures Adequate(to, src, rooms)
    ensures Calls(M(to, flags), src, rooms).result.ConversionOK?
    ensures Convert(M(to, flags), src, big).result.SourceIllegal?
  {
    rooms := ForgettingCalls(to, flags, src);
    big := OneCharacter(to) * |src| + 1;
    BigEnough(to, flags, src, big);
    SoundTo(Utf32, to, flags);
    AgreesWithOneCall(M(to, flags), OneCharacter(to), src, rooms, big);
  }

  lemma BigEnough(to: Form, flags: ConversionFlags, src: seq<int>, big: nat)
    requires to != Utf32 && big == OneCharacter(to) * |src| + 1
    ensures !Convert(M(to, flags), src, big).result.TargetExhausted?
  {
    var t, k := TrailOf(M(to, flags), src), OneCharacter(to);
    SoundTo(Utf32, to, flags);
    SoundTrail(M(to, flags), src, k);
    Multiplied(k, Length(t), |src|);
    AmpleRoom(t, M(to, flags).roomFirst, k, big, ConversionOK);
  }

  lemma Multiplied(k: nat, a: nat, b: nat)
    requires a <= b
    ensures k * a <= k * b
  {
  }

  /** Conversion from UTF-32 is resumable on exactly the sources on which nothing can be forgotten. */
  lemma ResumableIff(to: Form, flags: ConversionFlags, src: seq<int>)
    requires to != Utf32 && InForm(Utf32, src)
    ensures (forall rooms, big :: Adequate(to, src, rooms) ==> AsOne(to, flags, src, rooms, big)) <==>
      !CanForget(to, flags, src)
  {
    if CanForget(to, flags, src) {
      var rooms, big := Forgets(to, flags, src);
      assert !AsOne(to, flags, src, rooms, big);
    } else {
      forall rooms, big | Adequate(to, src, rooms) ensures AsOne(to, flags, src, rooms, big) {
        ResumableUnlessForgets(to, flags, src, rooms, big);
      }
    }
  }

  /** So it is, whatever the target sizes, when every character is in range, and for the lenient converter to UTF-16. */
  lemma NothingToForget(to: Form, flags: ConversionFlags, src: seq<int>)
    requires !AnyAbove(src) || (to.Utf16? && flags.LenientConversion?)
    ensures !CanForget(to, flags, src)
  {
    if |src| >= 2 && AnyAbove(src[..|src| - 1]) {
      var i :| 0 <= i < |src| - 1 && Above(src[..|src| - 1][i]);
      assert src[..|src| - 1][i] == src[i];
    }
  }
}
