/** SI_GenericCase and SI_GenericNoCase of SimpleIni.h: the order of sections and keys. */
module IniCompare {
  /** Whether char is signed, which is up to the platform: everything here is proved for both. */
  const SIGNED_CHARS: bool

  /** What the comparison makes of a character. */
  function Code(ch: char): int {
    var n := ch as int;
    if SIGNED_CHARS && 0x80 <= n <= 0xFF then n - 0x100 else n
  }

  /** ASCII only. */
  function Locase(ch: char): char {
    if ch < 'A' || ch > 'Z' then ch else ch - 'A' + 'a'
  }

  function Fold(noCase: bool, ch: char): char {
    if noCase then Locase(ch) else ch
  }

  function Folded(noCase: bool, s: string): (r: string)
    ensures |r| == |s|
    ensures forall i :: 0 <= i < |s| ==> r[i] == Fold(noCase, s[i])
  {
    seq(|s|, i requires 0 <= i < |s| => Fold(noCase, s[i]))
  }

  /** Dictionary order. */
  predicate Before(a: string, b: string)
    decreases |a|
  {
    b != [] && (a == [] || Code(a[0]) < Code(b[0]) || (a[0] == b[0] && Before(a[1..], b[1..])))
  }

  predicate Less(noCase: bool, a: string, b: string) {
    Before(Folded(noCase, a), Folded(noCase, b))
  }

  /** Neither is less. */
  predicate Same(noCase: bool, a: string, b: string) {
    !Less(noCase, a, b) && !Less(noCase, b, a)
  }

  method IsLess(noCase: bool, left: string, right: string) returns (less: bool)
    ensures less == Less(noCase, left, right)
  {
    var l, r := Folded(noCase, left), Folded(noCase, right);
    var i := 0;
    assert l[0..] == l && r[0..] == r;
    while i < |left| && i < |right|
      invariant 0 <= i <= |left| && i <= |right|
      invariant Before(l, r) == Before(l[i..], r[i..])
    {
      var a, b := Fold(noCase, left[i]), Fold(noCase, right[i]);
      assert a == l[i..][0] && b == r[i..][0];
      if a != b {
        return Code(a) < Code(b);
      }
      assert l[i..][1..] == l[i + 1..] && r[i..][1..] == r[i + 1..];
      i := i + 1;
    }
    return i < |right|;
  }

  lemma {:induction false} BeforeIrreflexive(a: string)
    ensures !Before(a, a)
    decreases |a|
  {
    if a != [] {
      BeforeIrreflexive(a[1..]);
    }
  }

  lemma {:induction false} BeforeTransitive(a: string, b: string, c: string)
    requires Before(a, b) && Before(b, c)
    ensures Before(a, c)
    decreases |a|
  {
    if a != [] && a[0] == b[0] == c[0] {
      BeforeTransitive(a[1..], b[1..], c[1..]);
    }
  }

  lemma {:induction false} BeforeTotal(a: string, b: string)
    ensures Before(a, b) || a == b || Before(b, a)
    decreases |a|
  {
    if a != [] && b != [] && a[0] == b[0] {
      BeforeTotal(a[1..], b[1..]);
      if a[1..] == b[1..] {
        assert a == [a[0]] + a[1..] && b == [b[0]] + b[1..];
      }
    }
  }

  /** The order is a strict weak order; what it cannot tell apart is what folds to the same text. */
  lemma SameIsFoldedEqual(noCase: bool, a: string, b: string)
    ensures Same(noCase, a, b) <==> Folded(noCase, a) == Folded(noCase, b)
  {
    BeforeTotal(Folded(noCase, a), Folded(noCase, b));
    BeforeIrreflexive(Folded(noCase, a));
  }

  lemma LessIrreflexive(noCase: bool, a: string)
    ensures !Less(noCase, a, a)
  {
    BeforeIrreflexive(Folded(noCase, a));
  }

  lemma LessTransitive(noCase: bool, a: string, b: string, c: string)
    ensures Less(noCase, a, b) && Less(noCase, b, c) ==> Less(noCase, a, c)
  {
    if Less(noCase, a, b) && Less(noCase, b, c) {
      BeforeTransitive(Folded(noCase, a), Folded(noCase, b), Folded(noCase, c));
    }
  }

  lemma NotLessTransitive(noCase: bool, a: string, b: string, c: string)
    ensures !Less(noCase, a, b) && !Less(noCase, b, c) ==> !Less(noCase, a, c)
  {
    if !Less(noCase, a, b) && !Less(noCase, b, c) {
      BeforeTotal(Folded(noCase, a), Folded(noCase, b));
      BeforeTotal(Folded(noCase, b), Folded(noCase, c));
      if Folded(noCase, a) != Folded(noCase, b) && Folded(noCase, b) != Folded(noCase, c) {
        BeforeTransitive(Folded(noCase, c), Folded(noCase, b), Folded(noCase, a));
      }
      BeforeIrreflexive(Folded(noCase, a));
      LessTransitive(noCase, a, c, a);
    }
  }

  lemma StillLess(noCase: bool, a: string, b: string, c: string)
    requires Less(noCase, a, b) && !Less(noCase, c, b)
    ensures Less(noCase, a, c)
  {
    NotLessTransitive(noCase, a, c, b);
  }

  lemma LessAsymmetric(noCase: bool, a: string, b: string)
    ensures !(Less(noCase, a, b) && Less(noCase, b, a))
  {
    LessTransitive(noCase, a, b, a);
    LessIrreflexive(noCase, a);
  }

  /** Names that are the same stand in the same order to every other name. */
  lemma SameOrder(noCase: bool, a: string, b: string, c: string)
    requires Same(noCase, a, b)
    ensures Less(noCase, a, c) == Less(noCase, b, c) && Less(noCase, c, a) == Less(noCase, c, b)
  {
    SameIsFoldedEqual(noCase, a, b);
  }

  // ------------------------------------------------------------------ in characters

  const UPPER: string := "ABCDEFGHIJKLMNOPQRSTUVWXYZ"
  const LOWER: string := "abcdefghijklmnopqrstuvwxyz"

  /** The letters that lose their case, and that no other character changes. */
  lemma Letters(ch: char)
    ensures forall i :: 0 <= i < 26 ==> Locase(UPPER[i]) == LOWER[i]
    ensures ch !in UPPER ==> Locase(ch) == ch
  {
    forall i | 0 <= i < 26 ensures UPPER[i] as int == 65 + i && LOWER[i] as int == 97 + i {
    }
    if 'A' <= ch <= 'Z' {
      assert UPPER[ch as int - 65] == ch;
    }
  }

  /** Within ASCII and beyond it characters of a byte stand in the order of their numbers; where char is signed, those
      beyond come first. */
  lemma CodeOrder(a: char, b: char)
    requires a as int <= 0xFF && b as int <= 0xFF
    ensures Code(a) < Code(b) <==>
      if (a as int < 0x80) == (b as int < 0x80) then a as int < b as int
      else if SIGNED_CHARS then b as int < 0x80 else a as int < 0x80
  {
  }

  /** a and b are the same up to i, and there a ends or has the lesser character. */
  predicate LessAt(noCase: bool, a: string, b: string, i: nat) {
    && i <= |a| && i < |b| && (forall k :: 0 <= k < i ==> Fold(noCase, a[k]) == Fold(noCase, b[k]))
    && (i == |a| || Code(Fold(noCase, a[i])) < Code(Fold(noCase, b[i])))
  }

  lemma {:induction false} BeforeAt(a: string, b: string) returns (i: nat)
    requires Before(a, b)
    ensures i <= |a| && i < |b| && (forall k :: 0 <= k < i ==> a[k] == b[k])
    ensures i == |a| || Code(a[i]) < Code(b[i])
    decreases |a|
  {
    if a == [] || Code(a[0]) < Code(b[0]) {
      i := 0;
    } else {
      var j := BeforeAt(a[1..], b[1..]);
      i := j + 1;
      forall k | 0 <= k < i ensures a[k] == b[k] {
        assert k > 0 ==> a[1..][k - 1] == b[1..][k - 1];
      }
    }
  }

  lemma {:induction false} AtBefore(a: string, b: string, i: nat)
    requires i <= |a| && i < |b| && (forall k :: 0 <= k < i ==> a[k] == b[k])
    requires i == |a| || Code(a[i]) < Code(b[i])
    ensures Before(a, b)
    decreases i
  {
    if i > 0 {
      assert a[0] == b[0];
      AtBefore(a[1..], b[1..], i - 1);
    }
  }

  /** The order is that of a dictionary: the first difference decides, and a text comes before what it begins. */
  lemma LessIff(noCase: bool, a: string, b: string)
    ensures Less(noCase, a, b) <==> exists i: nat :: LessAt(noCase, a, b, i)
  {
    var l, r := Folded(noCase, a), Folded(noCase, b);
    if Less(noCase, a, b) {
      var i := BeforeAt(l, r);
      forall k | 0 <= k < i ensures Fold(noCase, a[k]) == Fold(noCase, b[k]) {
        assert l[k] == r[k];
      }
      assert LessAt(noCase, a, b, i);
    }
    if i: nat :| LessAt(noCase, a, b, i) {
      AtBefore(l, r, i);
    }
  }
}
