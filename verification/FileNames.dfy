/** The names of rotated files: split_by_extension in file_helper-inl.h and calc_filename in
    rotating_file_sink-inl.h. The folder separator is a parameter. */
module FileNames {
  predicate NoneAfter(s: string, i: int, c: char) {
    forall k {:trigger s[k]} :: 0 <= k < |s| && i < k ==> s[k] != c
  }

  /** rfind: the last place of c in s, or |s| for npos. */
  function LastIndex(s: string, c: char): (i: nat)
    ensures i <= |s|
    ensures i < |s| ==> s[i] == c && NoneAfter(s, i, c)
    ensures i == |s| ==> NoneAfter(s, -1, c)
  {
    if s == [] then 0
    else if s[|s| - 1] == c then |s| - 1
    else
      var i := LastIndex(s[..|s| - 1], c);
      assert forall k :: 0 <= k < |s| - 1 ==> s[k] == s[..|s| - 1][k];
      if i == |s| - 1 then |s| else i
  }

  /** Base and extension. The subtraction ext_index - 1 cannot wrap, because an extension at 0 has been sent away. */
  function SplitByExtension(fname: string, sep: char): (r: (string, string))
    ensures r.0 + r.1 == fname
  {
    var ext := LastIndex(fname, '.');
    if ext == |fname| || ext == 0 || ext == |fname| - 1 then (fname, [])
    else
      var folder := LastIndex(fname, sep);
      if folder != |fname| && folder >= ext - 1 then (fname, [])
      else (fname[..ext], fname[ext..])
  }

  /** The dot at i starts an extension: it is neither the first nor the last character, no dot and no separator come
      after it, and no separator right before it (a hidden file). */
  predicate StartsExtension(fname: string, sep: char, i: int) {
    0 < i < |fname| - 1 && fname[i] == '.' && fname[i - 1] != sep && NoneAfter(fname, i, '.')
      && NoneAfter(fname, i, sep)
  }

  /** Exactly those dots split a name. */
  lemma HasExtension(fname: string, sep: char, i: nat)
    requires sep != '.'
    ensures StartsExtension(fname, sep, i) <==>
      i < |fname| && SplitByExtension(fname, sep) == (fname[..i], fname[i..]) && fname[i..] != []
  {
  }

  function Digit(n: nat): char
    requires n < 10
  {
    (n as char) + '0'
  }

  /** The decimal digits that format writes for an index. */
  function Decimal(n: nat): (s: string)
    ensures s != []
  {
    if n < 10 then [Digit(n)] else Decimal(n / 10) + [Digit(n % 10)]
  }

  lemma DigitInjective(a: nat, b: nat)
    requires a < 10 && b < 10 && Digit(a) == Digit(b)
    ensures a == b
  {
  }

  /** One digit below ten, the digits of the tenth before the last one from ten on. */
  lemma DecimalShape(n: nat)
    ensures n < 10 <==> |Decimal(n)| == 1
    ensures Decimal(n)[|Decimal(n)| - 1] == Digit(n % 10)
    ensures n >= 10 ==> Decimal(n)[..|Decimal(n)| - 1] == Decimal(n / 10)
  {
  }

  lemma {:induction false} DecimalInjective(a: nat, b: nat)
    requires Decimal(a) == Decimal(b)
    ensures a == b
    decreases a + b
  {
    DecimalShape(a);
    DecimalShape(b);
    DigitInjective(a % 10, b % 10);
    if a >= 10 {
      DecimalInjective(a / 10, b / 10);
    }
  }

  function CalcFilename(filename: string, index: nat, sep: char): string {
    if index == 0 then filename
    else
      var r := SplitByExtension(filename, sep);
      r.0 + "." + Decimal(index) + r.1
  }

  /** A numbered name is longer than the plain one. */
  lemma CalcFilenameLonger(filename: string, i: nat, sep: char)
    ensures i != 0 ==> |CalcFilename(filename, i, sep)| > |filename|
  {
  }

  lemma NumberedInjective(filename: string, i: nat, j: nat, sep: char)
    requires i != 0 && j != 0
    requires CalcFilename(filename, i, sep) == CalcFilename(filename, j, sep)
    ensures i == j
  {
    var r := SplitByExtension(filename, sep);
    var a, b := Decimal(i), Decimal(j);
    var n := |r.0| + 1;
    assert CalcFilename(filename, i, sep)[n..n + |a|] == a;
    assert CalcFilename(filename, j, sep)[n..n + |b|] == b;
    DecimalInjective(i, j);
  }

  /** Different indices give different names. */
  lemma CalcFilenameInjective(filename: string, i: nat, j: nat, sep: char)
    requires CalcFilename(filename, i, sep) == CalcFilename(filename, j, sep)
    ensures i == j
  {
    CalcFilenameLonger(filename, i, sep);
    CalcFilenameLonger(filename, j, sep);
    if i != 0 && j != 0 {
      NumberedInjective(filename, i, j, sep);
    }
  }

  /** The number that digits stand for, the last one with weight one. */
  function Number(digits: string): int {
    if digits == "" then 0
    else Number(digits[..|digits| - 1]) * 10 + (digits[|digits| - 1] as int - '0' as int)
  }

  /** The digits are those of the index, in the usual order and without a zero in front. */
  lemma {:induction false} DecimalReads(n: nat)
    ensures Number(Decimal(n)) == n
    ensures forall i :: 0 <= i < |Decimal(n)| ==> '0' <= Decimal(n)[i] <= '9'
    ensures Decimal(n)[0] == '0' <==> n == 0
  {
    if n >= 10 {
      DecimalReads(n / 10);
      DecimalShape(n);
    } else {
      assert Decimal(n)[..0] == "" && Number("") == 0;
    }
  }

  /** The index goes in front of the dot of the extension, behind a dot of its own; a name without an extension gets it
      at its end. */
  lemma CalcFilenameShape(filename: string, index: nat, sep: char)
    requires sep != '.'
    ensures CalcFilename(filename, 0, sep) == filename
    ensures index > 0 ==> forall i :: StartsExtension(filename, sep, i) ==>
      CalcFilename(filename, index, sep) == filename[..i] + "." + Decimal(index) + filename[i..]
    ensures index > 0 && (forall i :: 0 <= i < |filename| ==> !StartsExtension(filename, sep, i)) ==>
      CalcFilename(filename, index, sep) == filename + "." + Decimal(index)
  {
    forall i | StartsExtension(filename, sep, i) && index > 0
      ensures CalcFilename(filename, index, sep) == filename[..i] + "." + Decimal(index) + filename[i..]
    {
      HasExtension(filename, sep, i);
    }
    var r := SplitByExtension(filename, sep);
    if r.1 != [] {
      HasExtension(filename, sep, |r.0|);
      assert filename[..|r.0|] == r.0 && filename[|r.0|..] == r.1;
    } else {
      assert filename + "." + Decimal(index) + [] == filename + "." + Decimal(index);
    }
  }

  /** The example in the source. */
  lemma CalcFilenameExample()
    ensures CalcFilename("logs/mylog.txt", 3, '/') == "logs/mylog.3.txt"
  {
    CalcFilenameShape("logs/mylog.txt", 3, '/');
    assert StartsExtension("logs/mylog.txt", '/', 10);
  }
}
