/** The rotating log of rotating_file_sink-inl.h on a disk that maps names to contents. Every rename succeeds. */
module RotatingFile {
  import opened FileNames
  import opened Options

  type Disk = map<string, string>

  datatype Error = ZeroMaxSize | TooManyFiles

  datatype Result<T> = Ok(value: T) | Err(error: Error)

  datatype Config = Config(base: string, separator: char, maxSize: nat, maxFiles: nat) {
    function Name(i: nat): string {
      CalcFilename(base, i, separator)
    }
  }

  function At(d: Disk, name: string): Option<string> {
    if name in d then Some(d[name]) else None
  }

  function Content(d: Disk, name: string): string {
    if name in d then d[name] else ""
  }

  /** rename_file_: whatever was at the target is gone. */
  function Renamed(d: Disk, src: string, target: string): Disk
    requires src in d
  {
    ((d - {target})[target := d[src]]) - {src}
  }

  /** The loop of rotate_ from index i down. */
  function Shift(c: Config, d: Disk, i: nat): Disk
    decreases i
  {
    if i == 0 then d
    else Shift(c, if c.Name(i - 1) in d then Renamed(d, c.Name(i - 1), c.Name(i)) else d, i - 1)
  }

  function Rotated(c: Config, d: Disk): Disk {
    Shift(c, d, c.maxFiles)[c.Name(0) := ""]
  }

  /** What a rotation means, file by file: every file moves up one index, the last one is overwritten only if a file
      moves onto it, and a gap moves up like a file. */
  function ShiftedAt(c: Config, d: Disk, i: nat, j: nat): Option<string> {
    if j > i || i == 0 then At(d, c.Name(j))
    else if j == 0 then None
    else if j < i || c.Name(i - 1) in d then At(d, c.Name(j - 1))
    else At(d, c.Name(i))
  }

  lemma NamesDiffer(c: Config, i: nat, j: nat)
    ensures c.Name(i) == c.Name(j) <==> i == j
  {
    if c.Name(i) == c.Name(j) {
      CalcFilenameInjective(c.base, i, j, c.separator);
    }
  }

  lemma {:induction false} ShiftMoves(c: Config, d: Disk, i: nat, j: nat)
    ensures At(Shift(c, d, i), c.Name(j)) == ShiftedAt(c, d, i, j)
    decreases i
  {
    if i > 0 {
      var e := if c.Name(i - 1) in d then Renamed(d, c.Name(i - 1), c.Name(i)) else d;
      ShiftMoves(c, e, i - 1, j);
      NamesDiffer(c, i, i - 1);
      NamesDiffer(c, j, i);
      NamesDiffer(c, j, i - 1);
      if i > 1 {
        NamesDiffer(c, i - 2, i);
        NamesDiffer(c, i - 2, i - 1);
      }
      if j > 0 {
        NamesDiffer(c, j - 1, i);
        NamesDiffer(c, j - 1, i - 1);
      }
    }
  }

  /** Files that are not numbered files of this log are never touched. */
  predicate Foreign(c: Config, name: string) {
    forall i: nat :: i <= c.maxFiles ==> name != c.Name(i)
  }

  lemma {:induction false} ShiftKeeps(c: Config, d: Disk, i: nat, name: string)
    requires Foreign(c, name) && i <= c.maxFiles
    ensures At(Shift(c, d, i), name) == At(d, name)
    decreases i
  {
    if i > 0 {
      ShiftKeeps(c, if c.Name(i - 1) in d then Renamed(d, c.Name(i - 1), c.Name(i)) else d, i - 1, name);
    }
  }

  // ------------------------------------------------------------------ the sink on values

  datatype Sink = Sink(disk: Disk, currentSize: nat)

  /** A record is the formatted message. */
  datatype Op = Log(record: string) | RotateNow

  function Opened(c: Config, d: Disk, rotateOnOpen: bool): Sink {
    var e := if c.Name(0) in d then d else d[c.Name(0) := ""];
    if rotateOnOpen && |e[c.Name(0)]| > 0 then Sink(Rotated(c, e), 0) else Sink(e, |e[c.Name(0)]|)
  }

  function Active(c: Config, s: Sink): string {
    Content(s.disk, c.Name(0))
  }

  predicate Rotates(c: Config, s: Sink, op: Op) {
    op.RotateNow? || (s.currentSize + |op.record| > c.maxSize && Active(c, s) != "")
  }

  function Step(c: Config, s: Sink, op: Op): Sink {
    var d := if Rotates(c, s, op) then Rotated(c, s.disk) else s.disk;
    if op.RotateNow? then Sink(d, s.currentSize)
    else Sink(d[c.Name(0) := Content(d, c.Name(0)) + op.record], if Rotates(c, s, op) then |op.record|
              else s.currentSize + |op.record|)
  }

  function After(c: Config, s: Sink, ops: seq<Op>): Sink
    decreases |ops|
  {
    if ops == [] then s else After(c, Step(c, s, ops[0]), ops[1..])
  }

  function Logged(ops: seq<Op>): string {
    if ops == [] then "" else (if ops[0].Log? then ops[0].record else "") + Logged(ops[1..])
  }

  // ------------------------------------------------------------------ history

  /** The contents of the files from index i down to 0, oldest first. */
  function History(c: Config, d: Disk, i: nat): string
    decreases i
  {
    Content(d, c.Name(i)) + if i == 0 then "" else History(c, d, i - 1)
  }

  /** What one rotation deletes: the last file if one moves onto it; with no room for other files, the active one. */
  function Deleted(c: Config, d: Disk): string {
    if c.maxFiles == 0 then Content(d, c.Name(0))
    else if c.Name(c.maxFiles - 1) in d then Content(d, c.Name(c.maxFiles))
    else ""
  }

  lemma RotatedAt(c: Config, d: Disk, j: nat)
    ensures At(Rotated(c, d), c.Name(j)) == if j == 0 then Some("") else ShiftedAt(c, d, c.maxFiles, j)
  {
    NamesDiffer(c, 0, j);
    ShiftMoves(c, d, c.maxFiles, j);
  }

  lemma RotatedContent(c: Config, d: Disk, j: nat)
    requires j <= c.maxFiles
    ensures Content(Rotated(c, d), c.Name(j)) ==
      if j == 0 then "" else if j < c.maxFiles || c.Name(j - 1) in d then Content(d, c.Name(j - 1))
      else Content(d, c.Name(j))
  {
    RotatedAt(c, d, j);
    assert At(Rotated(c, d), c.Name(j)) == Some(Content(Rotated(c, d), c.Name(j)))
      || Content(Rotated(c, d), c.Name(j)) == "";
  }

  lemma {:induction false} HistoryMoves(c: Config, d: Disk, i: nat)
    requires i < c.maxFiles
    ensures History(c, Rotated(c, d), i) == if i == 0 then "" else History(c, d, i - 1)
    decreases i
  {
    RotatedContent(c, d, i);
    if i > 0 {
      HistoryMoves(c, d, i - 1);
    }
  }

  function Older(c: Config, d: Disk, i: int): string
    requires i < c.maxFiles
  {
    if i < 0 then "" else History(c, d, i)
  }

  /** After a rotation the files below the last hold what the files below them held. */
  lemma RotatedHistory(c: Config, d: Disk)
    requires c.maxFiles > 0
    ensures History(c, Rotated(c, d), c.maxFiles)
      == Content(Rotated(c, d), c.Name(c.maxFiles)) + Older(c, d, c.maxFiles - 2)
  {
    HistoryMoves(c, d, c.maxFiles - 1);
  }

  lemma HistoryAbove(c: Config, d: Disk, i: nat)
    requires i < c.maxFiles
    ensures Older(c, d, i) == Content(d, c.Name(i)) + Older(c, d, i - 1)
  {
  }

  lemma OverwritesLast(c: Config, d: Disk)
    requires c.maxFiles > 0 && c.Name(c.maxFiles - 1) in d
    ensures Deleted(c, d) + History(c, Rotated(c, d), c.maxFiles) == History(c, d, c.maxFiles)
  {
    RotatedContent(c, d, c.maxFiles);
    RotatedHistory(c, d);
    HistoryAbove(c, d, c.maxFiles - 1);
  }

  lemma KeepsLast(c: Config, d: Disk)
    requires c.maxFiles > 0 && c.Name(c.maxFiles - 1) !in d
    ensures History(c, Rotated(c, d), c.maxFiles) == History(c, d, c.maxFiles)
  {
    RotatedContent(c, d, c.maxFiles);
    RotatedHistory(c, d);
    HistoryAbove(c, d, c.maxFiles - 1);
    assert "" + Older(c, d, c.maxFiles - 2) == Older(c, d, c.maxFiles - 2);
  }

  /** Gaps in the numbering included, one rotation loses exactly what it deletes, from the old end. */
  lemma RotationKeepsHistory(c: Config, d: Disk)
    ensures Deleted(c, d) + History(c, Rotated(c, d), c.maxFiles) == History(c, d, c.maxFiles)
  {
    if c.maxFiles == 0 {
      RotatedContent(c, d, 0);
    } else if c.Name(c.maxFiles - 1) in d {
      OverwritesLast(c, d);
    } else {
      KeepsLast(c, d);
    }
  }

  lemma WritingExtendsActive(c: Config, d: Disk, text: string)
    ensures History(c, d[c.Name(0) := Content(d, c.Name(0)) + text], 0) == History(c, d, 0) + text
  {
    assert Content(d, c.Name(0)) + text + "" == Content(d, c.Name(0)) + "" + text;
  }

  lemma WritingSpares(c: Config, d: Disk, text: string, i: nat)
    requires i > 0
    ensures Content(d[c.Name(0) := text], c.Name(i)) == Content(d, c.Name(i))
  {
    NamesDiffer(c, 0, i);
  }

  lemma Appends(front: string, was: string, rest: string, text: string)
    requires front + was == rest
    ensures front + (was + text) == rest + text
  {
  }

  lemma {:induction false} WritingExtends(c: Config, d: Disk, text: string, i: nat)
    ensures History(c, d[c.Name(0) := Content(d, c.Name(0)) + text], i) == History(c, d, i) + text
    decreases i
  {
    if i == 0 {
      WritingExtendsActive(c, d, text);
    } else {
      WritingExtends(c, d, text, i - 1);
      WritingSpares(c, d, Content(d, c.Name(0)) + text, i);
      Appends(Content(d, c.Name(i)), History(c, d, i - 1), History(c, d, i), text);
    }
  }

  function Lost(c: Config, s: Sink, ops: seq<Op>): string
    decreases |ops|
  {
    if ops == [] then ""
    else (if Rotates(c, s, ops[0]) then Deleted(c, s.disk) else "") + Lost(c, Step(c, s, ops[0]), ops[1..])
  }

  lemma WritesAtEnd(c: Config, s: Sink, op: Op)
    ensures History(c, Step(c, s, op).disk, c.maxFiles)
         == History(c, if Rotates(c, s, op) then Rotated(c, s.disk) else s.disk, c.maxFiles)
           + (if op.Log? then op.record else "")
  {
    if op.Log? {
      WritingExtends(c, if Rotates(c, s, op) then Rotated(c, s.disk) else s.disk, op.record, c.maxFiles);
    }
  }

  lemma StepKeepsHistory(c: Config, s: Sink, op: Op)
    ensures (if Rotates(c, s, op) then Deleted(c, s.disk) else "") + History(c, Step(c, s, op).disk, c.maxFiles)
         == History(c, s.disk, c.maxFiles) + (if op.Log? then op.record else "")
  {
    var n, text := c.maxFiles, if op.Log? then op.record else "";
    WritesAtEnd(c, s, op);
    if Rotates(c, s, op) {
      RotationKeepsHistory(c, s.disk);
      Appends(Deleted(c, s.disk), History(c, Rotated(c, s.disk), n), History(c, s.disk, n), text);
    } else {
      Appends("", History(c, s.disk, n), History(c, s.disk, n), text);
    }
  }

  lemma Regroup(lost: string, rest: string, last: string, was: string, first: string, others: string, between: string)
    requires lost + between == was + first && rest + last == between + others
    ensures (lost + rest) + last == was + (first + others)
  {
    assert (lost + rest) + last == lost + (rest + last) == (lost + between) + others;
  }

  /** Over any run the files, read from the highest index down to 0, hold a suffix of the original contents followed by
      everything logged; what is missing in front is what the rotations deleted. */
  lemma {:induction false} HistoryIsSuffix(c: Config, s: Sink, ops: seq<Op>)
    ensures Lost(c, s, ops) + History(c, After(c, s, ops).disk, c.maxFiles)
      == History(c, s.disk, c.maxFiles) + Logged(ops)
    decreases |ops|
  {
    if ops != [] {
      var t := Step(c, s, ops[0]);
      StepKeepsHistory(c, s, ops[0]);
      HistoryIsSuffix(c, t, ops[1..]);
      Regroup(if Rotates(c, s, ops[0]) then Deleted(c, s.disk)
              else "", Lost(c, t, ops[1..]), History(c, After(c, s, ops).disk, c.maxFiles),
              History(c, s.disk, c.maxFiles), if ops[0].Log? then ops[0].record
                else "", Logged(ops[1..]), History(c, t.disk, c.maxFiles));
    }
  }

  lemma {:induction false} ForeignFilesStay(c: Config, s: Sink, ops: seq<Op>, name: string)
    requires Foreign(c, name)
    ensures At(After(c, s, ops).disk, name) == At(s.disk, name)
    decreases |ops|
  {
    if ops != [] {
      ShiftKeeps(c, s.disk, c.maxFiles, name);
      assert name != c.Name(0);
      ForeignFilesStay(c, Step(c, s, ops[0]), ops[1..], name);
    }
  }

  // ------------------------------------------------------------------ opening

  /** Opening starts with an empty file if it is asked to and there is something to put away. */
  predicate PutsAway(c: Config, d: Disk, rotateOnOpen: bool) {
    rotateOnOpen && Content(d, c.Name(0)) != ""
  }

  lemma {:induction false} CreatingKeepsHistory(c: Config, d: Disk, i: nat)
    requires c.Name(0) !in d
    ensures History(c, d[c.Name(0) := ""], i) == History(c, d, i)
    decreases i
  {
    if i > 0 {
      CreatingKeepsHistory(c, d, i - 1);
      WritingSpares(c, d, "", i);
    }
  }

  /** Opening makes the active file if it is not there, and keeps what it holds, unless it is to be put away: then the
      rotation loses what it deletes and nothing else. The size is that of the active file. */
  lemma OpenedMeans(c: Config, d: Disk, rotateOnOpen: bool)
    ensures var s, puts := Opened(c, d, rotateOnOpen), PutsAway(c, d, rotateOnOpen);
      && At(s.disk, c.Name(0)) == Some(if puts then "" else Content(d, c.Name(0)))
      && s.currentSize == |Active(c, s)|
      && (if puts then Deleted(c, d) else "") + History(c, s.disk, c.maxFiles) == History(c, d, c.maxFiles)
      && (!puts ==> forall name :: name != c.Name(0) ==> At(s.disk, name) == At(d, name))
      && (puts ==> forall i: nat :: 0 < i <= c.maxFiles ==>
          At(s.disk, c.Name(i)) == ShiftedAt(c, d, c.maxFiles, i))
  {
    var s, n := Opened(c, d, rotateOnOpen), c.maxFiles;
    if PutsAway(c, d, rotateOnOpen) {
      RotationKeepsHistory(c, d);
      RotatedAt(c, d, 0);
      forall i: nat | 0 < i <= n ensures At(s.disk, c.Name(i)) == ShiftedAt(c, d, n, i) {
        RotatedAt(c, d, i);
      }
    } else {
      if c.Name(0) !in d {
        CreatingKeepsHistory(c, d, n);
      }
      assert "" + History(c, s.disk, n) == History(c, s.disk, n);
    }
  }

  lemma OpeningSpares(c: Config, d: Disk, rotateOnOpen: bool, name: string)
    requires Foreign(c, name)
    ensures At(Opened(c, d, rotateOnOpen).disk, name) == At(d, name)
  {
    assert name != c.Name(0);
    ShiftKeeps(c, d, c.maxFiles, name);
  }

  /** The same for a whole life of a sink, from the disk on that it is opened on: what the files hold in the end is
      what they held and what was logged, without what the rotations deleted in front. */
  lemma LifeKeepsHistory(c: Config, d: Disk, rotateOnOpen: bool, ops: seq<Op>)
    ensures var s := Opened(c, d, rotateOnOpen);
      (if PutsAway(c, d, rotateOnOpen) then Deleted(c, d) else "") + Lost(c, s, ops)
        + History(c, After(c, s, ops).disk, c.maxFiles) == History(c, d, c.maxFiles) + Logged(ops)
    ensures forall name :: Foreign(c, name) ==>
      At(After(c, Opened(c, d, rotateOnOpen), ops).disk, name) == At(d, name)
  {
    var s := Opened(c, d, rotateOnOpen);
    OpenedMeans(c, d, rotateOnOpen);
    HistoryIsSuffix(c, s, ops);
    Joined(if PutsAway(c, d, rotateOnOpen) then Deleted(c, d) else "", Lost(c, s, ops),
           History(c, After(c, s, ops).disk, c.maxFiles), History(c, s.disk, c.maxFiles), Logged(ops));
    forall name | Foreign(c, name) ensures At(After(c, s, ops).disk, name) == At(d, name) {
      ForeignFilesStay(c, s, ops, name);
      OpeningSpares(c, d, rotateOnOpen, name);
    }
  }

  lemma Joined(first: string, lost: string, now: string, was: string, logged: string)
    requires lost + now == was + logged
    ensures first + lost + now == (first + was) + logged
  {
    assert first + lost + now == first + (lost + now);
  }

  // ------------------------------------------------------------------ what one operation writes

  /** A record goes behind what is there if it fits by the size, or if nothing is there. Otherwise every file moves up
      one index and the record stands alone. */
  lemma LogMeans(c: Config, s: Sink, record: string)
    ensures var t := Step(c, s, Log(record));
      if s.currentSize + |record| <= c.maxSize || Active(c, s) == "" then
        t == Sink(s.disk[c.Name(0) := Active(c, s) + record], s.currentSize + |record|)
      else
        && t.currentSize == |record| && At(t.disk, c.Name(0)) == Some(record)
        && forall i: nat :: 0 < i <= c.maxFiles ==> At(t.disk, c.Name(i)) == ShiftedAt(c, s.disk, c.maxFiles, i)
  {
    var t, d := Step(c, s, Log(record)), Rotated(c, s.disk);
    if Rotates(c, s, Log(record)) {
      RotatedContent(c, s.disk, 0);
      assert Content(d, c.Name(0)) + record == record;
      forall i: nat | 0 < i <= c.maxFiles ensures At(t.disk, c.Name(i)) == ShiftedAt(c, s.disk, c.maxFiles, i) {
        RotatedAt(c, s.disk, i);
        NamesDiffer(c, 0, i);
      }
    }
  }

  lemma RotateNowMeans(c: Config, s: Sink, i: nat)
    ensures var t := Step(c, s, RotateNow);
      At(t.disk, c.Name(i)) == if i == 0 then Some("") else ShiftedAt(c, s.disk, c.maxFiles, i)
  {
    RotatedAt(c, s.disk, i);
  }

  // ------------------------------------------------------------------ sizes

  /** The active file exists and is no longer than currentSize says. */
  predicate Tracked(c: Config, s: Sink) {
    c.Name(0) in s.disk && |s.disk[c.Name(0)]| <= s.currentSize
  }

  lemma OpenedTracked(c: Config, d: Disk, rotateOnOpen: bool)
    ensures Tracked(c, Opened(c, d, rotateOnOpen))
  {
  }

  lemma StepTracked(c: Config, s: Sink, op: Op)
    requires Tracked(c, s)
    ensures Tracked(c, Step(c, s, op))
  {
  }

  /** However the run went, after a logged record the active file is within the limit or holds that record alone. */
  lemma LogBounds(c: Config, s: Sink, record: string)
    requires Tracked(c, s)
    ensures var a := Active(c, Step(c, s, Log(record))); |a| <= c.maxSize || a == record
  {
  }

  /** A content that is within the limit, a single record, or as it was before the run. */
  predicate Fits(c: Config, before: Disk, ops: seq<Op>, content: string) {
    |content| <= c.maxSize || Log(content) in ops || content in before.Values
  }

  predicate AllFit(c: Config, before: Disk, ops: seq<Op>, d: Disk) {
    forall name :: name in d ==> Fits(c, before, ops, d[name])
  }

  lemma FitsLonger(c: Config, before: Disk, done: seq<Op>, op: Op, d: Disk)
    requires AllFit(c, before, done, d)
    ensures AllFit(c, before, done + [op], d)
  {
    forall name | name in d ensures Fits(c, before, done + [op], d[name]) {
      assert Fits(c, before, done, d[name]);
    }
  }

  lemma {:induction false} ShiftFits(c: Config, before: Disk, ops: seq<Op>, d: Disk, i: nat)
    requires AllFit(c, before, ops, d)
    ensures AllFit(c, before, ops, Shift(c, d, i))
    decreases i
  {
    if i > 0 {
      ShiftFits(c, before, ops, if c.Name(i - 1) in d then Renamed(d, c.Name(i - 1), c.Name(i)) else d, i - 1);
    }
  }

  lemma StepFits(c: Config, before: Disk, s: Sink, ops: seq<Op>, op: Op)
    requires Tracked(c, s) && op in ops && AllFit(c, before, ops, s.disk)
    ensures AllFit(c, before, ops, Step(c, s, op).disk)
  {
    ShiftFits(c, before, ops, s.disk, c.maxFiles);
    if op.Log? {
      LogBounds(c, s, op.record);
      assert op == Log(op.record);
      assert Fits(c, before, ops, Active(c, Step(c, s, op)));
    }
  }

  /** current_size_ never underestimates the active file, and every file of every later disk, active or rotated, is
      within the limit, a single record, or untouched content from before. */
  lemma {:induction false} SizesBounded(c: Config, before: Disk, s: Sink, done: seq<Op>, ops: seq<Op>)
    requires Tracked(c, s) && AllFit(c, before, done, s.disk)
    ensures Tracked(c, After(c, s, ops)) && AllFit(c, before, done + ops, After(c, s, ops).disk)
    decreases |ops|
  {
    if ops == [] {
      assert done + ops == done;
    } else {
      var t := Step(c, s, ops[0]);
      var more := done + [ops[0]];
      FitsLonger(c, before, done, ops[0], s.disk);
      StepFits(c, before, s, more, ops[0]);
      SizesBounded(c, before, t, more, ops[1..]);
      assert more + ops[1..] == done + ops;
    }
  }

  /** currentSize is the size of the active file. */
  predicate Exact(c: Config, s: Sink) {
    s.currentSize == |Active(c, s)|
  }

  /** What one operation does to exactness, whatever came before it: rotate_now leaves currentSize as it was, a
      rotating record sets it right, and any other record changes both sizes alike. */
  lemma StepExact(c: Config, s: Sink, op: Op)
    requires Tracked(c, s)
    ensures Exact(c, Step(c, s, op)) <==> if op.RotateNow? then s.currentSize == 0 else Rotates(c, s, op) || Exact(c, s)
  {
  }

  /** rotate_now leaves currentSize stale unless it was 0. */
  lemma RotateNowGoesStale(c: Config, s: Sink)
    requires Tracked(c, s)
    ensures Exact(c, Step(c, s, RotateNow)) <==> s.currentSize == 0
  {
    StepExact(c, s, RotateNow);
  }

  /** The last operation of a run that decides whether currentSize is exact. */
  datatype Mark = Untouched | Lost | Restored

  function LastMark(c: Config, s: Sink, ops: seq<Op>): Mark
    decreases |ops|
  {
    if ops == [] then Untouched
    else
      var init, op := ops[..|ops| - 1], ops[|ops| - 1];
      var t := After(c, s, init);
      if op.RotateNow? && t.currentSize != 0 then Mark.Lost
      else if op.Log? && Rotates(c, t, op) then Restored
      else LastMark(c, s, init)
  }

  lemma {:induction false} AfterLast(c: Config, s: Sink, ops: seq<Op>, op: Op)
    ensures After(c, s, ops + [op]) == Step(c, After(c, s, ops), op)
    decreases |ops|
  {
    if ops == [] {
      assert [op][1..] == [] && [] + [op] == [op];
    } else {
      assert (ops + [op])[1..] == ops[1..] + [op];
      AfterLast(c, Step(c, s, ops[0]), ops[1..], op);
    }
  }

  lemma {:induction false} RunTracked(c: Config, s: Sink, ops: seq<Op>)
    requires Tracked(c, s)
    ensures Tracked(c, After(c, s, ops))
    decreases |ops|
  {
    if ops != [] {
      StepTracked(c, s, ops[0]);
      RunTracked(c, Step(c, s, ops[0]), ops[1..]);
    }
  }

  /** Which runs leave currentSize exact, from any sink, exact or stale: those in which the last rotate_now at a size
      other than 0 is followed by a record that rotates, and without either those that started exact. */
  lemma {:induction false} ExactIff(c: Config, s: Sink, ops: seq<Op>)
    requires Tracked(c, s)
    ensures Exact(c, After(c, s, ops)) <==>
      match LastMark(c, s, ops) case Untouched => Exact(c, s) case Lost => false case Restored => true
    decreases |ops|
  {
    if ops != [] {
      var init, op := ops[..|ops| - 1], ops[|ops| - 1];
      assert ops == init + [op];
      AfterLast(c, s, init, op);
      RunTracked(c, s, init);
      StepExact(c, After(c, s, init), op);
      ExactIff(c, s, init);
    }
  }

  lemma {:induction false} NeverLost(c: Config, s: Sink, ops: seq<Op>)
    requires RotateNow !in ops
    ensures !LastMark(c, s, ops).Lost?
    decreases |ops|
  {
    if ops != [] { NeverLost(c, s, ops[..|ops| - 1]); }
  }

  /** Without rotate_now, an exact currentSize stays exact, so a record rotates exactly when it does not fit behind
      what is there. */
  lemma ExactWithoutRotateNow(c: Config, s: Sink, ops: seq<Op>)
    requires Tracked(c, s) && Exact(c, s) && RotateNow !in ops
    ensures var t := After(c, s, ops);
      Exact(c, t) && forall record ::
        Rotates(c, t, Log(record)) <==> Active(c, t) != "" && |Active(c, t)| + |record| > c.maxSize
  {
    ExactIff(c, s, ops);
    NeverLost(c, s, ops);
  }

  /** A second rotate_now does not help: the active file is empty before it, and the size is not. */
  lemma StaysStale()
    ensures var c := Config("log", '/', 4, 2);
            var s := Sink(map["log" := "abcd"], 4);
            var t := Step(c, s, RotateNow);
            Exact(c, s) && Active(c, t) == "" && !Exact(c, t) && !Exact(c, Step(c, t, RotateNow))
  {
    var c, s := Config("log", '/', 4, 2), Sink(map["log" := "abcd"], 4);
    var t := Step(c, s, RotateNow);
    assert c.Name(0) == "log";
    StepTracked(c, s, RotateNow);
    RotateNowGoesStale(c, s);
    RotateNowGoesStale(c, t);
  }

  /** The early rotation that follows: two records that fit together end up in two files. */
  lemma EarlyRotation()
    ensures var c := Config("log", '/', 4, 2);
            var t := After(c, Sink(map["log" := "abcd"], 4), [RotateNow, Log("e"), Log("f")]);
            Active(c, t) == "f" && At(t.disk, c.Name(1)) == Some("e")
  {
    var c := Config("log", '/', 4, 2);
    var s := Sink(map["log" := "abcd"], 4);
    var t, u := Step(c, s, RotateNow), Step(c, Step(c, s, RotateNow), Log("e"));
    RotatedAt(c, s.disk, 0);
    assert Active(c, t) == "" && t.currentSize == 4;
    assert Active(c, u) == "e" && u.currentSize == 5;
    RotatedAt(c, u.disk, 1);
    RotatedAt(c, u.disk, 0);
    NamesDiffer(c, 0, 1);
    assert At(Step(c, u, Log("f")).disk, c.Name(1)) == Some("e");
    var ops := [RotateNow, Log("e"), Log("f")];
    assert After(c, s, ops) == After(c, t, ops[1..]) == After(c, u, ops[1..][1..])
      == After(c, Step(c, u, Log("f")), ops[1..][1..][1..]);
  }

  // ------------------------------------------------------------------ the sink as the program keeps it

  class RotatingFileSink {
    const config: Config
    var currentSize: nat
    /** The disk, which the sink shares with nothing else here. */
    var disk: Disk

    function Value(): Sink
      reads this
    {
      Sink(disk, currentSize)
    }

    /** The file that the sink writes to has been opened. */
    constructor Open(c: Config, d: Disk)
      ensures config == c && Value() == Opened(c, d, false)
    {
      config := c;
      var created := if c.Name(0) in d then d else d[c.Name(0) := ""];
      disk := created;
      currentSize := |created[c.Name(0)]|;
    }

    /** The constructor of the program, which may throw. */
    static method Create(c: Config, d: Disk, rotateOnOpen: bool) returns (r: Result<RotatingFileSink>)
      ensures r.Err? <==> c.maxSize == 0 || c.maxFiles > 200000
      ensures r.Err? ==> r.error == if c.maxSize == 0 then ZeroMaxSize else TooManyFiles
      ensures r.Ok? ==> fresh(r.value) && r.value.config == c && r.value.Value() == Opened(c, d, rotateOnOpen)
    {
      if c.maxSize == 0 {
        return Err(ZeroMaxSize);
      }
      if c.maxFiles > 200000 {
        return Err(TooManyFiles);
      }
      var sink := new RotatingFileSink.Open(c, d);
      if rotateOnOpen && sink.currentSize > 0 {
        sink.Rotate();
        sink.currentSize := 0;
      }
      return Ok(sink);
    }

    method RenameFile(src: string, target: string)
      requires src in disk
      modifies this`disk
      ensures disk == Renamed(old(disk), src, target)
    {
      var content := disk[src];
      disk := disk - {target};
      disk := disk[target := content] - {src};
    }

    method Rotate()
      modifies this`disk
      ensures disk == Rotated(config, old(disk))
    {
      var i := config.maxFiles;
      while i > 0
        invariant 0 <= i <= config.maxFiles
        invariant Shift(config, disk, i) == Shift(config, old(disk), config.maxFiles)
      {
        var src := config.Name(i - 1);
        if src in disk {
          RenameFile(src, config.Name(i));
        }
        i := i - 1;
      }
      disk := disk[config.Name(0) := ""];
    }

    method RotateNow()
      modifies this`disk
      ensures Value() == Step(config, old(Value()), Op.RotateNow)
    {
      Rotate();
    }

    method SinkIt(formatted: string)
      requires Tracked(config, Value())
      modifies this
      ensures Tracked(config, Value())
      ensures Value() == Step(config, old(Value()), Log(formatted))
      ensures |disk[config.Name(0)]| <= config.maxSize || disk[config.Name(0)] == formatted
    {
      StepTracked(config, Value(), Log(formatted));
      LogBounds(config, Value(), formatted);
      var newSize := currentSize + |formatted|;
      if newSize > config.maxSize {
        if |disk[config.Name(0)]| > 0 {
          Rotate();
          newSize := |formatted|;
        }
      }
      disk := disk[config.Name(0) := disk[config.Name(0)] + formatted];
      currentSize := newSize;
    }
  }
}
