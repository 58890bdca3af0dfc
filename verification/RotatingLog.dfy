/** The rotating JSON-lines log: an active file and numbered archives, written by attempts that may be denied or die at
    any file operation. File 0 is the active file and file i its archive ".i". */
module RotatingLogs {
  import opened Text
  import opened LogTails

  datatype Policy = Policy(maxFileBytes: int, archiveCount: int, maxRecordBytes: int, maxAge: int)
  {
    predicate Valid() {
      && maxFileBytes >= 256 && 1 <= archiveCount <= 20
      && 128 <= maxRecordBytes <= maxFileBytes && maxAge >= 1
    }
  }

  type Line = seq<Byte>

  datatype LogFile = LogFile(content: seq<Byte>, lastWrite: int)

  type Files = map<nat, LogFile>

  // One record is one JSON object on one line.

  const QUOTE: Byte := 34
  const BACKSLASH: Byte := 92
  const OPEN_BRACE: Byte := 123
  const CLOSE_BRACE: Byte := 125

  datatype Scan = Scan(depth: int, quoted: bool, escaped: bool)

  function Scanned(s: Scan, b: Byte): Scan {
    if s.escaped then s.(escaped := false)
    else if s.quoted then
      if b == BACKSLASH then s.(escaped := true) else s.(quoted := b != QUOTE)
    else if b == QUOTE then s.(quoted := true)
    else if b == OPEN_BRACE then s.(depth := s.depth + 1)
    else if b == CLOSE_BRACE then s.(depth := s.depth - 1)
    else s
  }

  /** How many bytes it takes until the outermost brace is closed; more than there are if it never is. */
  function ClosedAfter(s: seq<Byte>, state: Scan): (n: nat)
    ensures n <= |s| + 1
  {
    if s == [] then 1
    else
      var next := Scanned(state, s[0]);
      if next.depth == 0 && !next.quoted then 1 else 1 + ClosedAfter(s[1..], next)
  }

  predicate IsRecord(line: Line) {
    && line != [] && line[0] == OPEN_BRACE && ClosedAfter(line, Scan(0, false, false)) == |line|
    && forall i :: 0 <= i < |line| ==> !EndsLine(line[i])
  }

  /** A record that was cut short is no record. */
  lemma CutRecordIsNoRecord(line: Line, n: nat)
    requires IsRecord(line) && n < |line|
    ensures !IsRecord(line[..n])
  {
    CutStaysOpen(line, n, Scan(0, false, false));
  }

  lemma {:induction false} CutStaysOpen(s: seq<Byte>, n: nat, state: Scan)
    requires n < |s| && ClosedAfter(s, state) > n
    ensures ClosedAfter(s[..n], state) == n + 1
    decreases n
  {
    if n > 0 {
      CutStaysOpen(s[1..], n - 1, Scanned(state, s[0]));
      assert s[..n][1..] == s[1..][..n - 1];
    }
  }

  // What can be read back.

  function Whole(lines: seq<Line>): (records: seq<Line>)
    ensures |records| <= |lines|
    decreases |lines|
  {
    if lines == [] then []
    else (if IsRecord(lines[0]) then [lines[0]] else []) + Whole(lines[1..])
  }

  /** The whole records of one file. */
  function Records(content: seq<Byte>): seq<Line> {
    Whole(Lines(content))
  }

  /** The whole records of the files from hi - 1 down to lo: the oldest archive first. */
  function ReadRange(files: Files, lo: nat, hi: nat): seq<Line>
    decreases hi
  {
    if hi <= lo then []
    else (if hi - 1 in files then Records(files[hi - 1].content) else []) + ReadRange(files, lo, hi - 1)
  }

  predicate Expired(f: LogFile, now: int, maxAge: int) {
    f.lastWrite < now - maxAge
  }

  // Lines and records of appended text.

  predicate AtLineStart(s: seq<Byte>) {
    s == [] || s[|s| - 1] == LF
  }

  /** Text appended at a line start leaves the lines before it alone. */
  lemma {:induction false} LinesAppend(a: seq<Byte>, b: seq<Byte>)
    requires AtLineStart(a)
    ensures Lines(a + b) == Lines(a) + Lines(b)
    decreases |a|
  {
    hide LineLength, LineSpan, Lines;
    if a == [] {
      NoLines();
      assert a + b == b;
      assert [] + Lines(b) == Lines(b);
    } else {
      SpanOfPrefix(a, b);
      var n := LineSpan(a);
      LinesOf(a);
      LinesOf(a + b);
      LineStartIsKept(a, n);
      assert (a + b)[n..] == a[n..] + b;
      assert (a + b)[..LineLength(a)] == a[..LineLength(a)];
      LinesAppend(a[n..], b);
      FirstAndRest(Lines(a + b), Lines(a), Lines(b));
    }
  }

  lemma FirstAndRest(all: seq<Line>, first: seq<Line>, second: seq<Line>)
    requires |all| >= 1 && |first| >= 1 && all[0] == first[0] && all[1..] == first[1..] + second
    ensures all == first + second
  {
    assert all == [all[0]] + all[1..];
    assert first == [first[0]] + first[1..];
  }

  lemma LineStartIsKept(a: seq<Byte>, n: nat)
    requires AtLineStart(a) && n <= |a|
    ensures AtLineStart(a[n..])
  {
  }

  lemma SpanOfPrefix(a: seq<Byte>, b: seq<Byte>)
    requires a != [] && a[|a| - 1] == LF
    ensures LineLength(a + b) == LineLength(a) && LineSpan(a + b) == LineSpan(a)
  {
    LengthOfPrefix(a, b);
  }

  lemma {:induction false} LengthOfPrefix(a: seq<Byte>, b: seq<Byte>)
    requires LineLength(a) < |a| || (b != [] && EndsLine(b[0]))
    ensures LineLength(a + b) == LineLength(a)
  {
    if a == [] {
      assert a + b == b;
    } else {
      assert (a + b)[0] == a[0];
      if !EndsLine(a[0]) {
        assert (a + b)[1..] == a[1..] + b;
        LengthOfPrefix(a[1..], b);
      }
    }
  }

  /** Ending an unfinished line adds no line. */
  lemma {:induction false} EndingTheLastLine(a: seq<Byte>)
    requires a != [] && !EndsLine(a[|a| - 1])
    ensures Lines(a + [LF]) == Lines(a)
    decreases |a|
  {
    LengthOfPrefix(a, [LF]);
    EndedSpan(a);
    hide LineLength, LineSpan, Lines;
    LinesOf(a);
    LinesOf(a + [LF]);
    var n := LineSpan(a);
    assert (a + [LF])[..LineLength(a)] == a[..LineLength(a)];
    if LineLength(a) == |a| {
      NoLines();
      assert (a + [LF])[n + 1..] == [] && a[n..] == [];
    } else {
      EndedRest(a, n);
      EndingTheLastLine(a[n..]);
    }
    SameLines(Lines(a + [LF]), Lines(a));
  }

  lemma EndedRest(a: seq<Byte>, n: nat)
    requires n < |a|
    ensures (a + [LF])[n..] == a[n..] + [LF] && a[n..] != [] && a[n..][|a[n..]| - 1] == a[|a| - 1]
  {
  }

  lemma SameLines(one: seq<Line>, other: seq<Line>)
    requires |one| >= 1 && |other| >= 1 && one[0] == other[0] && one[1..] == other[1..]
    ensures one == other
  {
    assert one == [one[0]] + one[1..];
    assert other == [other[0]] + other[1..];
  }

  lemma EndedSpan(a: seq<Byte>)
    requires a != [] && !EndsLine(a[|a| - 1]) && LineLength(a + [LF]) == LineLength(a)
    ensures if LineLength(a) == |a| then LineSpan(a) == |a| && LineSpan(a + [LF]) == |a| + 1
            else LineSpan(a) < |a| && LineSpan(a + [LF]) == LineSpan(a)
  {
    hide LineLength;
  }

  lemma {:induction false} WholeAppends(a: seq<Line>, b: seq<Line>)
    ensures Whole(a + b) == Whole(a) + Whole(b)
    decreases |a|
  {
    hide IsRecord;
    if a == [] {
      assert a + b == b;
    } else {
      assert (a + b)[1..] == a[1..] + b && (a + b)[0] == a[0];
      WholeAppends(a[1..], b);
      var first := if IsRecord(a[0]) then [a[0]] else [];
      assert Whole(a) == first + Whole(a[1..]);
      assert Whole(a + b) == first + Whole(a[1..] + b);
    }
  }

  // Reading a range of files.

  lemma {:induction false} RangeSplits(files: Files, lo: nat, mid: nat, hi: nat)
    requires lo <= mid <= hi
    ensures ReadRange(files, lo, hi) == ReadRange(files, mid, hi) + ReadRange(files, lo, mid)
    decreases hi
  {
    if mid < hi {
      RangeSplits(files, lo, mid, hi - 1);
    }
  }

  /** Two logs that agree on a range read alike there. */
  lemma {:induction false} RangeReadsAlike(files: Files, other: Files, lo: nat, hi: nat)
    requires forall i :: lo <= i < hi ==> (i in files <==> i in other)
    requires forall i :: lo <= i < hi && i in files ==> files[i].content == other[i].content
    ensures ReadRange(files, lo, hi) == ReadRange(other, lo, hi)
    decreases hi
  {
    hide Records;
    if lo < hi {
      RangeReadsAlike(files, other, lo, hi - 1);
    }
  }

  lemma {:induction false} EmptyRange(files: Files, lo: nat, hi: nat)
    requires forall i :: lo <= i < hi ==> i !in files
    ensures ReadRange(files, lo, hi) == []
    decreases hi
  {
    if lo < hi {
      EmptyRange(files, lo, hi - 1);
    }
  }

  function Shifted(files: Files, i: nat): Files {
    if i in files then (files - {i})[i + 1 := files[i]] else files
  }

  /** Renaming a file to a free next number changes nothing about what is read. */
  lemma ShiftKeepsReading(files: Files, i: nat, n: nat)
    requires i + 1 !in files && i + 2 <= n
    ensures ReadRange(Shifted(files, i), 0, n) == ReadRange(files, 0, n)
  {
    hide Records;
    var shifted := Shifted(files, i);
    if i in files {
      RangeSplits(files, 0, i + 2, n);
      RangeSplits(shifted, 0, i + 2, n);
      RangeReadsAlike(files, shifted, i + 2, n);
      RangeReadsAlike(files, shifted, 0, i);
      TopTwo(files, i);
      TopTwo(shifted, i);
    }
  }

  lemma TopTwo(files: Files, i: nat)
    ensures ReadRange(files, 0, i + 2) == (if i + 1 in files then Records(files[i + 1].content) else [])
                                          + (if i in files then Records(files[i].content) else [])
                                          + ReadRange(files, 0, i)
  {
    hide Records;
    assert ReadRange(files, 0, i + 2) == (if i + 1 in files then Records(files[i + 1].content) else [])
                                         + ReadRange(files, 0, i + 1);
  }

  // Expiry.

  /** Older archives are older. */
  predicate Aged(files: Files) {
    forall i, j :: i in files && j in files && i < j ==> files[j].lastWrite <= files[i].lastWrite
  }

  /** The archives before `stop` that have expired are gone. */
  function Swept(files: Files, now: int, maxAge: int, stop: nat): Files {
    map i | i in files && !(1 <= i < stop && Expired(files[i], now, maxAge)) :: files[i]
  }

  predicate NoDuplicates(s: seq<Line>) {
    forall i, j :: 0 <= i < j < |s| ==> s[i] != s[j]
  }

  /** Without a middle, or without anything before it, the rest of a suffix is a suffix. */
  lemma NothingLeftOut(top: seq<Line>, middle: seq<Line>, bottom: seq<Line>, landed: seq<Line>)
    requires IsSuffix(top + middle + bottom, landed) && (top == [] || middle == [])
    ensures IsSuffix(top + bottom, landed)
  {
    var whole := top + middle + bottom;
    if top == [] {
      assert whole == middle + bottom && top + bottom == bottom;
      assert whole[|middle|..] == bottom;
    } else {
      assert whole == top + bottom;
    }
  }

  /** Leaving out a middle, of lines that never repeat, leaves no suffix. */
  lemma MiddleLeftOut(top: seq<Line>, middle: seq<Line>, bottom: seq<Line>, landed: seq<Line>)
    requires IsSuffix(top + middle + bottom, landed) && NoDuplicates(landed)
    requires top != [] && middle != []
    ensures !IsSuffix(top + bottom, landed)
  {
    var whole := top + middle + bottom;
    var p := |landed| - |bottom| - 1;
    var q := p - |middle|;
    assert landed[q] == whole[|top| - 1] == top[|top| - 1];
    assert landed[q] != landed[p];
    assert (top + bottom)[|top| - 1] == top[|top| - 1];
    assert landed[|landed| - |top + bottom|..][|top| - 1] == landed[p];
  }

  /** An expiry pass that stops early: what is read is still a contiguous suffix if no record was lost with the expired
      archives it deleted, or none is left in the archives it did not reach. */
  lemma StoppedExpiryKeepsOrder(files: Files, now: int, maxAge: int, first: nat, stop: nat, n: nat, landed: seq<Line>)
    requires 1 <= first <= stop <= n
    requires forall i :: 1 <= i < first && i in files ==> !Expired(files[i], now, maxAge)
    requires forall i :: first <= i < n && i in files ==> Expired(files[i], now, maxAge)
    requires IsSuffix(ReadRange(files, 0, n), landed)
    requires ReadRange(files, stop, n) == [] || ReadRange(files, first, stop) == []
    ensures IsSuffix(ReadRange(Swept(files, now, maxAge, stop), 0, n), landed)
  {
    SweptReads(files, now, maxAge, first, stop, n);
    hide ReadRange, Swept, IsSuffix, Expired;
    NothingLeftOut(ReadRange(files, stop, n), ReadRange(files, first, stop), ReadRange(files, 0, first), landed);
  }

  /** In any other case it leaves a gap, which a reader can tell as long as no two records that landed are equal. */
  lemma StoppedExpiryLeavesGap(files: Files, now: int, maxAge: int, first: nat, stop: nat, n: nat, landed: seq<Line>)
    requires 1 <= first <= stop <= n
    requires forall i :: 1 <= i < first && i in files ==> !Expired(files[i], now, maxAge)
    requires forall i :: first <= i < n && i in files ==> Expired(files[i], now, maxAge)
    requires IsSuffix(ReadRange(files, 0, n), landed)
    requires ReadRange(files, stop, n) != [] && ReadRange(files, first, stop) != []
    ensures NoDuplicates(landed) ==> !IsSuffix(ReadRange(Swept(files, now, maxAge, stop), 0, n), landed)
  {
    SweptReads(files, now, maxAge, first, stop, n);
    hide ReadRange, Swept, IsSuffix, NoDuplicates, Expired;
    if NoDuplicates(landed) {
      MiddleLeftOut(ReadRange(files, stop, n), ReadRange(files, first, stop), ReadRange(files, 0, first), landed);
    }
  }

  lemma SweptReads(files: Files, now: int, maxAge: int, first: nat, stop: nat, n: nat)
    requires 1 <= first <= stop <= n
    requires forall i :: 1 <= i < first && i in files ==> !Expired(files[i], now, maxAge)
    requires forall i :: first <= i < n && i in files ==> Expired(files[i], now, maxAge)
    ensures ReadRange(files, 0, n)
            == ReadRange(files, stop, n) + ReadRange(files, first, stop) + ReadRange(files, 0, first)
    ensures ReadRange(Swept(files, now, maxAge, stop), 0, n) == ReadRange(files, stop, n) + ReadRange(files, 0, first)
  {
    SweptRanges(files, now, maxAge, first, stop, n);
    hide ReadRange, Swept, Expired;
    RangeInThree(files, first, stop, n);
    RangeInThree(Swept(files, now, maxAge, stop), first, stop, n);
    NothingBetween(ReadRange(files, stop, n), ReadRange(files, 0, first));
  }

  lemma NothingBetween(a: seq<Line>, b: seq<Line>)
    ensures a + [] + b == a + b
  {
  }

  lemma RangeInThree(files: Files, first: nat, stop: nat, n: nat)
    requires first <= stop <= n
    ensures ReadRange(files, 0, n)
            == ReadRange(files, stop, n) + ReadRange(files, first, stop) + ReadRange(files, 0, first)
  {
    hide ReadRange;
    RangeSplits(files, 0, stop, n);
    RangeSplits(files, 0, first, stop);
  }

  /** What the pass leaves of the archives it did not reach, of those it went through, and of the files before them. */
  lemma SweptRanges(files: Files, now: int, maxAge: int, first: nat, stop: nat, n: nat)
    requires 1 <= first <= stop <= n
    requires forall i :: 1 <= i < first && i in files ==> !Expired(files[i], now, maxAge)
    requires forall i :: first <= i < n && i in files ==> Expired(files[i], now, maxAge)
    ensures var swept := Swept(files, now, maxAge, stop);
            && ReadRange(swept, stop, n) == ReadRange(files, stop, n)
            && ReadRange(swept, first, stop) == []
            && ReadRange(swept, 0, first) == ReadRange(files, 0, first)
  {
    hide Records, ReadRange, Expired;
    var swept := Swept(files, now, maxAge, stop);
    RangeReadsAlike(files, swept, stop, n);
    EmptyRange(swept, first, stop);
    RangeReadsAlike(files, swept, 0, first);
  }

  /** The archives of an oldest record, an older one and a young one, of which the first two have expired. */
  function ThreeArchives(a: Line, b: Line, c: Line, now: int, maxAge: int): Files {
    map[3 := LogFile(a, now - maxAge - 1), 2 := LogFile(b, now - maxAge - 1), 1 := LogFile(c, now)]
  }

  /** The pass deletes from the newest on: dying after one of the two, it leaves the oldest and the young record, but not
      the one between. */
  lemma ExpiryOutOfOrder(a: Line, b: Line, c: Line, now: int, maxAge: int)
    requires IsRecord(a) && IsRecord(b) && IsRecord(c) && a != b && maxAge >= 1
    ensures var files := ThreeArchives(a, b, c, now, maxAge);
            && Aged(files) && ReadRange(files, 0, 4) == [a, b, c]
            && ReadRange(Swept(files, now, maxAge, 3), 0, 4) == [a, c]
            && !IsSuffix([a, c], [a, b, c])
  {
    OneRecord(a);
    OneRecord(b);
    OneRecord(c);
    var files := ThreeArchives(a, b, c, now, maxAge);
    SweptOfThree(a, b, c, now, maxAge);
    hide Records, IsRecord, ReadRange, Swept;
    ReadFour(files);
    ReadFour(Swept(files, now, maxAge, 3));
    assert [a] + [b] + [c] == [a, b, c];
    assert [a] + [] + [c] == [a, c];
    assert [a, b, c][1..] == [b, c];
    assert [a, c][0] != [b, c][0];
  }

  lemma SweptOfThree(a: Line, b: Line, c: Line, now: int, maxAge: int)
    requires maxAge >= 1
    ensures Swept(ThreeArchives(a, b, c, now, maxAge), now, maxAge, 3) == map[3 := LogFile(a, now - maxAge - 1), 1 := LogFile(c, now)]
  {
  }

  lemma OneRecord(line: Line)
    requires IsRecord(line)
    ensures Records(line) == [line]
  {
    OneLine(line);
  }

  lemma ReadFour(files: Files)
    requires forall i :: i in files ==> 1 <= i <= 3
    ensures ReadRange(files, 0, 4) == (if 3 in files then Records(files[3].content) else [])
                                      + (if 2 in files then Records(files[2].content) else [])
                                      + (if 1 in files then Records(files[1].content) else [])
  {
    hide Records;
    RangeSplits(files, 0, 3, 4);
    RangeSplits(files, 0, 2, 3);
    RangeSplits(files, 0, 1, 2);
    EmptyRange(files, 0, 1);
  }

  // What every attempt keeps.

  /** The sizes and ages are in bounds; the files numbered below `joined` read as a contiguous end of everything that
      landed, and the archives from there on have expired. */
  ghost predicate Sound(p: Policy, files: Files, landed: seq<Line>, joined: nat, clock: int) {
    && p.Valid() && 1 <= joined <= p.archiveCount + 1
    && (forall i :: i in files ==> FileFits(p, i, files[i], clock))
    && Aged(files)
    && IsSuffix(ReadRange(files, 0, joined), landed)
    && (forall i :: i in files && joined <= i ==> Expired(files[i], clock, p.maxAge))
  }

  predicate FileFits(p: Policy, i: nat, f: LogFile, clock: int) {
    i <= p.archiveCount && |f.content| <= p.maxFileBytes && CR !in f.content && f.lastWrite <= clock
  }

  function FirstExpired(files: Files, now: int, maxAge: int, i: nat, n: nat): (e: nat)
    requires i <= n
    ensures i <= e <= n
    ensures forall k :: i <= k < e && k in files ==> !Expired(files[k], now, maxAge)
    ensures e < n ==> e in files && Expired(files[e], now, maxAge)
    decreases n - i
  {
    if i == n || (i in files && Expired(files[i], now, maxAge)) then i else FirstExpired(files, now, maxAge, i + 1, n)
  }

  function JoinedAt(p: Policy, files: Files, joined: nat, now: int): (k: nat)
    requires p.Valid()
  {
    var first := FirstExpired(files, now, p.maxAge, 1, p.archiveCount + 1);
    if joined <= first then joined else first
  }

  /** Time passes before the pass begins: what has expired since is no longer counted on. */
  lemma TimePasses(p: Policy, files: Files, landed: seq<Line>, joined: nat, clock: int, now: int)
    requires Sound(p, files, landed, joined, clock) && clock <= now
    ensures Sound(p, files, landed, JoinedAt(p, files, joined, now), now)
    ensures forall i :: 1 <= i < JoinedAt(p, files, joined, now) && i in files ==> !Expired(files[i], now, p.maxAge)
  {
    hide ReadRange;
    var k := JoinedAt(p, files, joined, now);
    RangeSplits(files, 0, k, joined);
    SuffixOfSuffix(ReadRange(files, 0, k), ReadRange(files, 0, joined), landed);
  }

  /** The pass, however far it gets, deletes nothing that is counted on; once through, nothing else is left. */
  lemma SweepingIsSound(p: Policy, files: Files, landed: seq<Line>, joined: nat, now: int, stop: nat)
    requires Sound(p, files, landed, joined, now) && 1 <= stop <= p.archiveCount + 1
    requires forall i :: 1 <= i < joined && i in files ==> !Expired(files[i], now, p.maxAge)
    ensures Sound(p, Swept(files, now, p.maxAge, stop), landed, joined, now)
    ensures stop == p.archiveCount + 1 ==> Sound(p, Swept(files, now, p.maxAge, stop), landed, stop, now)
  {
    hide ReadRange;
    var swept := Swept(files, now, p.maxAge, stop);
    RangeReadsAlike(files, swept, 0, joined);
    if stop == p.archiveCount + 1 {
      RangeSplits(swept, 0, joined, stop);
      EmptyRange(swept, joined, stop);
    }
  }

  /** The files once those numbered `from` and up have moved up by one, the last of all having been deleted. */
  function PartlyRotated(files: Files, from: nat, last: nat): Files
    requires from <= last
  {
    map k | 0 <= k <= last && k != from && NumberBefore(k, from) in files :: files[NumberBefore(k, from)]
  }

  /** The number a file had before the rotation came to `from`. */
  function NumberBefore(k: nat, from: nat): nat {
    if k <= from then k else k - 1
  }

  lemma RotationSteps(files: Files, from: nat, last: nat)
    requires 0 < from <= last
    ensures Shifted(PartlyRotated(files, from, last), from - 1) == PartlyRotated(files, from - 1, last)
    ensures from !in PartlyRotated(files, from, last)
    ensures from - 1 in PartlyRotated(files, from, last) <==> from - 1 in files
  {
  }

  lemma RotationBegins(files: Files, last: nat)
    requires forall i :: i in files ==> i <= last
    ensures files - {last} == PartlyRotated(files, last, last)
  {
  }

  /** At every moment of a rotation the same records are read: all but those of the last archive. */
  lemma {:induction false} RotationKeepsReading(files: Files, from: nat, last: nat)
    requires from <= last
    ensures ReadRange(PartlyRotated(files, from, last), 0, last + 1) == ReadRange(files, 0, last)
    decreases last - from
  {
    if from == last {
      RangeReadsAlike(files, PartlyRotated(files, last, last), 0, last);
    } else {
      RotationKeepsReading(files, from + 1, last);
      RotationSteps(files, from + 1, last);
      ShiftKeepsReading(PartlyRotated(files, from + 1, last), from, last + 1);
    }
  }

  lemma RotatingIsSound(p: Policy, files: Files, landed: seq<Line>, clock: int, from: nat)
    requires p.Valid() && Sound(p, files, landed, p.archiveCount + 1, clock) && from <= p.archiveCount
    ensures Sound(p, PartlyRotated(files, from, p.archiveCount), landed, p.archiveCount + 1, clock)
  {
    RotationKeepsReading(files, from, p.archiveCount);
    RangeSplits(files, 0, p.archiveCount, p.archiveCount + 1);
    hide ReadRange;
    SuffixOfSuffix(ReadRange(files, 0, p.archiveCount), ReadRange(files, 0, p.archiveCount + 1), landed);
    RotationKeepsAges(files, from, p.archiveCount);
  }

  lemma RotationKeepsAges(files: Files, from: nat, last: nat)
    requires Aged(files) && from <= last
    ensures Aged(PartlyRotated(files, from, last))
  {
  }

  /** Text at a line start adds the record it completes, and nothing when it is cut short. */
  lemma WrittenRecord(content: seq<Byte>, line: Line, written: nat)
    requires AtLineStart(content) && IsRecord(line) && written <= |line| + 1
    ensures Records(content + (line + [LF])[..written]) == Records(content) + if written >= |line| then [line] else []
  {
    var text := (line + [LF])[..written];
    LinesAppend(content, text);
    WholeAppends(Lines(content), Lines(text));
    TextRecord(line, written);
    hide Whole, Lines, IsRecord;
  }

  lemma TextRecord(line: Line, written: nat)
    requires IsRecord(line) && written <= |line| + 1
    ensures Whole(Lines((line + [LF])[..written])) == if written >= |line| then [line] else []
  {
    var text := (line + [LF])[..written];
    OneLine(line);
    if written > |line| {
      assert text == line + [LF];
      EndingTheLastLine(line);
    } else if written == |line| {
      assert text == line;
    } else if written > 0 {
      assert text == line[..written];
      OneLine(text);
      CutRecordIsNoRecord(line, written);
    }
  }

  /** Growing the active file adds to the end of what is read. */
  lemma ActiveGrows(p: Policy, files: Files, f: LogFile, landed: seq<Line>, added: seq<Line>, clock: int)
    requires p.Valid() && Sound(p, files, landed, p.archiveCount + 1, clock)
    requires FileFits(p, 0, f, clock) && f.lastWrite == clock
    requires Records(f.content) == (if 0 in files then Records(files[0].content) else []) + added
    ensures Sound(p, files[0 := f], landed + added, p.archiveCount + 1, clock)
  {
    var n := p.archiveCount + 1;
    ActiveReadsLast(files, f, added, n);
    hide Records, ReadRange, IsSuffix;
    LongerSuffix(ReadRange(files, 0, n), landed, added);
  }

  lemma ActiveReadsLast(files: Files, f: LogFile, added: seq<Line>, n: nat)
    requires n >= 1 && Records(f.content) == (if 0 in files then Records(files[0].content) else []) + added
    ensures ReadRange(files[0 := f], 0, n) == ReadRange(files, 0, n) + added
  {
    hide Records;
    var grown := files[0 := f];
    RangeSplits(files, 0, 1, n);
    RangeSplits(grown, 0, 1, n);
    RangeReadsAlike(files, grown, 1, n);
    assert ReadRange(files, 0, 1) == if 0 in files then Records(files[0].content) else [];
    assert ReadRange(grown, 0, 1) == Records(f.content);
  }

  lemma LongerSuffix(part: seq<Line>, whole: seq<Line>, added: seq<Line>)
    requires IsSuffix(part, whole)
    ensures IsSuffix(part + added, whole + added)
  {
  }

  datatype Outcome =
    | StoppedExpiring(at: nat)   // denied or dead before the expiry pass was through
    | StoppedRotating            // denied or dead between two renames
    | StoppedWriting(whole: bool)   // denied or dead before the end of the write, with or without the record's last byte
    | Appended
  {
    /** Every byte of the record was written. */
    predicate Landed() {
      Appended? || (StoppedWriting? && whole)
    }
  }

  lemma NothingLogged(p: Policy)
    requires p.Valid()
    ensures Sound(p, map[], [], 1, 0) && IsSuffix(ReadRange(map[], 0, p.archiveCount + 1), [])
  {
    EmptyRange(map[], 0, p.archiveCount + 1);
    EmptyRange(map[], 0, 1);
    hide ReadRange;
  }

  class RotatingLog {
    const policy: Policy
    var files: Files

    /** Every record of which all bytes were written, in order; how many files read as an end of it; the last attempt. */
    ghost var landed: seq<Line>
    ghost var joined: nat
    ghost var clock: int

    ghost predicate Valid()
      reads this
    {
      Sound(policy, files, landed, joined, clock)
    }

    /** The files read together are an end of what landed. */
    ghost predicate Contiguous()
      requires policy.Valid()
      reads this
    {
      IsSuffix(ReadRange(files, 0, policy.archiveCount + 1), landed)
    }

    constructor (policy: Policy)
      requires policy.Valid()
      ensures Valid() && Contiguous() && this.policy == policy && files == map[] && landed == [] && clock == 0
    {
      this.policy := policy;
      files, landed, joined, clock := map[], [], 1, 0;
      NothingLogged(policy);
      hide Sound;
    }

    /** Deletes the archives that have expired, from the newest on. */
    method ExpireArchives(now: int, budget: nat) returns (left: nat, stop: nat)
      requires Valid() && clock <= now
      modifies this`files, this`joined, this`clock
      ensures Valid() && clock == now
      ensures 1 <= stop <= policy.archiveCount + 1 && files == Swept(old(files), now, policy.maxAge, stop)
      ensures stop == policy.archiveCount + 1 ==> joined == stop
      ensures SweepStopsAt(policy, old(files), now, budget, stop)
      ensures stop == policy.archiveCount + 1 ==> left == budget - |ExpiredBefore(old(files), now, policy.maxAge, stop)|
    {
      TimePasses(policy, files, landed, joined, clock, now);
      hide ReadRange, FirstExpired, SweepStopsAt, ExpiredBefore;
      joined, clock := JoinedAt(policy, files, joined, now), now;
      ghost var before := files;
      hide JoinedAt, Sound;
      left, stop := Sweep(now, budget);
      SweepingIsSound(policy, before, landed, joined, now, stop);
      if stop == policy.archiveCount + 1 {
        joined := stop;
      }
    }

    /** The pass itself. */
    method Sweep(now: int, budget: nat) returns (left: nat, stop: nat)
      requires policy.Valid()
      modifies this`files
      ensures 1 <= stop <= policy.archiveCount + 1 && files == Swept(old(files), now, policy.maxAge, stop)
      ensures SweepStopsAt(policy, old(files), now, budget, stop)
      ensures stop == policy.archiveCount + 1 ==> left == budget - |ExpiredBefore(old(files), now, policy.maxAge, stop)|
    {
      hide ExpiredBefore, Swept, Expired;
      ghost var before := files;
      SweepBegins(before, now, policy.maxAge);
      ExpiredGrow(before, now, policy.maxAge, 1);
      left, stop := budget, 1;
      while stop <= policy.archiveCount
        invariant 1 <= stop <= policy.archiveCount + 1
        invariant files == Swept(before, now, policy.maxAge, stop)
        invariant left == budget - |ExpiredBefore(before, now, policy.maxAge, stop)|
      {
        SweepStep(before, now, policy.maxAge, stop);
        ExpiredGrow(before, now, policy.maxAge, stop);
        if stop in files && Expired(files[stop], now, policy.maxAge) {
          if left == 0 {
            ExpiredAreFewer(before, now, policy.maxAge, stop + 1, policy.archiveCount + 1);
            return;
          }
          files, left := files - {stop}, left - 1;
        }
        stop := stop + 1;
      }
    }

    /** Deletes the last archive and moves every file up by one. */
    method Rotate(budget: nat) returns (left: nat, ok: bool, ghost from: nat)
      requires Valid() && joined == policy.archiveCount + 1 && 0 in files
      modifies this`files
      ensures Valid()
      ensures from <= policy.archiveCount + 1 && files == RotatedFrom(old(files), from, policy.archiveCount)
      ensures ok ==> from == 0 && left == budget - |old(files)|
      ensures !ok ==> from > 0 && from - 1 in old(files) && budget == |NumberedFrom(old(files), from)|
      ensures ok <==> budget >= |old(files)|
    {
      BoundsOf(policy, files, landed, joined, clock);
      hide Sound, PartlyRotated, NumberedFrom, RotatedFrom;
      ghost var before := files;
      MovingAll(before);
      MovingOne(before, policy.archiveCount);
      WhereItStopped(before, policy.archiveCount);
      var dropped;
      left, dropped := DropLast(budget);
      if dropped {
        left, ok, from := ShiftAll(left, budget, before);
      } else {
        ok, from := false, policy.archiveCount + 1;
      }
      NumberedAreFewer(before, from);
    }

    /** Deletes the last archive, if there is one. */
    method DropLast(budget: nat) returns (left: nat, dropped: bool)
      requires Valid() && joined == policy.archiveCount + 1
      modifies this`files
      ensures policy.Valid() && |NumberedFrom(old(files), policy.archiveCount + 1)| == 0
      ensures dropped <==> budget > 0 || policy.archiveCount !in old(files)
      ensures dropped ==> files == PartlyRotated(old(files), policy.archiveCount, policy.archiveCount)
                          && left == budget - if policy.archiveCount in old(files) then 1 else 0
      ensures !dropped ==> files == old(files)
    {
      var n := policy.archiveCount;
      BoundsOf(policy, files, landed, joined, clock);
      RotationBegins(files, n);
      NoneNumbered(files, n);
      hide Sound, PartlyRotated, NumberedFrom;
      left, dropped := budget, budget > 0 || n !in files;
      if dropped {
        left := left - if n in files then 1 else 0;
        files := files - {n};
      }
    }

    /** Renames the archives, the last first, and then the active file. */
    method ShiftAll(budget: nat, ghost whole: nat, ghost before: Files) returns (left: nat, ok: bool, ghost from: nat)
      requires joined == policy.archiveCount + 1 && policy.Valid() && Sound(policy, before, landed, joined, clock)
      requires files == PartlyRotated(before, policy.archiveCount, policy.archiveCount)
      requires budget == whole - |NumberedFrom(before, policy.archiveCount)|
      modifies this`files
      ensures Valid()
      ensures from <= policy.archiveCount && files == PartlyRotated(before, from, policy.archiveCount)
      ensures ok ==> from == 0 && left == whole - |NumberedFrom(before, 0)|
      ensures !ok ==> from > 0 && from - 1 in before && whole == |NumberedFrom(before, from)|
    {
      hide Sound, PartlyRotated, Shifted, NumberedFrom;
      left := budget;
      var i := policy.archiveCount;
      while i > 0
        invariant 0 <= i <= policy.archiveCount
        invariant files == PartlyRotated(before, i, policy.archiveCount)
        invariant left == whole - |NumberedFrom(before, i)|
      {
        RotationSteps(before, i, policy.archiveCount);
        MovingOne(before, i - 1);
        if i - 1 in files {
          if left == 0 {
            RotatingIsSound(policy, before, landed, clock, i);
            return 0, false, i;
          }
          left := left - 1;
        }
        files := Shifted(files, i - 1);
        i := i - 1;
      }
      RotatingIsSound(policy, before, landed, clock, 0);
      return left, true, 0;
    }

    /** Some text lands at the end of the active file, which is created if it is not there. */
    method Extend(text: seq<Byte>, now: int, ghost added: seq<Line>)
      requires Valid() && joined == policy.archiveCount + 1 && now == clock && CR !in text
      requires |ActiveContent()| + |text| <= policy.maxFileBytes
      requires Records(ActiveContent() + text) == Records(ActiveContent()) + added
      modifies this`files, this`landed
      ensures Valid() && landed == old(landed) + added
      ensures 0 in files && files == old(files)[0 := LogFile(old(ActiveContent()) + text, now)]
    {
      BoundsOf(policy, files, landed, joined, clock);
      var content := ActiveContent() + text;
      ActiveGrows(policy, files, LogFile(content, now), landed, added, now);
      hide Sound, Records;
      files := files[0 := LogFile(content, now)];
      landed := landed + added;
    }

    function ActiveContent(): seq<Byte>
      reads this
    {
      ActiveOf(files)
    }

    /** The record goes to the end of the active file, on a line of its own, as much of it as lands. */
    method WriteRecord(line: Line, separate: bool, now: int, budget: nat, written: nat) returns (outcome: Outcome)
      requires Valid() && joined == policy.archiveCount + 1 && now == clock && IsRecord(line) && written <= |line| + 1
      requires separate <==> !AtLineStart(ActiveContent())
      requires |ActiveContent()| + |line| + 1 + (if separate then 1 else 0) <= policy.maxFileBytes
      modifies this`files, this`landed
      ensures Valid()
      ensures outcome == WritingEnds(line, separate, budget, written)
      ensures landed == old(landed) + if outcome.Landed() then [line] else []
      ensures outcome.Appended? ==> EndsWithOwnLine(ActiveContent(), line)
      ensures files == if budget == 0 then old(files)
                       else old(files)[0 := LogFile(old(ActiveContent()) + TextWritten(line, separate, budget, written), now)]
    {
      TextIsWritten(line, separate, budget, written, ActiveContent());
      hide Sound, Records, IsRecord, TextWritten;
      if budget == 0 {
        return StoppedWriting(false);
      }
      if separate {
        EndLine(now);
        if budget == 1 {
          return StoppedWriting(false);
        }
      }
      outcome := WriteLine(line, now, written);
    }

    /** Ends the line that a write cut short has left unfinished. */
    method EndLine(now: int)
      requires Valid() && joined == policy.archiveCount + 1 && now == clock
      requires !AtLineStart(ActiveContent()) && |ActiveContent()| + 1 <= policy.maxFileBytes
      modifies this`files, this`landed
      ensures Valid() && landed == old(landed)
      ensures ActiveContent() == old(ActiveContent()) + [LF]
      ensures files == old(files)[0 := LogFile(ActiveContent(), now)]
    {
      ActiveEnds(policy, files, landed, joined, clock);
      EndingTheLastLine(ActiveContent());
      RecordsOfEnded(ActiveContent());
      hide Sound, Records;
      Extend([LF], now, []);
    }

    /** The record itself, from the start of a line. */
    method WriteLine(line: Line, now: int, written: nat) returns (outcome: Outcome)
      requires Valid() && joined == policy.archiveCount + 1 && now == clock && IsRecord(line) && written <= |line| + 1
      requires AtLineStart(ActiveContent()) && |ActiveContent()| + |line| + 1 <= policy.maxFileBytes
      modifies this`files, this`landed
      ensures Valid()
      ensures outcome == if written == |line| + 1 then Appended else StoppedWriting(written == |line|)
      ensures landed == old(landed) + if written >= |line| then [line] else []
      ensures ActiveContent() == old(ActiveContent()) + (line + [LF])[..written]
      ensures outcome.Appended? ==> EndsWithOwnLine(ActiveContent(), line)
      ensures files == old(files)[0 := LogFile(ActiveContent(), now)]
    {
      ghost var before := ActiveContent();
      WrittenRecord(before, line, written);
      RecordHasNoEnd(line);
      hide Sound, Records, IsRecord;
      Extend((line + [LF])[..written], now, if written >= |line| then [line] else []);
      if written <= |line| {
        return StoppedWriting(written == |line|);
      }
      assert (line + [LF])[..written] == line + [LF];
      assert ActiveContent() == before + line + [LF];
      return Appended;
    }

    /** What an attempt that got through its expiry pass leaves: a contiguous log and, if it succeeded, the record as its
        last line. */
    ghost predicate Settled(outcome: Outcome, entry: Entry)
      requires policy.Valid()
      reads this
    {
      && (!outcome.StoppedExpiring? ==> Contiguous())
      && (outcome.Appended? ==> EndsWithOwnLine(ActiveContent(), entry.Chosen(policy)))
    }

    /** One attempt to append what is to be logged, stopped wherever its budget of file operations ends; `written` is how
        much of the line lands if it comes to that. */
    method Append(entry: Entry, now: int, budget: nat, written: nat) returns (outcome: Outcome)
      requires Valid() && clock <= now && IsRecord(entry.line) && IsRecord(entry.marker)
      modifies this
      ensures Valid() && clock == now && policy.Valid()
      ensures landed == old(landed) + if outcome.Landed() then [entry.Chosen(policy)] else []
      ensures Settled(outcome, entry)
      ensures AttemptEnds(policy, old(files), entry.Chosen(policy), now, budget, written, outcome, files)
      ensures Attempt(entry, now, budget, written).Suffices(policy) ==> outcome.Appended?
      ensures outcome.Appended? && !entry.unsafe && |entry.line| < policy.maxRecordBytes ==>
                EndsWithOwnLine(ActiveContent(), entry.line)
      ensures forall i :: i in old(files) && i < policy.archiveCount && (i == 0 || !Expired(old(files)[i], now, policy.maxAge)) ==>
                StillThere(old(files)[i], i, files)
      ensures forall i :: i in files ==> |files[i].content| <= policy.maxFileBytes
    {
      BoundsOf(policy, files, landed, joined, clock);
      LineFits(entry.line, entry.unsafe, entry.marker, policy);
      hide Sound, IsRecord, ReadRange, LineFor, WriteEnds, AttemptEnds, SweepStopsAt, Swept, ExpiredBefore, Expired;
      var line := entry.Chosen(policy);
      ghost var before := files;
      EnoughForAll(policy, before, line, now, budget, written);
      var left, stop := ExpireArchives(now, budget);
      SweptKeeps(before, now, policy.maxAge, stop);
      SweepDecides(policy, before, line, now, budget, written, stop);
      if stop <= policy.archiveCount {
        outcome := StoppedExpiring(stop);
      } else {
        outcome := RotateAndWrite(line, now, left, written);
      }
      BoundsOf(policy, files, landed, joined, clock);
    }

    /** Rotates if the record no longer fits, and writes it. */
    method RotateAndWrite(line: Line, now: int, budget: nat, written: nat) returns (outcome: Outcome)
      requires Valid() && joined == policy.archiveCount + 1 && now == clock
      requires IsRecord(line) && |line| + 1 <= policy.maxRecordBytes
      modifies this`files, this`landed
      ensures Valid() && Contiguous() && !outcome.StoppedExpiring?
      ensures landed == old(landed) + if outcome.Landed() then [line] else []
      ensures outcome.Appended? ==> EndsWithOwnLine(ActiveContent(), line)
      ensures WriteEnds(policy, old(files), line, now, budget, written, outcome, files)
      ensures forall i :: i in old(files) && i < policy.archiveCount ==> StillThere(old(files)[i], i, files)
    {
      hide Sound, IsRecord, ReadRange, EndsWithOwnLine;
      var left, room := MakeRoom(|line| + 1, budget);
      if room {
        var separate := !AtLineStart(ActiveContent());
        outcome := WriteRecord(line, separate, now, left, if written <= |line| + 1 then written else |line| + 1);
      } else {
        outcome := StoppedRotating;
      }
      JoinedIsContiguous(policy, files, landed, clock);
    }

    /** Rotates exactly when an active file that has something in it would outgrow the limit. */
    method MakeRoom(bytes: nat, budget: nat) returns (left: nat, room: bool)
      requires Valid() && joined == policy.archiveCount + 1 && bytes <= policy.maxRecordBytes
      modifies this`files
      ensures Valid() && policy.Valid()
      ensures room ==> |ActiveContent()| + bytes + (if AtLineStart(ActiveContent()) then 0 else 1) <= policy.maxFileBytes
      ensures !RotationDue(policy, old(ActiveContent()), bytes) ==> room && files == old(files) && left == budget
      ensures RotationDue(policy, old(ActiveContent()), bytes) ==>
                if budget >= |old(files)| then
                  room && files == RotatedFrom(old(files), 0, policy.archiveCount) && left == budget - |old(files)|
                else !room && RotationStopped(policy, old(files), budget, files)
      ensures forall i :: i in old(files) && i < policy.archiveCount ==>
                (i in files && files[i] == old(files)[i]) || (i + 1 in files && files[i + 1] == old(files)[i])
    {
      BoundsOf(policy, files, landed, joined, clock);
      hide Sound, RotatedFrom, RotationStopped;
      var length, separate := |ActiveContent()|, false;
      if length > 0 {
        separate := ActiveContent()[length - 1] != LF;
      }
      left, room := budget, true;
      if length > 0 && length > policy.maxFileBytes - bytes - (if separate then 1 else 0) {
        left, room := RotateDue(budget);
      }
    }

    /** A rotation that is due: through, or stopped where its budget ends. */
    method RotateDue(budget: nat) returns (left: nat, room: bool)
      requires Valid() && joined == policy.archiveCount + 1 && 0 in files
      modifies this`files
      ensures Valid() && policy.Valid()
      ensures if budget >= |old(files)| then
                room && files == RotatedFrom(old(files), 0, policy.archiveCount) && left == budget - |old(files)|
                && ActiveContent() == []
              else !room && RotationStopped(policy, old(files), budget, files)
      ensures forall i :: i in old(files) && i < policy.archiveCount ==>
                (i in files && files[i] == old(files)[i]) || (i + 1 in files && files[i + 1] == old(files)[i])
    {
      BoundsOf(policy, files, landed, joined, clock);
      hide Sound, RotatedFrom, NumberedFrom;
      ghost var before, from := files, 0;
      left, room, from := Rotate(budget);
      RotationKeeps(before, from, policy.archiveCount);
      NoActiveAfterRotation(before, policy.archiveCount);
    }

    /** One of many attempts. */
    method AppendNext(a: Attempt) returns (outcome: Outcome)
      requires Valid() && clock <= a.now && IsRecord(a.entry.line) && IsRecord(a.entry.marker)
      modifies this
      ensures Valid() && clock == a.now && policy.Valid()
      ensures landed == old(landed) + if outcome.Landed() then [a.entry.Chosen(policy)] else []
      ensures Settled(outcome, a.entry)
      ensures a.Suffices(policy) ==> outcome.Appended?
    {
      hide Sound, IsRecord, Settled, Swept, StillThere, LineFor, AttemptEnds, Attempt.Suffices, Expired, EndsWithOwnLine;
      assert Attempt(a.entry, a.now, a.budget, a.written) == a;
      outcome := Append(a.entry, a.now, a.budget, a.written);
    }

    /** Any run of attempts, each stopped anywhere: the log stays sound, everything that landed is on record in order, and
        after every attempt that got through its expiry pass the files read as an end of it. */
    method AppendAll(attempts: seq<Attempt>) returns (outcomes: seq<Outcome>)
      requires Valid() && InOrder(attempts, clock)
      requires forall a :: a in attempts ==> IsRecord(a.entry.line) && IsRecord(a.entry.marker)
      modifies this
      ensures Valid() && |outcomes| == |attempts|
      ensures landed == old(landed) + Landings(attempts, outcomes, policy)
      ensures policy.Valid()
      ensures NoneIsLost(attempts, outcomes, policy)
      ensures attempts != [] ==> Settled(outcomes[|attempts| - 1], attempts[|attempts| - 1].entry)
      ensures forall i :: i in files ==> i <= policy.archiveCount && |files[i].content| <= policy.maxFileBytes
    {
      outcomes := [];
      NothingLands(attempts, policy);
      NowIsLater(attempts, clock, 0);
      BoundsOf(policy, files, landed, joined, clock);
      ghost var start := clock;
      hide Sound, IsRecord, Settled, LineFor, Landings, Attempt.Suffices, InOrder, FileFits, Outcome.Landed, NoneIsLost;
      for n := 0 to |attempts|
        invariant Valid() && policy.Valid() && |outcomes| == n
        invariant n < |attempts| ==> clock <= attempts[n].now
        invariant landed == old(landed) + Landings(attempts[..n], outcomes, policy)
        invariant n > 0 ==> Settled(outcomes[n - 1], attempts[n - 1].entry)
        invariant NoneIsLost(attempts, outcomes, policy)
      {
        NowIsLater(attempts, start, n + 1);
        var outcome := AppendNext(attempts[n]);
        LandingsGrow(attempts, outcomes, n, outcome, policy);
        outcomes := outcomes + [outcome];
      }
      assert attempts[..|attempts|] == attempts;
      SizesOf(policy, files, landed, joined, clock);
    }
  }

  // How far an attempt gets.

  /** The archives before `stop` that have expired. */
  function ExpiredBefore(files: Files, now: int, maxAge: int, stop: nat): set<nat> {
    set i | i in files && 1 <= i < stop && Expired(files[i], now, maxAge)
  }

  /** An expiry pass comes through exactly if its budget covers every expired archive, and stops otherwise at the first
      one it does not cover. */
  predicate SweepStopsAt(p: Policy, files: Files, now: int, budget: nat, stop: nat)
    requires p.Valid()
  {
    if budget >= |ExpiredBefore(files, now, p.maxAge, p.archiveCount + 1)| then stop == p.archiveCount + 1
    else
      && 1 <= stop <= p.archiveCount && stop in files && Expired(files[stop], now, p.maxAge)
      && |ExpiredBefore(files, now, p.maxAge, stop)| == budget
  }

  lemma ExpiredGrow(files: Files, now: int, maxAge: int, stop: nat)
    requires stop >= 1
    ensures |ExpiredBefore(files, now, maxAge, 1)| == 0
    ensures |ExpiredBefore(files, now, maxAge, stop + 1)|
            == |ExpiredBefore(files, now, maxAge, stop)|
               + if stop in files && Expired(files[stop], now, maxAge) then 1 else 0
    ensures stop in Swept(files, now, maxAge, stop) <==> stop in files
    ensures stop in files ==> Swept(files, now, maxAge, stop)[stop] == files[stop]
  {
    hide Expired;
    assert ExpiredBefore(files, now, maxAge, 1) == {};
    assert ExpiredBefore(files, now, maxAge, stop + 1)
           == ExpiredBefore(files, now, maxAge, stop)
              + if stop in files && Expired(files[stop], now, maxAge) then {stop} else {};
  }

  lemma {:induction false} ExpiredAreFewer(files: Files, now: int, maxAge: int, stop: nat, end: nat)
    requires 1 <= stop <= end
    ensures |ExpiredBefore(files, now, maxAge, stop)| <= |ExpiredBefore(files, now, maxAge, end)|
    decreases end
  {
    if stop < end {
      ExpiredGrow(files, now, maxAge, end - 1);
      ExpiredAreFewer(files, now, maxAge, stop, end - 1);
    }
  }

  function NumberedFrom(files: Files, from: nat): set<nat> {
    set i | i in files && from <= i
  }

  lemma MovingOne(files: Files, i: nat)
    ensures |NumberedFrom(files, i)| == |NumberedFrom(files, i + 1)| + if i in files then 1 else 0
  {
    assert NumberedFrom(files, i) == NumberedFrom(files, i + 1) + if i in files then {i} else {};
  }

  lemma {:induction false} NumberedAreFewer(files: Files, from: nat)
    ensures |NumberedFrom(files, from)| <= |files|
    ensures from > 0 && from - 1 in files ==> |NumberedFrom(files, from)| < |files|
    decreases from
  {
    hide NumberedFrom;
    if from == 0 {
      MovingAll(files);
    } else {
      MovingOne(files, from - 1);
      NumberedAreFewer(files, from - 1);
    }
  }

  lemma NoneNumbered(files: Files, last: nat)
    requires forall i :: i in files ==> i <= last
    ensures |NumberedFrom(files, last + 1)| == 0
  {
    assert NumberedFrom(files, last + 1) == {};
  }

  lemma MovingAll(files: Files)
    ensures |NumberedFrom(files, 0)| == |files|
  {
    assert NumberedFrom(files, 0) == files.Keys;
  }

  /** What is in the active file, and the record after it, would outgrow the limit. */
  predicate RotationDue(p: Policy, active: seq<Byte>, bytes: nat) {
    active != [] && |active| + bytes + (if AtLineStart(active) then 0 else 1) > p.maxFileBytes
  }

  /** A rotation that cannot move every file stops before the first one, from the last on, that it cannot move. */
  predicate RotationStopped(p: Policy, before: Files, budget: nat, after: Files)
    requires p.Valid()
  {
    exists from :: 1 <= from <= p.archiveCount + 1 && from - 1 in before && budget == |NumberedFrom(before, from)|
                   && after == RotatedFrom(before, from, p.archiveCount)
  }

  /** How a write ends: it takes one file operation, or two if it has to end an unfinished line first. */
  function WritingEnds(line: Line, separate: bool, budget: nat, written: nat): Outcome {
    if budget < (if separate then 2 else 1) then StoppedWriting(false)
    else if written > |line| then Appended
    else StoppedWriting(written == |line|)
  }

  /** What a write adds to the active file. */
  function TextWritten(line: Line, separate: bool, budget: nat, written: nat): seq<Byte> {
    (if separate && budget > 0 then [LF] else [])
    + if budget < (if separate then 2 else 1) then [] else if written > |line| then line + [LF] else line[..written]
  }

  lemma TextIsWritten(line: Line, separate: bool, budget: nat, written: nat, content: seq<Byte>)
    requires written <= |line| + 1
    ensures content + TextWritten(line, separate, budget, written)
            == if budget == 0 then content
               else if !separate then content + (line + [LF])[..written]
               else if budget == 1 then content + [LF]
               else content + [LF] + (line + [LF])[..written]
  {
    assert (line + [LF])[..written] == if written > |line| then line + [LF] else line[..written];
  }

  function ActiveOf(files: Files): seq<Byte> {
    if 0 in files then files[0].content else []
  }

  /** How an attempt ends after its expiry pass. */
  predicate WriteEnds(p: Policy, before: Files, line: Line, now: int, budget: nat, written: nat, outcome: Outcome,
                      after: Files)
    requires p.Valid()
  {
    var due := RotationDue(p, ActiveOf(before), |line| + 1);
    if due && budget < |before| then outcome == StoppedRotating && RotationStopped(p, before, budget, after)
    else
      var files := if due then RotatedFrom(before, 0, p.archiveCount) else before;
      var left := if due then budget - |before| else budget;
      var separate := !AtLineStart(ActiveOf(files));
      && outcome == WritingEnds(line, separate, left, written)
      && after == if left == 0 then files
                  else files[0 := LogFile(ActiveOf(files) + TextWritten(line, separate, left, written), now)]
  }

  /** How an attempt ends, and what it leaves: decided by the file operations that succeed. */
  predicate AttemptEnds(p: Policy, before: Files, line: Line, now: int, budget: nat, written: nat, outcome: Outcome,
                        after: Files)
    requires p.Valid()
  {
    var expired := |ExpiredBefore(before, now, p.maxAge, p.archiveCount + 1)|;
    if budget < expired then
      && outcome.StoppedExpiring? && SweepStopsAt(p, before, now, budget, outcome.at)
      && after == Swept(before, now, p.maxAge, outcome.at)
    else
      WriteEnds(p, Swept(before, now, p.maxAge, p.archiveCount + 1), line, now, budget - expired, written, outcome, after)
  }

  lemma SweepDecides(p: Policy, before: Files, line: Line, now: int, budget: nat, written: nat, stop: nat)
    requires p.Valid() && SweepStopsAt(p, before, now, budget, stop)
    ensures stop <= p.archiveCount ==>
              AttemptEnds(p, before, line, now, budget, written, StoppedExpiring(stop), Swept(before, now, p.maxAge, stop))
    ensures stop > p.archiveCount ==>
              && stop == p.archiveCount + 1 && budget >= |ExpiredBefore(before, now, p.maxAge, stop)|
              && forall outcome, after :: AttemptEnds(p, before, line, now, budget, written, outcome, after) <==>
                   WriteEnds(p, Swept(before, now, p.maxAge, stop), line, now,
                             budget - |ExpiredBefore(before, now, p.maxAge, stop)|, written, outcome, after)
  {
    hide WriteEnds, Swept, ExpiredBefore, Expired;
  }

  /** An attempt none of whose file operations is denied needs no more than two for each archive and three more. */
  lemma EnoughForAll(p: Policy, before: Files, line: Line, now: int, budget: nat, written: nat)
    requires p.Valid() && forall i :: i in before ==> i <= p.archiveCount
    ensures budget >= 2 * p.archiveCount + 3 && written > |line| ==>
              forall outcome, after :: AttemptEnds(p, before, line, now, budget, written, outcome, after) ==> outcome.Appended?
  {
    var n := p.archiveCount;
    AtMost(ExpiredBefore(before, now, p.maxAge, n + 1), 1, n);
    var kept := Swept(before, now, p.maxAge, n + 1);
    AtMost(kept.Keys, 0, n);
    assert |kept.Keys| == |kept|;
    hide Swept, ExpiredBefore, SweepStopsAt, RotatedFrom, TextWritten, RotationDue, RotationStopped;
  }

  lemma {:induction false} AtMost(numbers: set<nat>, lo: nat, hi: nat)
    requires lo <= hi + 1 && forall i :: i in numbers ==> lo <= i <= hi
    ensures |numbers| <= hi + 1 - lo
    decreases hi + 1 - lo
  {
    if lo == hi + 1 {
      assert numbers == {};
    } else {
      AtMost(numbers - {lo}, lo + 1, hi);
    }
  }

  /** What is to be logged: its line, whether it is unsafe, and the marker that would stand for it. */
  datatype Entry = Entry(line: Line, unsafe: bool, marker: Line)
  {
    function Chosen(policy: Policy): Line {
      LineFor(line, unsafe, marker, policy)
    }
  }

  datatype Attempt = Attempt(entry: Entry, now: int, budget: nat, written: nat)
  {
    /** None of the attempt's file operations is denied. */
    predicate Suffices(policy: Policy) {
      budget >= 2 * policy.archiveCount + 3 && written > |entry.Chosen(policy)|
    }
  }

  predicate InOrder(attempts: seq<Attempt>, clock: int) {
    && (forall i :: 0 <= i < |attempts| ==> clock <= attempts[i].now)
    && (forall i, j :: 0 <= i < j < |attempts| ==> attempts[i].now <= attempts[j].now)
  }

  /** The lines of the attempts whose record landed. */
  function Landings(attempts: seq<Attempt>, outcomes: seq<Outcome>, policy: Policy): seq<Line>
    requires |attempts| == |outcomes|
  {
    if attempts == [] then []
    else
      var n := |attempts| - 1;
      Landings(attempts[..n], outcomes[..n], policy)
      + if outcomes[n].Landed() then [attempts[n].entry.Chosen(policy)] else []
  }

  lemma NothingLands(attempts: seq<Attempt>, policy: Policy)
    ensures Landings([], [], policy) == [] && NoneIsLost(attempts, [], policy)
  {
  }

  lemma LandingsGrow(attempts: seq<Attempt>, outcomes: seq<Outcome>, n: nat, outcome: Outcome, policy: Policy)
    requires n < |attempts| && n == |outcomes|
    ensures NoneIsLost(attempts, outcomes, policy) && (attempts[n].Suffices(policy) ==> outcome.Appended?) ==>
              NoneIsLost(attempts, outcomes + [outcome], policy)
    ensures Landings(attempts[..n + 1], outcomes + [outcome], policy)
            == Landings(attempts[..n], outcomes, policy) + if outcome.Landed() then [attempts[n].entry.Chosen(policy)] else []
  {
    assert attempts[..n + 1][..n] == attempts[..n] && (outcomes + [outcome])[..n] == outcomes;
  }

  /** Every attempt none of whose file operations is denied has appended its record. */
  predicate NoneIsLost(attempts: seq<Attempt>, outcomes: seq<Outcome>, policy: Policy)
    requires |outcomes| <= |attempts|
  {
    forall k :: 0 <= k < |outcomes| && attempts[k].Suffices(policy) ==> outcomes[k].Appended?
  }

  lemma NowIsLater(attempts: seq<Attempt>, clock: int, n: nat)
    requires InOrder(attempts, clock)
    ensures n < |attempts| ==> if n == 0 then clock <= attempts[n].now else attempts[n - 1].now <= attempts[n].now
  {
  }

  /** A file is where it was, longer perhaps, or has moved up by one. */
  predicate StillThere(f: LogFile, i: nat, files: Files) {
    (i in files && f.content <= files[i].content) || (i + 1 in files && files[i + 1] == f)
  }

  lemma SweptKeeps(files: Files, now: int, maxAge: int, stop: nat)
    ensures forall i :: i in files && (i == 0 || !Expired(files[i], now, maxAge)) ==>
              i in Swept(files, now, maxAge, stop) && Swept(files, now, maxAge, stop)[i] == files[i]
  {
  }

  /** Of all files, a rotation loses the last archive at most, wherever it stops. */
  lemma RotationKeeps(files: Files, from: nat, last: nat)
    requires from <= last + 1
    ensures var after := RotatedFrom(files, from, last);
            forall i :: i in files && i < last ==>
              (i in after && after[i] == files[i]) || (i + 1 in after && after[i + 1] == files[i])
  {
    forall i | i in files && i < last
      ensures var after := RotatedFrom(files, from, last);
              (i in after && after[i] == files[i]) || (i + 1 in after && after[i + 1] == files[i])
    {
      if from <= last {
        var k := if i < from then i else i + 1;
        assert NumberBefore(k, from) == i;
      }
    }
  }

  lemma NoActiveAfterRotation(files: Files, last: nat)
    ensures 0 !in RotatedFrom(files, 0, last)
  {
  }

  lemma JoinedIsContiguous(p: Policy, files: Files, landed: seq<Line>, clock: int)
    requires p.Valid() && Sound(p, files, landed, p.archiveCount + 1, clock)
    ensures IsSuffix(ReadRange(files, 0, p.archiveCount + 1), landed)
  {
  }

  lemma RecordHasNoEnd(line: Line)
    requires IsRecord(line)
    ensures CR !in line + [LF]
  {
  }

  lemma RecordsOfEnded(content: seq<Byte>)
    requires Lines(content + [LF]) == Lines(content)
    ensures Records(content + [LF]) == Records(content) + []
  {
  }

  lemma ActiveEnds(p: Policy, files: Files, landed: seq<Line>, joined: nat, clock: int)
    requires Sound(p, files, landed, joined, clock)
    ensures 0 in files && files[0].content != [] && !AtLineStart(files[0].content) ==>
              !EndsLine(files[0].content[|files[0].content| - 1])
  {
  }

  /** The record is the last line of the text, on its own. */
  ghost predicate EndsWithOwnLine(content: seq<Byte>, line: Line) {
    exists before: seq<Byte> :: AtLineStart(before) && content == before + line + [LF]
  }

  /** A rotation stopped after moving the files numbered `from` and up; one past the last means before its beginning. */
  function RotatedFrom(files: Files, from: nat, last: nat): Files {
    if from > last then files else PartlyRotated(files, from, last)
  }

  lemma WhereItStopped(files: Files, last: nat)
    ensures forall from :: 0 <= from <= last ==> RotatedFrom(files, from, last) == PartlyRotated(files, from, last)
    ensures RotatedFrom(files, last + 1, last) == files
  {
  }

  lemma BoundsOf(p: Policy, files: Files, landed: seq<Line>, joined: nat, clock: int)
    requires Sound(p, files, landed, joined, clock)
    ensures p.Valid() && forall i :: i in files ==> FileFits(p, i, files[i], clock)
  {
  }

  lemma SizesOf(p: Policy, files: Files, landed: seq<Line>, joined: nat, clock: int)
    requires Sound(p, files, landed, joined, clock)
    ensures forall i :: i in files ==> i <= p.archiveCount && |files[i].content| <= p.maxFileBytes
  {
  }

  lemma SweepBegins(files: Files, now: int, maxAge: int)
    ensures Swept(files, now, maxAge, 1) == files
  {
  }

  lemma SweepStep(files: Files, now: int, maxAge: int, stop: nat)
    requires stop >= 1
    ensures var swept := Swept(files, now, maxAge, stop);
            Swept(files, now, maxAge, stop + 1)
            == if stop in swept && Expired(swept[stop], now, maxAge) then swept - {stop} else swept
  {
  }

  // Which line is written for a record.

  predicate PlainText(s: seq<Byte>) {
    forall i :: 0 <= i < |s| ==> s[i] != QUOTE && s[i] != BACKSLASH && !EndsLine(s[i])
  }

  /** {"key":"value"} */
  function FlatObject(key: seq<Byte>, value: seq<Byte>): Line {
    [OPEN_BRACE, QUOTE] + (key + ([QUOTE] + ([58, QUOTE] + (value + ([QUOTE] + [CLOSE_BRACE])))))
  }

  const EVENT_TYPE: seq<Byte> := [101, 118, 101, 110, 116, 95, 116, 121, 112, 101]
  const RECORD_OMITTED: seq<Byte> := [108, 111, 103, 46, 114, 101, 99, 111, 114, 100, 95, 111, 109, 105, 116, 116, 101, 100]

  /** The marker of last resort, {"event_type":"log.record_omitted"}. */
  const OMITTED: Line := FlatObject(EVENT_TYPE, RECORD_OMITTED)

  /** The serialized record, or a marker in its place when it is unsafe or too long. */
  function LineFor(line: Line, unsafe: bool, marker: Line, policy: Policy): Line {
    if !unsafe && |line| + 1 <= policy.maxRecordBytes then line
    else if |marker| + 1 <= policy.maxRecordBytes then marker
    else OMITTED
  }

  /** Whatever is asked to be logged, what is appended is one record within the limit. */
  lemma LineFits(line: Line, unsafe: bool, marker: Line, policy: Policy)
    requires policy.Valid() && IsRecord(line) && IsRecord(marker)
    ensures IsRecord(LineFor(line, unsafe, marker, policy))
    ensures |LineFor(line, unsafe, marker, policy)| + 1 <= policy.maxRecordBytes
    ensures !unsafe && |line| < policy.maxRecordBytes ==> LineFor(line, unsafe, marker, policy) == line
    ensures unsafe || |line| >= policy.maxRecordBytes ==>
              LineFor(line, unsafe, marker, policy) == marker || LineFor(line, unsafe, marker, policy) == OMITTED
  {
    OmittedIsRecord();
  }

  lemma OmittedIsRecord()
    ensures IsRecord(OMITTED) && |OMITTED| == 35
  {
    FlatObjectIsRecord(EVENT_TYPE, RECORD_OMITTED);
  }

  lemma FlatObjectIsRecord(key: seq<Byte>, value: seq<Byte>)
    requires PlainText(key) && PlainText(value)
    ensures IsRecord(FlatObject(key, value))
  {
    var quoted, plain := Scan(1, true, false), Scan(1, false, false);
    var last := [QUOTE] + [CLOSE_BRACE];
    assert last[1..] == [CLOSE_BRACE];
    assert ClosedAfter([CLOSE_BRACE], plain) == 1;
    assert ClosedAfter(last, quoted) == 2;
    QuotedText(value, last);
    var second: seq<Byte> := [58, QUOTE] + (value + last);
    assert second[1..][1..] == value + last;
    assert ClosedAfter(second[1..], plain) == 1 + ClosedAfter(value + last, quoted);
    var rest := [QUOTE] + second;
    assert rest[1..] == second;
    QuotedText(key, rest);
    var line := FlatObject(key, value);
    assert line[1..][1..] == key + rest;
    assert ClosedAfter(line[1..], plain) == 1 + ClosedAfter(key + rest, quoted);
    FlatObjectHasNoEnd(key, value);
  }

  lemma FlatObjectHasNoEnd(key: seq<Byte>, value: seq<Byte>)
    requires PlainText(key) && PlainText(value)
    ensures forall i :: 0 <= i < |FlatObject(key, value)| ==> !EndsLine(FlatObject(key, value)[i])
  {
  }

  /** Text without quotes or backslashes inside quotes closes nothing. */
  lemma {:induction false} QuotedText(text: seq<Byte>, rest: seq<Byte>)
    requires PlainText(text)
    ensures ClosedAfter(text + rest, Scan(1, true, false)) == |text| + ClosedAfter(rest, Scan(1, true, false))
    decreases |text|
  {
    if text == [] {
      assert text + rest == rest;
    } else {
      assert (text + rest)[1..] == text[1..] + rest;
      QuotedText(text[1..], rest);
    }
  }
}
