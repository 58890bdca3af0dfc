/** Reading the end of a log: a bounded window over the file that must agree with reading all of it. Lines are kept as
    the bytes between their terminators; decoding UTF-8 does not move a terminator or a byte-order mark. */
module LogTails {
  import opened Text

  type Byte = b: int | 0 <= b < 256

  const LF: Byte := 10
  const CR: Byte := 13
  const BOM: seq<Byte> := [0xEF, 0xBB, 0xBF]

  datatype LogTail = LogTail(lines: seq<seq<Byte>>, bytesRead: nat, truncated: bool)

  // Lines as a text reader sees them: ended by LF, CR or CR LF, the last one perhaps not ended at all.

  predicate EndsLine(b: Byte) {
    b == LF || b == CR
  }

  function LineLength(s: seq<Byte>): (n: nat)
    ensures n <= |s|
    ensures forall i :: 0 <= i < n ==> !EndsLine(s[i])
    ensures n < |s| ==> EndsLine(s[n])
  {
    if s == [] || EndsLine(s[0]) then 0 else 1 + LineLength(s[1..])
  }

  /** How many bytes the first line takes, its terminator included. */
  function LineSpan(s: seq<Byte>): (n: nat)
    requires s != []
    ensures 0 < n <= |s|
  {
    var k := LineLength(s);
    if k == |s| then k
    else if s[k] == CR && k + 1 < |s| && s[k + 1] == LF then k + 2
    else k + 1
  }

  function Lines(s: seq<Byte>): seq<seq<Byte>>
    decreases |s|
  {
    if s == [] then [] else [s[..LineLength(s)]] + Lines(s[LineSpan(s)..])
  }

  function WithoutBom(s: seq<Byte>): (t: seq<Byte>)
    ensures |t| <= |s| && t == s[|s| - |t|..]
    ensures forall i :: 0 <= i < |s| - |t| ==> !EndsLine(s[i])
    ensures |t| < |s| <==> BOM <= s
    decreases |s|
  {
    if BOM <= s then WithoutBom(s[|BOM|..]) else s
  }

  /** However many marks a text begins with, none is left. */
  lemma {:induction false} NoMarkIsLeft(s: seq<Byte>)
    ensures !(BOM <= WithoutBom(s)) && WithoutBom(BOM + s) == WithoutBom(s)
    decreases |s|
  {
    assert (BOM + s)[|BOM|..] == s;
    if BOM <= s {
      NoMarkIsLeft(s[|BOM|..]);
    }
  }

  function LastOf<T>(s: seq<T>, n: nat): seq<T> {
    if |s| <= n then s else s[|s| - n..]
  }

  predicate IsSuffix<T(==)>(part: seq<T>, whole: seq<T>) {
    |part| <= |whole| && part == whole[|whole| - |part|..]
  }

  /** The lines of the whole file. */
  function AllLines(file: seq<Byte>): seq<seq<Byte>> {
    Lines(WithoutBom(file))
  }

  // The bounded read.

  function WindowStart(file: seq<Byte>, maxBytes: nat): (offset: nat)
    ensures offset <= |file| && |file| - offset <= maxBytes
  {
    if |file| <= maxBytes then 0 else |file| - maxBytes
  }

  predicate StartsInsideLine(file: seq<Byte>, offset: nat)
    requires offset <= |file|
  {
    offset > 0 && file[offset - 1] != LF
  }

  /** What is left of the window once a byte-order mark and a cut first line are gone. */
  function WholeLinesPart(file: seq<Byte>, maxBytes: nat): seq<Byte> {
    var offset := WindowStart(file, maxBytes);
    var text := WithoutBom(file[offset..]);
    if StartsInsideLine(file, offset) && text != [] then text[LineSpan(text)..] else text
  }

  function Tail(file: seq<Byte>, maxLines: nat, maxBytes: nat): LogTail {
    var offset := WindowStart(file, maxBytes);
    var lines := Lines(WholeLinesPart(file, maxBytes));
    LogTail(LastOf(lines, maxLines), |file| - offset + (if offset > 0 then 1 else 0), offset > 0 || |lines| > maxLines)
  }

  /** A reader that hands out one line after the other. */
  class StringReader {
    const text: seq<Byte>
    var position: nat

    ghost predicate Valid()
      reads this
    {
      position <= |text|
    }

    function Rest(): seq<Byte>
      requires Valid()
      reads this
    {
      text[position..]
    }

    constructor (text: seq<Byte>)
      ensures Valid() && Rest() == text
    {
      this.text, this.position := text, 0;
    }

    method ReadLine() returns (line: Option<seq<Byte>>)
      requires Valid()
      modifies this
      ensures Valid()
      ensures line.None? <==> old(Rest()) == []
      ensures line.None? ==> Rest() == []
      ensures line.Some? ==> line.value == old(Rest())[..LineLength(old(Rest()))]
      ensures line.Some? ==> Rest() == old(Rest())[LineSpan(old(Rest()))..]
    {
      if position == |text| {
        return None;
      }
      var end := position;
      while end < |text| && !EndsLine(text[end])
        invariant position <= end <= |text|
        invariant forall i :: position <= i < end ==> !EndsLine(text[i])
      {
        end := end + 1;
      }
      EndOfLine(text, position, end);
      hide LineLength, LineSpan, EndsLine;
      line := Some(text[position..end]);
      if end + 1 < |text| && text[end] == CR && text[end + 1] == LF {
        position := end + 2;
      } else {
        position := if end < |text| then end + 1 else end;
      }
    }
  }

  /** Where the first line of the rest of a text ends, and where the next one begins. */
  lemma EndOfLine(text: seq<Byte>, position: nat, end: nat)
    requires position <= end <= |text| && position < |text|
    requires forall i :: position <= i < end ==> !EndsLine(text[i])
    requires end < |text| ==> EndsLine(text[end])
    ensures text[position..][..LineLength(text[position..])] == text[position..end]
    ensures var next := if end == |text| then end
                        else if end + 1 < |text| && text[end] == CR && text[end + 1] == LF then end + 2 else end + 1;
            text[position..][LineSpan(text[position..])..] == text[next..]
  {
    var rest, n := text[position..], end - position;
    SkippedPrefix(rest, n);
    assert rest[n..] == text[end..];
    assert LineLength(text[end..]) == 0;
    assert n < |rest| ==> rest[n] == text[end];
    assert n + 1 < |rest| ==> rest[n + 1] == text[end + 1];
    hide LineLength;
    DroppedTwice(text, position, LineSpan(rest));
  }

  const MAX_LINES_LIMIT := 10000
  const MAX_BYTES_LIMIT := 16 * 1024 * 1024

  /** Fills a buffer from the file; each read may deliver any part of what is asked for. */
  method Fill(file: seq<Byte>, offset: nat, count: nat) returns (buffer: seq<Byte>)
    requires offset + count == |file|
    ensures buffer == file[offset..]
  {
    var bytes := new Byte[count];
    var read := 0;
    while read < count
      invariant 0 <= read <= count
      invariant forall i :: 0 <= i < read ==> bytes[i] == file[offset + i]
    {
      var received :| 1 <= received <= count - read;
      forall i | read <= i < read + received {
        bytes[i] := file[offset + i];
      }
      read := read + received;
    }
    buffer := bytes[..];
  }

  method Read(file: seq<Byte>, maxLines: int, maxBytes: int) returns (result: Result<LogTail>)
    ensures result.Ok? <==> 1 <= maxLines <= MAX_LINES_LIMIT && 1 <= maxBytes <= MAX_BYTES_LIMIT
    ensures result.Ok? ==> result.value == Tail(file, maxLines, maxBytes)
  {
    if !(1 <= maxLines <= MAX_LINES_LIMIT) || !(1 <= maxBytes <= MAX_BYTES_LIMIT) {
      return Err("The limits are out of range.");
    }
    hide Lines, LastOf, WholeLinesPart;
    var reader, bytesRead, cut := OpenWindow(file, maxBytes);
    var lines, truncated := ReadLast(reader, maxLines, cut);
    return Ok(LogTail(lines, bytesRead, truncated));
  }

  /** Reads the end of the file and drops a cut first line. */
  method OpenWindow(file: seq<Byte>, maxBytes: nat) returns (reader: StringReader, bytesRead: nat, cut: bool)
    ensures fresh(reader) && reader.Valid() && reader.Rest() == WholeLinesPart(file, maxBytes)
    ensures cut <==> WindowStart(file, maxBytes) > 0
    ensures bytesRead == |file| - WindowStart(file, maxBytes) + if cut then 1 else 0
  {
    hide LineLength, LineSpan, WithoutBom;
    var count := if |file| <= maxBytes then |file| else maxBytes;
    var offset := |file| - count;
    var skipPartial, probe := false, 0;
    if offset > 0 {
      skipPartial, probe := file[offset - 1] != LF, 1;
    }
    var buffer := Fill(file, offset, count);
    reader := new StringReader(WithoutBom(buffer));
    if skipPartial {
      var _ := reader.ReadLine();
    }
    bytesRead, cut := count + probe, offset > 0;
  }

  /** Reads all lines and keeps the last ones in a queue. */
  method ReadLast(reader: StringReader, maxLines: nat, cut: bool) returns (lines: seq<seq<Byte>>, truncated: bool)
    requires reader.Valid()
    modifies reader
    ensures lines == LastOf(Lines(old(reader.Rest())), maxLines)
    ensures truncated <==> cut || |Lines(old(reader.Rest()))| > maxLines
  {
    hide LineLength, LineSpan, Lines, LastOf;
    ghost var all := Lines(reader.Rest());
    NoLines();
    LastOfNothing(maxLines);
    ghost var seen: seq<seq<Byte>> := [];
    lines, truncated := [], cut;
    ghost var before := reader.Rest();
    var line := reader.ReadLine();
    while line.Some?
      invariant reader.Valid()
      invariant line.Some? ==> before != [] && line.value == before[..LineLength(before)]
                               && reader.Rest() == before[LineSpan(before)..]
      invariant line.None? ==> before == []
      invariant all == seen + Lines(before)
      invariant lines == LastOf(seen, maxLines)
      invariant truncated <==> cut || |seen| > maxLines
      decreases |before|
    {
      LastOfOneMore(seen, line.value, maxLines);
      LinesOf(before);
      assert all == (seen + [line.value]) + Lines(before[LineSpan(before)..]);
      lines := lines + [line.value];
      if |lines| > maxLines {
        lines, truncated := lines[1..], true;
      }
      seen := seen + [line.value];
      before := reader.Rest();
      line := reader.ReadLine();
    }
    assert seen + [] == seen;
  }

  lemma LastOfNothing(maxLines: nat)
    ensures LastOf<seq<Byte>>([], maxLines) == []
  {
  }

  /** A bounded queue holds the last elements that went through it. */
  lemma LastOfOneMore(seen: seq<seq<Byte>>, line: seq<Byte>, maxLines: nat)
    ensures |LastOf(seen, maxLines)| == if |seen| <= maxLines then |seen| else maxLines
    ensures var queue := LastOf(seen, maxLines) + [line];
            LastOf(seen + [line], maxLines) == if |queue| > maxLines then queue[1..] else queue
  {
  }

  // The bounded read agrees with reading everything.

  /** A position where a line starts, or the end. */
  predicate Boundary(s: seq<Byte>, p: nat) {
    p <= |s| && (p == 0 || p == |s| || s[p - 1] == LF || (s[p - 1] == CR && s[p] != LF))
  }

  /** A later line boundary lies after the first line, and is one of what follows it. */
  lemma BoundaryAfterFirstLine(s: seq<Byte>, p: nat)
    requires Boundary(s, p) && 0 < p < |s|
    ensures LineSpan(s) <= p && Boundary(s[LineSpan(s)..], p - LineSpan(s))
  {
    hide LineLength;
    var n := LineSpan(s);
    assert n <= p;
    var rest := s[n..];
    assert rest[p - n] == s[p];
    if p > n {
      assert rest[p - n - 1] == s[p - 1];
    }
  }

  /** Reading from a line boundary gives a suffix of the lines, and a proper one unless it is the beginning. */
  lemma {:induction false} LinesFromBoundary(s: seq<Byte>, p: nat)
    requires Boundary(s, p)
    ensures IsSuffix(Lines(s[p..]), Lines(s))
    ensures p > 0 ==> |Lines(s[p..])| < |Lines(s)|
    decreases |s|
  {
    hide LineLength, LineSpan, Lines;
    if p == 0 {
      assert s[p..] == s;
    } else {
      LinesOf(s);
      if p == |s| {
        assert s[p..] == [];
        NoLines();
      } else {
        BoundaryAfterFirstLine(s, p);
        hide Boundary;
        var n := LineSpan(s);
        DroppedTwice(s, n, p - n);
        LinesFromBoundary(s[n..], p - n);
        RestIsSuffix(Lines(s[p..]), Lines(s));
      }
    }
  }

  lemma RestIsSuffix(part: seq<seq<Byte>>, whole: seq<seq<Byte>>)
    requires |whole| >= 1 && IsSuffix(part, whole[1..])
    ensures IsSuffix(part, whole)
  {
  }

  /** The window starts with a byte-order mark that belongs to a line, and that line is kept. */
  predicate KeepsLineWithMark(file: seq<Byte>, maxLines: nat, maxBytes: nat) {
    var offset := WindowStart(file, maxBytes);
    var text := WithoutBom(file[offset..]);
    && offset > 0 && !StartsInsideLine(file, offset)
    && BOM <= file[offset..] && text != [] && |Lines(text)| <= maxLines
  }

  lemma SuffixOfSuffix<T>(a: seq<T>, b: seq<T>, c: seq<T>)
    requires IsSuffix(a, b) && IsSuffix(b, c)
    ensures IsSuffix(a, c)
  {
  }

  lemma LastIsSuffix<T>(s: seq<T>, n: nat)
    ensures IsSuffix(LastOf(s, n), s)
  {
  }

  /** What follows the leading marks of a file, seen from a later line boundary of the file. */
  lemma BoundaryOfFile(file: seq<Byte>, p: nat)
    requires 0 < p <= |file| && Boundary(file, p)
    ensures IsSuffix(Lines(file[p..]), AllLines(file))
    ensures p < |file| ==> |Lines(file[p..])| < |AllLines(file)|
  {
    hide LineLength, LineSpan, WithoutBom, Lines;
    var full := WithoutBom(file);
    var mark := |file| - |full|;
    if p < |file| {
      assert mark < p;
      assert full[p - mark - 1] == file[p - 1] && full[p - mark] == file[p];
      DroppedTwice(file, mark, p - mark);
      LinesFromBoundary(full, p - mark);
    } else {
      assert file[p..] == [];
      NoLines();
    }
  }

  lemma NoLines()
    ensures Lines([]) == []
  {
  }

  /** After a cut first line, reading goes on at a line boundary: what is left of a split CR LF is never a line. */
  lemma SkippingReachesBoundary(file: seq<Byte>, maxBytes: nat)
    requires StartsInsideLine(file, WindowStart(file, maxBytes))
    ensures var rest := WholeLinesPart(file, maxBytes);
            && |rest| < |file| && rest == file[|file| - |rest|..] && Boundary(file, |file| - |rest|)
  {
    var offset := WindowStart(file, maxBytes);
    var text := WithoutBom(file[offset..]);
    SuffixOfSuffix(text, file[offset..], file);
    if text != [] {
      var rest := WholeLinesPart(file, maxBytes);
      SpanEndsAtBoundary(text);
      SuffixOfSuffix(rest, text, file);
      EndOfSuffix(rest, text, file);
    }
  }

  /** What comes right before a shared suffix is shared too. */
  lemma EndOfSuffix(rest: seq<Byte>, text: seq<Byte>, file: seq<Byte>)
    requires IsSuffix(rest, text) && IsSuffix(text, file) && |rest| < |text| && Boundary(text, |text| - |rest|)
    ensures Boundary(file, |file| - |rest|)
  {
    assert text[|text| - |rest| - 1] == file[|file| - |rest| - 1];
    if rest != [] {
      assert text[|text| - |rest|] == file[|file| - |rest|];
    }
  }

  lemma SpanEndsAtBoundary(s: seq<Byte>)
    requires s != []
    ensures Boundary(s, LineSpan(s))
  {
  }

  /** A mark at the start of a text belongs to its first line and to no other. */
  lemma MarkBelongsToFirstLine(s: seq<Byte>)
    requires BOM <= s && WithoutBom(s) != []
    ensures |Lines(WithoutBom(s))| == |Lines(s)| >= 1
    ensures Lines(WithoutBom(s))[1..] == Lines(s)[1..]
    ensures |Lines(WithoutBom(s))[0]| < |Lines(s)[0]|
  {
    hide LineLength, LineSpan, WithoutBom, Lines, EndsLine;
    var t := WithoutBom(s);
    var mark := |s| - |t|;
    SkippedPrefix(s, mark);
    MarkedSpan(s, mark);
    LinesOf(s);
    LinesOf(t);
    DroppedTwice(s, mark, LineSpan(t));
  }

  lemma DroppedTwice(s: seq<Byte>, a: nat, b: nat)
    requires a + b <= |s|
    ensures s[a..][b..] == s[a + b..]
  {
  }

  lemma LinesOf(s: seq<Byte>)
    requires s != []
    ensures |Lines(s)| >= 1 && Lines(s)[0] == s[..LineLength(s)] && Lines(s)[1..] == Lines(s[LineSpan(s)..])
  {
    hide LineLength, LineSpan;
  }

  lemma MarkedSpan(s: seq<Byte>, n: nat)
    requires n < |s| && LineLength(s) == n + LineLength(s[n..])
    ensures LineSpan(s) == n + LineSpan(s[n..])
  {
    hide LineLength;
    var t := s[n..];
    var k := LineLength(t);
    assert k < |t| ==> t[k] == s[n + k];
    assert k + 1 < |t| ==> t[k + 1] == s[n + k + 1];
  }

  lemma {:induction false} SkippedPrefix(s: seq<Byte>, n: nat)
    requires n <= |s| && forall i :: 0 <= i < n ==> !EndsLine(s[i])
    ensures LineLength(s) == n + LineLength(s[n..])
    decreases n
  {
    if n == 0 {
      assert s[n..] == s;
    } else {
      SkippedPrefix(s[1..], n - 1);
      assert s[1..][n - 1..] == s[n..];
    }
  }

  /** The lines a bounded read reports are the last lines of the file, in order and unchanged, exactly unless it keeps
      a line that starts the window with a byte-order mark. */
  lemma TailIsSuffix(file: seq<Byte>, maxLines: nat, maxBytes: nat)
    requires maxLines >= 1
    ensures IsSuffix(Tail(file, maxLines, maxBytes).lines, AllLines(file)) <==> !KeepsLineWithMark(file, maxLines, maxBytes)
  {
    var offset := WindowStart(file, maxBytes);
    if offset == 0 {
      WholeFileIsRead(file, maxLines, maxBytes);
      LastIsSuffix(AllLines(file), maxLines);
    } else if StartsInsideLine(file, offset) {
      TailAfterCutLine(file, maxLines, maxBytes);
    } else {
      BoundaryOfFile(file, offset);
      MarkedWindow(file[offset..], maxLines, AllLines(file));
      hide Lines, WithoutBom, LastOf, Boundary, LineSpan, IsSuffix, AllLines;
    }
  }

  lemma TailAfterCutLine(file: seq<Byte>, maxLines: nat, maxBytes: nat)
    requires StartsInsideLine(file, WindowStart(file, maxBytes))
    ensures IsSuffix(Tail(file, maxLines, maxBytes).lines, AllLines(file))
  {
    hide Lines, WithoutBom, LastOf, Boundary, LineSpan, AllLines, IsSuffix, WholeLinesPart, StartsInsideLine, WindowStart;
    var rest := WholeLinesPart(file, maxBytes);
    SkippingReachesBoundary(file, maxBytes);
    BoundaryOfFile(file, |file| - |rest|);
    LastIsSuffix(Lines(rest), maxLines);
    SuffixOfSuffix(LastOf(Lines(rest), maxLines), Lines(rest), AllLines(file));
  }

  /** The last lines of a window that starts with a line, seen from all the lines it ends. */
  lemma MarkedWindow(window: seq<Byte>, maxLines: nat, all: seq<seq<Byte>>)
    requires maxLines >= 1 && IsSuffix(Lines(window), all)
    ensures IsSuffix(LastOf(Lines(WithoutBom(window)), maxLines), all)
            <==> !(BOM <= window && WithoutBom(window) != [] && |Lines(WithoutBom(window))| <= maxLines)
  {
    hide Lines, WithoutBom, LineSpan, LineLength;
    NoLines();
    var text := WithoutBom(window);
    var kept := LastOf(Lines(text), maxLines);
    if !(BOM <= window) {
      LastIsSuffix(Lines(text), maxLines);
      SuffixOfSuffix(kept, Lines(window), all);
    } else if text != [] {
      MarkBelongsToFirstLine(window);
      if |Lines(text)| <= maxLines {
        assert all[|all| - |kept|..][0] == Lines(window)[0];
      } else {
        LaterOnesAgree(Lines(window), Lines(text), maxLines);
        LastIsSuffix(Lines(window), maxLines);
        SuffixOfSuffix(kept, Lines(window), all);
      }
    }
  }

  /** A file that fits is read like any text: its last lines, and truncation is reported exactly when some are left out. */
  lemma WholeFileIsRead(file: seq<Byte>, maxLines: nat, maxBytes: nat)
    requires |file| <= maxBytes
    ensures var tail := Tail(file, maxLines, maxBytes);
            && tail.lines == LastOf(AllLines(file), maxLines)
            && (tail.truncated <==> |AllLines(file)| > maxLines)
            && tail.bytesRead == |file|
  {
    assert file[0..] == file;
  }

  /** Nothing goes missing silently: truncation is reported exactly when fewer lines are returned than the file has, or
      the file is larger than the window and has no line at all. */
  lemma TruncationIsReported(file: seq<Byte>, maxLines: nat, maxBytes: nat)
    requires maxLines >= 1
    ensures var tail := Tail(file, maxLines, maxBytes);
            && (tail.truncated <==> |tail.lines| < |AllLines(file)| || (|file| > maxBytes && AllLines(file) == []))
            && (!tail.truncated ==> tail.lines == AllLines(file))
            && tail.bytesRead == (if |file| <= maxBytes then |file| else maxBytes + 1) && |tail.lines| <= maxLines
  {
    var offset := WindowStart(file, maxBytes);
    if offset == 0 {
      WholeFileIsRead(file, maxLines, maxBytes);
    } else {
      WindowHasFewerLines(file, maxBytes);
    }
  }

  lemma WindowHasFewerLines(file: seq<Byte>, maxBytes: nat)
    requires WindowStart(file, maxBytes) > 0
    ensures |Lines(WholeLinesPart(file, maxBytes))| < |AllLines(file)| || AllLines(file) == []
    ensures AllLines(file) == [] ==> Lines(WholeLinesPart(file, maxBytes)) == []
  {
    var offset := WindowStart(file, maxBytes);
    var window := file[offset..];
    if StartsInsideLine(file, offset) {
      SkippingReachesBoundary(file, maxBytes);
      var rest := WholeLinesPart(file, maxBytes);
      BoundaryOfFile(file, |file| - |rest|);
    } else {
      BoundaryOfFile(file, offset);
      if BOM <= window && WithoutBom(window) != [] {
        MarkBelongsToFirstLine(window);
      }
    }
  }

  // The bounded read leaves out no more than it has to.

  /** A line starts where the window starts, and the read does not keep it as it is: it begins with a byte-order mark, or
      comes after a carriage return alone, which the read does not take for the end of a line. */
  predicate LosesFirstLine(file: seq<Byte>, maxLines: nat, maxBytes: nat, p: nat)
    requires p <= |file|
  {
    && p < |file| && (p == 0 || p + maxBytes == |file|)
    && |Lines(file[p..])| <= maxLines
    && (BOM <= file[p..] || (p > 0 && file[p - 1] == CR))
  }

  /** From any place in the window at which a line of the file starts, the read holds every line, or the last maxLines of
      them, exactly unless that place is the start of the window and the first line is lost. */
  lemma WholeLinesAreKept(file: seq<Byte>, maxLines: nat, maxBytes: nat, p: nat)
    requires maxLines >= 1 && Boundary(file, p) && p + maxBytes >= |file|
    ensures IsSuffix(LastOf(Lines(file[p..]), maxLines), Tail(file, maxLines, maxBytes).lines)
            <==> !LosesFirstLine(file, maxLines, maxBytes, p)
  {
    hide Lines, LastOf, IsSuffix, Tail;
    if p > WindowStart(file, maxBytes) {
      LaterLinesAreKept(file, maxLines, maxBytes, p);
    } else if p == |file| {
      NothingIsKept(maxLines, Tail(file, maxLines, maxBytes).lines);
      assert file[p..] == [];
    } else {
      FirstLineIsKept(file, maxLines, maxBytes, p);
    }
  }

  lemma NothingIsKept(maxLines: nat, whole: seq<seq<Byte>>)
    ensures IsSuffix(LastOf(Lines([]), maxLines), whole)
  {
    NoLines();
  }

  lemma LaterLinesAreKept(file: seq<Byte>, maxLines: nat, maxBytes: nat, p: nat)
    requires maxLines >= 1 && Boundary(file, p) && WindowStart(file, maxBytes) < p <= |file|
    ensures IsSuffix(LastOf(Lines(file[p..]), maxLines), Tail(file, maxLines, maxBytes).lines)
  {
    hide Lines, LineSpan, LineLength, WithoutBom, LastOf;
    var offset := WindowStart(file, maxBytes);
    var text := WithoutBom(file[offset..]);
    var start := |file| - |text|;
    if p == |file| {
      assert file[p..] == [];
      NoLines();
      LastOfNothing(maxLines);
    } else {
      assert start < p;
      DroppedTwice(file, offset, start - offset);
      assert text == file[start..];
      assert Boundary(text, p - start);
      DroppedTwice(file, start, p - start);
      var rest := WholeLinesPart(file, maxBytes);
      if StartsInsideLine(file, offset) {
        BoundaryAfterFirstLine(text, p - start);
        DroppedTwice(text, LineSpan(text), p - start - LineSpan(text));
        LinesFromBoundary(rest, p - start - LineSpan(text));
      } else {
        LinesFromBoundary(text, p - start);
      }
      LastOfSuffix(Lines(file[p..]), Lines(rest), maxLines);
    }
  }

  lemma LastOfSuffix(part: seq<seq<Byte>>, whole: seq<seq<Byte>>, n: nat)
    requires IsSuffix(part, whole)
    ensures IsSuffix(LastOf(part, n), LastOf(whole, n))
  {
  }

  lemma FirstLineIsKept(file: seq<Byte>, maxLines: nat, maxBytes: nat, p: nat)
    requires maxLines >= 1 && p == WindowStart(file, maxBytes) < |file| && Boundary(file, p)
    ensures IsSuffix(LastOf(Lines(file[p..]), maxLines), Tail(file, maxLines, maxBytes).lines)
            <==> !(|Lines(file[p..])| <= maxLines && (BOM <= file[p..] || (p > 0 && file[p - 1] == CR)))
  {
    hide Lines, LineSpan, LineLength, WithoutBom;
    var window := file[p..];
    var text := WithoutBom(window);
    LinesOf(window);
    if text == [] {
      NoLines();
      OneLine(window);
    } else {
      LinesOf(text);
      if BOM <= window {
        MarkBelongsToFirstLine(window);
      }
      RestIsKept(Lines(window), Lines(text), maxLines);
    }
  }

  /** Whether a bounded queue of lines that lack the first one, or have another in its place, ends as the whole does. */
  lemma RestIsKept(whole: seq<seq<Byte>>, other: seq<seq<Byte>>, n: nat)
    requires |whole| == |other| >= 1 && n >= 1 && whole[1..] == other[1..]
    ensures IsSuffix(LastOf(whole, n), LastOf(other[1..], n)) <==> |whole| > n
    ensures IsSuffix(LastOf(whole, n), LastOf(other, n)) <==> |whole| > n || whole[0] == other[0]
  {
    if |whole| > n {
      LaterOnesAgree(whole, other, n);
      assert LastOf(whole, n) == LastOf(other, n) == LastOf(other[1..], n);
      hide LastOf;
      LastIsSuffix(LastOf(whole, n), n);
    } else {
      FirstOnesDecide(whole, other);
    }
  }

  lemma LaterOnesAgree(whole: seq<seq<Byte>>, other: seq<seq<Byte>>, n: nat)
    requires |whole| == |other| > n && whole[1..] == other[1..]
    ensures whole[|whole| - n..] == other[|other| - n..] == other[1..][|other| - 1 - n..]
  {
    var k := |whole| - n - 1;
    assert whole[k + 1..] == whole[1..][k..] && other[k + 1..] == other[1..][k..];
  }

  lemma FirstOnesDecide(whole: seq<seq<Byte>>, other: seq<seq<Byte>>)
    requires |whole| == |other| >= 1 && whole[1..] == other[1..]
    ensures IsSuffix(whole, other) <==> whole[0] == other[0]
    ensures !IsSuffix(whole, other[1..])
  {
    assert whole == [whole[0]] + whole[1..] && other == [other[0]] + other[1..];
  }

  /** A file on which a whole line is lost: a window that starts after a carriage return alone. */
  lemma LineAfterReturnIsLost()
    ensures var file: seq<Byte> := [97, CR, 98];
            AllLines(file) == [[97], [98]] && Tail(file, 5, 1).lines == []
  {
    var file: seq<Byte> := [97, CR, 98];
    assert file[0] != BOM[0];
    OneLine([98]);
    NoLines();
    assert LineLength(file) == 1 && LineSpan(file) == 2;
    LinesOf(file);
    assert file[..1] == [97] && file[2..] == [98];
    assert Lines(file) == [[97]] + [[98]];
    assert WithoutBom(file[2..]) == [98] && LineSpan([98]) == 1 && [98][1..] == [];
    assert WholeLinesPart(file, 1) == [];
  }

  lemma {:induction false} OneLine(s: seq<Byte>)
    requires s != [] && forall i :: 0 <= i < |s| ==> !EndsLine(s[i])
    ensures Lines(s) == [s]
  {
    SkippedPrefix(s, |s|);
    assert s[..|s|] == s && s[|s|..] == [];
  }

  /** A file on which the two disagree: "a", then a line "b" that starts with a byte-order mark, read from there. */
  lemma MarkInsideFileIsLost()
    ensures var file: seq<Byte> := [97, LF, 0xEF, 0xBB, 0xBF, 98];
            !IsSuffix(Tail(file, 5, 4).lines, AllLines(file))
  {
    var file: seq<Byte> := [97, LF, 0xEF, 0xBB, 0xBF, 98];
    assert file[2..] == BOM + [98];
    assert file[2..][3..] == [98];
    assert WithoutBom(file[2..]) == [98];
    OneLine([98]);
    TailIsSuffix(file, 5, 4);
  }
}
