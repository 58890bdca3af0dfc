/** Ordinal text helpers shared by the models: the ignore-case comparison, blank tests and trimming that the
    agent applies to identifiers, versions and paths. Only the ASCII letters and blanks are folded. */
module Text {

  datatype Option<+T> = None | Some(value: T)

  datatype Result<+T> = Ok(value: T) | Err(error: string)

  function UpperChar(c: char): char {
    if 'a' <= c <= 'z' then ((c as int) - 32) as char else c
  }

  function Upper(s: string): string {
    seq(|s|, i requires 0 <= i < |s| => UpperChar(s[i]))
  }

  predicate EqualsIgnoreCase(a: string, b: string) {
    Upper(a) == Upper(b)
  }

  predicate IsWhite(c: char) {
    c == ' ' || '\t' <= c <= '\r'
  }

  predicate IsBlank(s: string) {
    forall i :: 0 <= i < |s| ==> IsWhite(s[i])
  }

  predicate IsDigit(c: char) {
    '0' <= c <= '9'
  }

  function TrimStart(s: string): string {
    if s != "" && IsWhite(s[0]) then TrimStart(s[1..]) else s
  }

  function TrimEnd(s: string): string {
    if s != "" && IsWhite(s[|s| - 1]) then TrimEnd(s[..|s| - 1]) else s
  }

  function Trim(s: string): string {
    TrimEnd(TrimStart(s))
  }

  /** The text before the first separator, or all of it. */
  function Before(s: string, sep: char): string {
    if s == "" || s[0] == sep then "" else [s[0]] + Before(s[1..], sep)
  }

  /** The text after the first separator, or nothing when there is none. */
  function After(s: string, sep: char): string {
    if s == "" then "" else if s[0] == sep then s[1..] else After(s[1..], sep)
  }

  /** The pieces between separators; an empty text is one empty piece. */
  function Split(s: string, sep: char): (pieces: seq<string>)
    ensures |pieces| >= 1
    ensures forall i :: 0 <= i < |pieces| ==> |pieces[i]| <= |s|
  {
    if s == "" then [""]
    else
      var rest := Split(s[1..], sep);
      if s[0] == sep then [""] + rest else [[s[0]] + rest[0]] + rest[1..]
  }

  function WithoutEmpty(pieces: seq<string>): seq<string> {
    if pieces == [] then []
    else if pieces[0] == "" then WithoutEmpty(pieces[1..])
    else [pieces[0]] + WithoutEmpty(pieces[1..])
  }

  predicate Contains(s: string, part: string) {
    part <= s || (s != "" && Contains(s[1..], part))
  }

  lemma {:induction false} BeforeAbsent(s: string, sep: char)
    requires sep !in s
    ensures Before(s, sep) == s
  {
    if s != "" {
      BeforeAbsent(s[1..], sep);
    }
  }

  lemma {:induction false} CutAtSeparator(head: string, tail: string, sep: char)
    requires sep !in head
    ensures Before(head + [sep] + tail, sep) == head
    ensures After(head + [sep] + tail, sep) == tail
  {
    var s := head + [sep] + tail;
    if head == "" {
      assert s[1..] == tail;
    } else {
      CutAtSeparator(head[1..], tail, sep);
      assert s[1..] == head[1..] + [sep] + tail;
    }
  }

  lemma {:induction false} SplitAbsent(s: string, sep: char)
    requires sep !in s
    ensures Split(s, sep) == [s]
  {
    if s != "" {
      SplitAbsent(s[1..], sep);
      assert [s[0]] + s[1..] == s;
    }
  }

  lemma TrimKeeps(s: string)
    requires s != "" && !IsWhite(s[0]) && !IsWhite(s[|s| - 1])
    ensures Trim(s) == s
  {
  }

  lemma {:induction false} SplitOfJoined(a: string, b: string, sep: char)
    ensures Split(a + [sep] + b, sep) == Split(a, sep) + Split(b, sep)
  {
    if a == "" {
      assert a + [sep] + b == [sep] + b;
      assert ([sep] + b)[1..] == b;
    } else {
      assert (a + [sep] + b)[1..] == a[1..] + [sep] + b;
      SplitOfJoined(a[1..], b, sep);
    }
  }

  lemma {:induction false} WithoutEmptyOfJoined(a: seq<string>, b: seq<string>)
    ensures WithoutEmpty(a + b) == WithoutEmpty(a) + WithoutEmpty(b)
  {
    if a == [] {
      assert a + b == b;
    } else {
      assert (a + b)[1..] == a[1..] + b;
      WithoutEmptyOfJoined(a[1..], b);
    }
  }

  /** The text between i and j lies between separators, or between a separator and an end. */
  predicate IsPiece(s: string, sep: char, i: nat, j: nat) {
    && i <= j <= |s| && sep !in s[i..j]
    && (i == 0 || s[i - 1] == sep) && (j == |s| || s[j] == sep)
  }

  /** What lies between separators is one of the pieces, and the last one if it reaches the end. */
  lemma PiecesAreFound(s: string, sep: char, i: nat, j: nat)
    requires IsPiece(s, sep, i, j)
    ensures s[i..j] in Split(s, sep)
    ensures j == |s| ==> Split(s, sep)[|Split(s, sep)| - 1] == s[i..j]
  {
    var rest := s[i..];
    FirstPiece(rest, sep, j - i);
    assert rest[..j - i] == s[i..j];
    hide Split;
    if i > 0 {
      LaterPieces(s, sep, i);
    } else {
      assert rest == s;
    }
  }

  lemma LaterPieces(s: string, sep: char, i: nat)
    requires 0 < i <= |s| && s[i - 1] == sep
    ensures Split(s[i..], sep)[0] in Split(s, sep)
    ensures Split(s, sep)[|Split(s, sep)| - 1] == Split(s[i..], sep)[|Split(s[i..], sep)| - 1]
  {
    hide Split;
    SplitOfJoined(s[..i - 1], s[i..], sep);
    assert s[..i - 1] + [sep] + s[i..] == s;
    assert Split(s, sep)[|Split(s[..i - 1], sep)|] == Split(s[i..], sep)[0];
  }

  lemma FirstPiece(s: string, sep: char, n: nat)
    requires n <= |s| && sep !in s[..n] && (n == |s| || s[n] == sep)
    ensures Split(s, sep)[0] == s[..n]
    ensures n == |s| ==> |Split(s, sep)| == 1
  {
    SplitAbsent(s[..n], sep);
    hide Split;
    if n < |s| {
      SplitOfJoined(s[..n], s[n + 1..], sep);
      assert s[..n] + [sep] + s[n + 1..] == s;
    } else {
      assert s[..n] == s;
    }
  }

  lemma SplitStep(s: string, sep: char)
    requires s != ""
    ensures |Split(s[1..], sep)| >= 1
    ensures s[0] == sep ==> Split(s, sep) == [""] + Split(s[1..], sep)
    ensures s[0] != sep ==> Split(s, sep) == [[s[0]] + Split(s[1..], sep)[0]] + Split(s[1..], sep)[1..]
  {
  }

  /** Every piece lies between separators; the last one reaches the end. */
  lemma {:induction false} PieceLies(s: string, sep: char, m: nat) returns (i: nat, j: nat)
    requires m < |Split(s, sep)|
    ensures i <= j <= |s| && IsPiece(s, sep, i, j) && Split(s, sep)[m] == s[i..j]
    ensures m == 0 <==> i == 0
    ensures m == |Split(s, sep)| - 1 ==> j == |s|
  {
    if s != "" {
      SplitStep(s, sep);
      hide Split;
    }
    if s == "" || (m == 0 && s[0] == sep) {
      i, j := 0, 0;
    } else if s[0] == sep {
      i, j := PieceLies(s[1..], sep, m - 1);
      PieceMoves(s, sep, i, j);
      i, j := i + 1, j + 1;
    } else {
      i, j := PieceLies(s[1..], sep, m);
      PieceMoves(s, sep, i, j);
      i, j := if m == 0 then 0 else i + 1, j + 1;
    }
  }

  /** A piece of what follows the first character is one of the whole text, with that character if it belongs to it. */
  lemma PieceMoves(s: string, sep: char, i: nat, j: nat)
    requires s != "" && IsPiece(s[1..], sep, i, j)
    ensures i > 0 || s[0] == sep ==> IsPiece(s, sep, i + 1, j + 1)
    ensures i == 0 && s[0] != sep ==> IsPiece(s, sep, 0, j + 1)
    ensures s[1..][i..j] == s[i + 1..j + 1] && s[0..j + 1] == [s[0]] + s[1..j + 1]
  {
    assert s[1..][i..j] == s[i + 1..j + 1];
    if i == 0 {
      assert s[0..j + 1] == [s[0]] + s[1..j + 1];
    }
  }

  lemma {:induction false} WithoutEmptyKeeps(pieces: seq<string>, piece: string)
    ensures piece in WithoutEmpty(pieces) <==> piece in pieces && piece != ""
  {
    if pieces != [] {
      WithoutEmptyKeeps(pieces[1..], piece);
    }
  }

  predicate OccursAt(s: string, part: string, k: nat) {
    k + |part| <= |s| && s[k..k + |part|] == part
  }

  lemma {:induction false} ContainsSomewhere(s: string, part: string)
    ensures Contains(s, part) <==> exists k :: OccursAt(s, part, k)
  {
    if part <= s {
      assert OccursAt(s, part, 0);
    } else if s != "" {
      ContainsSomewhere(s[1..], part);
      if Contains(s[1..], part) {
        var k: nat :| OccursAt(s[1..], part, k);
        assert s[1..][k..k + |part|] == s[k + 1..k + 1 + |part|];
        assert OccursAt(s, part, k + 1);
      }
      if k: nat :| OccursAt(s, part, k) {
        assert s[1..][k - 1..k - 1 + |part|] == s[k..k + |part|];
        assert OccursAt(s[1..], part, k - 1);
      }
    }
  }
}
