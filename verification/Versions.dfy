/** The version order of the updater: a numeric core, then a prerelease compared identifier by identifier, with digit
    runs inside an identifier compared as numbers when they fit 32 bits. */
module Versions {
  import opened Text

  const INT_MAX := 2147483647
  const INT_MIN := -2147483648

  /** A System.Version; the parts that were not written are -1. */
  datatype Core = Core(major: int, minor: int, build: int, revision: int)

  datatype ParsedVersion = ParsedVersion(core: Core, prerelease: string)

  const ZERO_CORE := Core(0, 0, 0, -1)

  function Sign(n: int): int {
    if n < 0 then -1 else if n > 0 then 1 else 0
  }

  predicate AllDigits(s: string) {
    forall i :: 0 <= i < |s| ==> IsDigit(s[i])
  }

  function DigitsValue(s: string): nat
    requires AllDigits(s)
  {
    if s == "" then 0 else DigitsValue(s[..|s| - 1]) * 10 + (s[|s| - 1] as int - '0' as int)
  }

  /** A run of digits that int.TryParse accepts. */
  predicate Fits(s: string) {
    s != "" && AllDigits(s) && DigitsValue(s) <= INT_MAX
  }

  function TryParseInt(s: string): Option<int> {
    var text := Trim(s);
    var negative := text != "" && text[0] == '-';
    var digits := if text != "" && (text[0] == '-' || text[0] == '+') then text[1..] else text;
    if digits == "" || !AllDigits(digits) then None
    else
      var magnitude: int := DigitsValue(digits);
      var value := if negative then -magnitude else magnitude;
      if INT_MIN <= value <= INT_MAX then Some(value) else None
  }

  function TakeNumeric(s: string): string {
    if s != "" && (IsDigit(s[0]) || s[0] == '.') then [s[0]] + TakeNumeric(s[1..]) else ""
  }

  function TryParseCore(text: string): Option<Core> {
    var parts := Split(text, '.');
    if !(2 <= |parts| <= 4) || exists i :: 0 <= i < |parts| && !Fits(parts[i]) then None
    else Some(Core(DigitsValue(parts[0]), DigitsValue(parts[1]),
                   if |parts| > 2 then DigitsValue(parts[2]) else -1,
                   if |parts| > 3 then DigitsValue(parts[3]) else -1))
  }

  function ParseSemVersion(value: string): ParsedVersion {
    var text := Trim(Before(value, '+'));
    var clean := TakeNumeric(Before(text, '-'));
    var core := TryParseCore(clean);
    ParsedVersion(if core.Some? then core.value else ZERO_CORE, After(text, '-'))
  }

  function CompareCores(l: Core, r: Core): int {
    if l.major != r.major then Sign(l.major - r.major)
    else if l.minor != r.minor then Sign(l.minor - r.minor)
    else if l.build != r.build then Sign(l.build - r.build)
    else Sign(l.revision - r.revision)
  }

  /** string.Compare with ordinal, case-insensitive rules. */
  function CompareText(l: string, r: string): int {
    if l == "" || r == "" then Sign(|l| - |r|)
    else if UpperChar(l[0]) != UpperChar(r[0]) then Sign(UpperChar(l[0]) as int - UpperChar(r[0]) as int)
    else CompareText(l[1..], r[1..])
  }

  /** How far a text keeps being digits, or keeps not being digits. */
  function RunLength(s: string, digit: bool): (n: nat)
    ensures n <= |s|
    ensures forall i :: 0 <= i < n ==> IsDigit(s[i]) == digit
    ensures n < |s| ==> IsDigit(s[n]) != digit
  {
    if s == "" || IsDigit(s[0]) != digit then 0 else 1 + RunLength(s[1..], digit)
  }

  function FirstRun(s: string): (run: string)
    requires s != ""
    ensures 0 < |run| <= |s| && s[..|run|] == run
  {
    s[..RunLength(s, IsDigit(s[0]))]
  }

  function CompareRuns(l: string, r: string): int
    requires l != "" && r != ""
  {
    if Fits(l) && Fits(r) then Sign(DigitsValue(l) - DigitsValue(r))
    else if IsDigit(l[0]) != IsDigit(r[0]) then (if IsDigit(l[0]) then -1 else 1)
    else CompareText(l, r)
  }

  /** The natural order of identifiers: run by run, and then the shorter first. */
  function CompareNatural(l: string, r: string): int {
    if l == "" || r == "" then Sign(|l| - |r|)
    else
      var a, b := FirstRun(l), FirstRun(r);
      var c := CompareRuns(a, b);
      if c != 0 then c else CompareNatural(l[|a|..], r[|b|..])
  }

  function CompareIdentifiers(l: string, r: string): int {
    match (TryParseInt(l), TryParseInt(r))
    case (Some(m), Some(n)) => Sign(m - n)
    case (Some(_), None) => -1
    case (None, Some(_)) => 1
    case (None, None) => CompareNatural(l, r)
  }

  function ComparePieces(l: seq<string>, r: seq<string>): int {
    if l == [] || r == [] then Sign(|l| - |r|)
    else
      var c := CompareIdentifiers(l[0], r[0]);
      if c != 0 then c else ComparePieces(l[1..], r[1..])
  }

  function Identifiers(prerelease: string): seq<string> {
    WithoutEmpty(Split(prerelease, '.'))
  }

  function CompareParsed(l: ParsedVersion, r: ParsedVersion): int {
    var core := CompareCores(l.core, r.core);
    if core != 0 then core
    else if IsBlank(l.prerelease) && IsBlank(r.prerelease) then 0
    else if IsBlank(l.prerelease) then 1
    else if IsBlank(r.prerelease) then -1
    else ComparePieces(Identifiers(l.prerelease), Identifiers(r.prerelease))
  }

  /** The sign of CompareVersions. */
  function CompareVersions(left: string, right: string): int {
    CompareParsed(ParseSemVersion(left), ParseSemVersion(right))
  }

  datatype VersionAction = AlreadyCurrent | UpdateAllowed | DowngradeBlocked

  function DecideVersionAction(installed: string, target: string, force: bool): VersionAction {
    var comparison := CompareVersions(target, installed);
    if comparison == 0 && !force then AlreadyCurrent
    else if comparison < 0 && !force then DowngradeBlocked
    else UpdateAllowed
  }

  lemma {:induction false} RunLengthAdds(s: string, digit: bool, start: nat, at: nat)
    requires start <= at <= |s|
    requires forall i :: start <= i < at ==> IsDigit(s[i]) == digit
    ensures RunLength(s[start..], digit) == at - start + RunLength(s[at..], digit)
    decreases at - start
  {
    if start < at {
      assert s[start..][1..] == s[start + 1..];
      RunLengthAdds(s, digit, start + 1, at);
    }
  }

  /** Scanning a maximal run from a cursor finds the first run of the rest. */
  lemma ScannedRunIsFirstRun(s: string, start: nat, at: nat)
    requires start < at <= |s|
    requires forall i :: start <= i < at ==> IsDigit(s[i]) == IsDigit(s[start])
    requires at < |s| ==> IsDigit(s[at]) != IsDigit(s[start])
    ensures s[start..at] == FirstRun(s[start..])
    ensures s[start..][|s[start..at]|..] == s[at..]
  {
    RunLengthAdds(s, IsDigit(s[start]), start, at);
  }

  /** The loop over two cursors compares exactly as the natural order does. */
  method CompareIdentifierNatural(left: string, right: string) returns (c: int)
    ensures c == CompareNatural(left, right)
  {
    var i, j := 0, 0;
    while i < |left| && j < |right|
      invariant i <= |left| && j <= |right|
      invariant CompareNatural(left, right) == CompareNatural(left[i..], right[j..])
    {
      var leftDigit, rightDigit := IsDigit(left[i]), IsDigit(right[j]);
      var leftStart, rightStart := i, j;
      while i < |left| && IsDigit(left[i]) == leftDigit
        invariant leftStart <= i <= |left|
        invariant forall k :: leftStart <= k < i ==> IsDigit(left[k]) == leftDigit
      {
        i := i + 1;
      }
      while j < |right| && IsDigit(right[j]) == rightDigit
        invariant rightStart <= j <= |right|
        invariant forall k :: rightStart <= k < j ==> IsDigit(right[k]) == rightDigit
      {
        j := j + 1;
      }
      ScannedRunIsFirstRun(left, leftStart, i);
      ScannedRunIsFirstRun(right, rightStart, j);
      var leftPart, rightPart := left[leftStart..i], right[rightStart..j];
      var comparison: int;
      if Fits(leftPart) && Fits(rightPart) {
        comparison := Sign(DigitsValue(leftPart) - DigitsValue(rightPart));
      } else if leftDigit != rightDigit {
        comparison := if leftDigit then -1 else 1;
      } else {
        comparison := CompareText(leftPart, rightPart);
      }
      assert comparison == CompareRuns(leftPart, rightPart);
      if comparison != 0 {
        return comparison;
      }
    }
    c := Sign((|left| - i) - (|right| - j));
  }

  /** The loop over dotted identifiers compares exactly as the recursive order does. */
  method ComparePrerelease(left: string, right: string) returns (c: int)
    ensures c == ComparePieces(Identifiers(left), Identifiers(right))
  {
    hide TryParseInt, CompareNatural, Identifiers;
    var l, r := Identifiers(left), Identifiers(right);
    var length := if |l| > |r| then |l| else |r|;
    var index := 0;
    while index < length
      invariant 0 <= index <= length
      invariant index <= |l| && index <= |r|
      invariant ComparePieces(l, r) == ComparePieces(l[index..], r[index..])
    {
      if index >= |l| {
        return -1;
      }
      if index >= |r| {
        return 1;
      }
      var leftNumber, rightNumber := TryParseInt(l[index]), TryParseInt(r[index]);
      var comparison: int;
      if leftNumber.Some? && rightNumber.Some? {
        comparison := Sign(leftNumber.value - rightNumber.value);
      } else if leftNumber.Some? {
        comparison := -1;
      } else if rightNumber.Some? {
        comparison := 1;
      } else {
        comparison := CompareIdentifierNatural(l[index], r[index]);
      }
      assert comparison == CompareIdentifiers(l[index..][0], r[index..][0]);
      if comparison != 0 {
        return comparison;
      }
      assert l[index..][1..] == l[index + 1..] && r[index..][1..] == r[index + 1..];
      index := index + 1;
    }
    c := 0;
  }

  // Antisymmetry, for all texts.

  lemma {:induction false} TextIsAntisymmetric(l: string, r: string)
    ensures CompareText(r, l) == -CompareText(l, r)
  {
    if l != "" && r != "" {
      TextIsAntisymmetric(l[1..], r[1..]);
    }
  }

  lemma RunsAreAntisymmetric(l: string, r: string)
    requires l != "" && r != ""
    ensures CompareRuns(r, l) == -CompareRuns(l, r)
  {
    TextIsAntisymmetric(l, r);
  }

  lemma {:induction false} NaturalIsAntisymmetric(l: string, r: string)
    ensures CompareNatural(r, l) == -CompareNatural(l, r)
    decreases |l|
  {
    if l != "" && r != "" {
      var a, b := FirstRun(l), FirstRun(r);
      RunsAreAntisymmetric(a, b);
      NaturalIsAntisymmetric(l[|a|..], r[|b|..]);
    }
  }

  lemma {:induction false} PiecesAreAntisymmetric(l: seq<string>, r: seq<string>)
    ensures ComparePieces(r, l) == -ComparePieces(l, r)
  {
    if l != [] && r != [] {
      NaturalIsAntisymmetric(l[0], r[0]);
      PiecesAreAntisymmetric(l[1..], r[1..]);
    }
  }

  /** Swapping the versions flips the sign, for all texts; so every version is as new as itself. */
  lemma CompareIsAntisymmetric(left: string, right: string)
    ensures CompareVersions(right, left) == -CompareVersions(left, right)
    ensures CompareVersions(left, left) == 0
  {
    var l, r := ParseSemVersion(left), ParseSemVersion(right);
    PiecesAreAntisymmetric(Identifiers(l.prerelease), Identifiers(r.prerelease));
    PiecesAreAntisymmetric(Identifiers(l.prerelease), Identifiers(l.prerelease));
  }

  // Transitivity, while every digit run fits.

  /** Two comparisons that do not descend compose, and strictly so when either is strict. */
  predicate Composes(ab: int, bc: int, ac: int) {
    ab <= 0 && bc <= 0 ==> ac <= 0 && (ac == 0 <==> ab == 0 && bc == 0)
  }

  lemma {:induction false} TextComposes(a: string, b: string, c: string)
    ensures Composes(CompareText(a, b), CompareText(b, c), CompareText(a, c))
  {
    if a != "" && b != "" && c != "" {
      TextComposes(a[1..], b[1..], c[1..]);
    }
  }

  lemma RunsCompose(a: string, b: string, c: string)
    requires a != "" && b != "" && c != ""
    requires forall i :: 0 <= i < |a| ==> IsDigit(a[i]) == IsDigit(a[0])
    requires forall i :: 0 <= i < |b| ==> IsDigit(b[i]) == IsDigit(b[0])
    requires forall i :: 0 <= i < |c| ==> IsDigit(c[i]) == IsDigit(c[0])
    requires (IsDigit(a[0]) ==> Fits(a)) && (IsDigit(b[0]) ==> Fits(b)) && (IsDigit(c[0]) ==> Fits(c))
    ensures Composes(CompareRuns(a, b), CompareRuns(b, c), CompareRuns(a, c))
  {
    TextComposes(a, b, c);
  }

  /** Every digit run of the identifier fits 32 bits. */
  predicate RunsFit(s: string) {
    s == "" || (var run := FirstRun(s); (IsDigit(s[0]) ==> Fits(run)) && RunsFit(s[|run|..]))
  }

  lemma {:induction false} NaturalComposes(a: string, b: string, c: string)
    requires RunsFit(a) && RunsFit(b) && RunsFit(c)
    ensures Composes(CompareNatural(a, b), CompareNatural(b, c), CompareNatural(a, c))
    decreases |a|
  {
    if a != "" && b != "" && c != "" {
      var x, y, z := FirstRun(a), FirstRun(b), FirstRun(c);
      RunsCompose(x, y, z);
      NaturalComposes(a[|x|..], b[|y|..], c[|z|..]);
    }
  }

  /** The identifier is a number for int.TryParse, or all of its digit runs fit. */
  predicate Bounded(identifier: string) {
    TryParseInt(identifier).Some? || RunsFit(identifier)
  }

  lemma IdentifiersCompose(a: string, b: string, c: string)
    requires Bounded(a) && Bounded(b) && Bounded(c)
    ensures Composes(CompareIdentifiers(a, b), CompareIdentifiers(b, c), CompareIdentifiers(a, c))
  {
    if TryParseInt(a).None? && TryParseInt(b).None? && TryParseInt(c).None? {
      NaturalComposes(a, b, c);
    }
  }

  lemma {:induction false} PiecesCompose(a: seq<string>, b: seq<string>, c: seq<string>)
    requires forall i :: 0 <= i < |a| ==> Bounded(a[i])
    requires forall i :: 0 <= i < |b| ==> Bounded(b[i])
    requires forall i :: 0 <= i < |c| ==> Bounded(c[i])
    ensures Composes(ComparePieces(a, b), ComparePieces(b, c), ComparePieces(a, c))
  {
    if a != [] && b != [] && c != [] {
      IdentifiersCompose(a[0], b[0], c[0]);
      PiecesCompose(a[1..], b[1..], c[1..]);
    }
  }

  /** Every identifier of the version's prerelease is bounded. */
  predicate BoundedVersion(version: string) {
    var pieces := Identifiers(ParseSemVersion(version).prerelease);
    forall i :: 0 <= i < |pieces| ==> Bounded(pieces[i])
  }

  lemma CoresCompose(a: Core, b: Core, c: Core)
    ensures Composes(CompareCores(a, b), CompareCores(b, c), CompareCores(a, c))
    ensures CompareCores(a, b) == 0 <==> a == b
  {
  }

  /** Bounded versions are totally preordered. */
  lemma CompareIsTransitive(a: string, b: string, c: string)
    requires BoundedVersion(a) && BoundedVersion(b) && BoundedVersion(c)
    ensures Composes(CompareVersions(a, b), CompareVersions(b, c), CompareVersions(a, c))
  {
    var x, y, z := ParseSemVersion(a), ParseSemVersion(b), ParseSemVersion(c);
    CoresCompose(x.core, y.core, z.core);
    PiecesCompose(Identifiers(x.prerelease), Identifiers(y.prerelease), Identifiers(z.prerelease));
  }

  /** Each version was installed over the one before without force. */
  predicate UnforcedChain(versions: seq<string>) {
    forall i :: 0 < i < |versions| ==> DecideVersionAction(versions[i - 1], versions[i], false) == UpdateAllowed
  }

  /** An unforced update is allowed exactly to a newer version. */
  lemma AllowedMeansNewer(installed: string, target: string)
    ensures DecideVersionAction(installed, target, false) == UpdateAllowed <==> CompareVersions(installed, target) < 0
    ensures DecideVersionAction(installed, target, false) == UpdateAllowed ==> installed != target
  {
    CompareIsAntisymmetric(installed, target);
    hide CompareVersions;
  }

  /** Along any chain of unforced updates the version strictly increases, so none ever comes back. */
  lemma {:induction false} UnforcedUpdatesOnlyClimb(versions: seq<string>, i: nat, j: nat)
    requires UnforcedChain(versions) && i < j < |versions|
    requires forall k :: 0 <= k < |versions| ==> BoundedVersion(versions[k])
    ensures CompareVersions(versions[i], versions[j]) < 0
    ensures versions[i] != versions[j]
    decreases j
  {
    hide CompareVersions, DecideVersionAction, BoundedVersion;
    AllowedMeansNewer(versions[j - 1], versions[j]);
    if i < j - 1 {
      UnforcedUpdatesOnlyClimb(versions, i, j - 1);
      CompareIsTransitive(versions[i], versions[j - 1], versions[j]);
      CompareIsAntisymmetric(versions[i], versions[i]);
    }
  }

  // Past 32 bits the order breaks.

  /** After a release number and a dash, a plain identifier is the whole prerelease. */
  lemma PlainPrerelease(release: string, identifier: string)
    requires release != "" && '-' !in release && '+' !in release && !IsWhite(release[0])
    requires identifier != "" && '+' !in identifier && !IsWhite(identifier[|identifier| - 1])
    ensures ParseSemVersion(release + "-" + identifier).prerelease == identifier
    ensures ParseSemVersion(release + "-" + identifier).core
            == (var core := TryParseCore(TakeNumeric(release)); if core.Some? then core.value else ZERO_CORE)
  {
    hide TryParseCore, TakeNumeric;
    var text := release + ['-'] + identifier;
    BeforeAbsent(text, '+');
    TrimKeeps(text);
    CutAtSeparator(release, identifier, '-');
  }

  lemma IdentifiersDecide(core: Core, l: string, r: string)
    requires l != "" && '.' !in l && !IsWhite(l[0]) && r != "" && '.' !in r && !IsWhite(r[0])
    requires TryParseInt(l).None? && TryParseInt(r).None?
    ensures CompareParsed(ParsedVersion(core, l), ParsedVersion(core, r)) == CompareNatural(l, r)
  {
    hide TryParseInt, CompareNatural;
    SplitAbsent(l, '.');
    SplitAbsent(r, '.');
    assert [l][1..] == [] && [r][1..] == [];
    assert WithoutEmpty([l]) == [l] && WithoutEmpty([r]) == [r];
    assert Identifiers(l) == [l] && Identifiers(r) == [r];
    assert ComparePieces([l], [r]) == CompareNatural(l, r);
  }

  /** Two identifiers that are no numbers decide between versions that agree before them. */
  lemma PlainIdentifiersDecide(release: string, l: string, r: string)
    requires release != "" && '-' !in release && '+' !in release && !IsWhite(release[0])
    requires l != "" && '+' !in l && '.' !in l && !IsWhite(l[0]) && !IsWhite(l[|l| - 1])
    requires r != "" && '+' !in r && '.' !in r && !IsWhite(r[0]) && !IsWhite(r[|r| - 1])
    requires TryParseInt(l).None? && TryParseInt(r).None?
    ensures CompareVersions(release + "-" + l, release + "-" + r) == CompareNatural(l, r)
  {
    hide ParseSemVersion, TryParseInt, CompareNatural, CompareParsed, TryParseCore, TakeNumeric;
    PlainPrerelease(release, l);
    PlainPrerelease(release, r);
    var core := ParseSemVersion(release + "-" + l).core;
    assert ParseSemVersion(release + "-" + l) == ParsedVersion(core, l);
    assert ParseSemVersion(release + "-" + r) == ParsedVersion(core, r);
    IdentifiersDecide(core, l, r);
  }

  lemma DigitsNatural(x: string, y: string)
    requires x != "" && y != "" && AllDigits(x) && AllDigits(y)
    ensures CompareNatural(x, y) == CompareRuns(x, y)
  {
    hide CompareRuns;
    ScannedRunIsFirstRun(x, 0, |x|);
    ScannedRunIsFirstRun(y, 0, |y|);
    assert x[0..] == x && y[0..] == y && x[|x|..] == "" && y[|y|..] == "";
    assert FirstRun(x) == x && FirstRun(y) == y;
    assert CompareNatural("", "") == 0;
  }

  lemma PrefixedNatural(prefix: string, x: string, y: string)
    requires prefix != "" && x != "" && y != "" && AllDigits(x) && AllDigits(y)
    requires forall i :: 0 <= i < |prefix| ==> !IsDigit(prefix[i])
    ensures CompareNatural(prefix + x, prefix + y) == CompareRuns(x, y)
  {
    hide CompareRuns;
    var l, r, n := prefix + x, prefix + y, |prefix|;
    ScannedRunIsFirstRun(l, 0, n);
    ScannedRunIsFirstRun(r, 0, n);
    assert l[0..] == l && r[0..] == r && l[0..n] == prefix && r[0..n] == prefix;
    RunsAreAntisymmetric(prefix, prefix);
    assert l[n..] == x && r[n..] == y;
    DigitsNatural(x, y);
  }

  /** Versions of the form 1.0.0-rc<digits> compare as their digit runs do. */
  lemma CandidatesCompareByRun(x: string, y: string)
    requires x != "" && y != "" && AllDigits(x) && AllDigits(y)
    ensures CompareVersions("1.0.0-rc" + x, "1.0.0-rc" + y) == CompareRuns(x, y)
  {
    hide ParseSemVersion, CompareNatural, CompareRuns, Identifiers;
    var l, r := "rc" + x, "rc" + y;
    assert "1.0.0-rc" + x == "1.0.0" + "-" + l && "1.0.0-rc" + y == "1.0.0" + "-" + r;
    TrimKeeps(l);
    TrimKeeps(r);
    assert !IsDigit(l[0]) && !IsDigit(r[0]);
    PlainIdentifiersDecide("1.0.0", l, r);
    PrefixedNatural("rc", x, y);
  }

  function Power10(n: nat): nat {
    if n == 0 then 1 else 10 * Power10(n - 1)
  }

  lemma {:induction false} DigitsValueBelow(digits: string)
    requires AllDigits(digits)
    ensures DigitsValue(digits) < Power10(|digits|)
  {
    if digits != "" {
      DigitsValueBelow(digits[..|digits| - 1]);
    }
  }

  lemma PowersOfTen()
    ensures Power10(9) == 1_000_000_000
  {
    assert Power10(3) == 1000;
    assert Power10(6) == 1000 * Power10(3);
    assert Power10(9) == 1000 * Power10(6);
  }

  lemma {:induction false} PowerGrows(n: nat, m: nat)
    requires n <= m
    ensures Power10(n) <= Power10(m)
    decreases m
  {
    if n < m {
      PowerGrows(n, m - 1);
    }
  }

  /** A run of up to nine digits fits 32 bits. */
  lemma ShortRunsFit(digits: string)
    requires AllDigits(digits) && 1 <= |digits| <= 9
    ensures Fits(digits) && DigitsValue(digits) < 1_000_000_000
  {
    DigitsValueBelow(digits);
    PowersOfTen();
    PowerGrows(|digits|, 9);
  }

  // Which runs of digits past 32 bits take part in a cycle.

  const NINES := "999999999"

  /** A text that starts another comes before it. */
  lemma {:induction false} PrefixComesFirst(part: string, whole: string)
    requires part <= whole && part != whole
    ensures CompareText(part, whole) < 0
  {
    if part != "" {
      PrefixComesFirst(part[1..], whole[1..]);
    }
  }

  /** After a shared beginning, the first differing characters decide. */
  lemma {:induction false} FirstDifferenceDecides(l: string, r: string, n: nat)
    requires AllDigits(l) && AllDigits(r)
    requires n < |l| && n < |r| && l[..n] == r[..n] && l[n] != r[n]
    ensures CompareText(l, r) == if l[n] < r[n] then -1 else 1
    decreases n
  {
    if n > 0 {
      assert l[0] == l[..n][0] && r[0] == r[..n][0];
      assert l[1..][..n - 1] == l[..n][1..] && r[1..][..n - 1] == r[..n][1..];
      FirstDifferenceDecides(l[1..], r[1..], n - 1);
    }
  }

  /** rcX is older than rcY, rcY than rcD, and rcD than rcX. */
  predicate Cycle(x: string, y: string, digits: string) {
    && x != "" && y != "" && AllDigits(x) && AllDigits(y)
    && CompareVersions("1.0.0-rc" + x, "1.0.0-rc" + y) < 0
    && CompareVersions("1.0.0-rc" + y, "1.0.0-rc" + digits) < 0
    && CompareVersions("1.0.0-rc" + digits, "1.0.0-rc" + x) < 0
  }

  lemma CycleByRuns(x: string, y: string, digits: string)
    requires x != "" && y != "" && digits != "" && AllDigits(x) && AllDigits(y) && AllDigits(digits)
    ensures Cycle(x, y, digits) <==> CompareRuns(x, y) < 0 && CompareRuns(y, digits) < 0 && CompareRuns(digits, x) < 0
  {
    hide CompareVersions, CompareRuns;
    CandidatesCompareByRun(x, y);
    CandidatesCompareByRun(y, digits);
    CandidatesCompareByRun(digits, x);
  }

  lemma {:induction false} PrefixValue(digits: string, n: nat)
    requires AllDigits(digits) && n <= |digits|
    ensures DigitsValue(digits[..n]) <= DigitsValue(digits)
    decreases |digits|
  {
    if n == |digits| {
      assert digits[..n] == digits;
    } else {
      PrefixValue(digits[..|digits| - 1], n);
      assert digits[..|digits| - 1][..n] == digits[..n];
    }
  }

  /** The shortest beginning of a long run that is worth more than nine. */
  lemma {:induction false} ShortBeginning(digits: string) returns (m: nat)
    requires AllDigits(digits) && DigitsValue(digits) > 99
    ensures 0 < m < |digits| && 9 < DigitsValue(digits[..m]) <= 99
  {
    var n := |digits| - 1;
    if DigitsValue(digits[..n]) <= 99 {
      m := n;
    } else {
      m := ShortBeginning(digits[..n]);
      assert digits[..n][..m] == digits[..m];
    }
  }

  lemma {:induction false} FirstDifference(l: string, r: string) returns (n: nat)
    requires !(l <= r) && !(r <= l)
    ensures n < |l| && n < |r| && l[..n] == r[..n] && l[n] != r[n]
    decreases |l|
  {
    if l[0] != r[0] {
      n := 0;
    } else {
      assert l == [l[0]] + l[1..] && r == [r[0]] + r[1..];
      var k := FirstDifference(l[1..], r[1..]);
      n := k + 1;
      assert l[..n] == [l[0]] + l[1..][..k] && r[..n] == [r[0]] + r[1..][..k];
    }
  }

  lemma {:induction false} AllNinesValue(s: string)
    requires forall i :: 0 <= i < |s| ==> s[i] == '9'
    ensures AllDigits(s) && DigitsValue(s) == Power10(|s|) - 1
  {
    if s != "" {
      AllNinesValue(s[..|s| - 1]);
    }
  }

  lemma NinesValue(digits: string)
    requires AllDigits(digits) && NINES <= digits && |digits| > 9
    ensures DigitsValue(digits) > INT_MAX
  {
    var ten := digits[..10];
    assert ten[..9] == NINES;
    AllNinesValue(NINES);
    PowersOfTen();
    PrefixValue(digits, 10);
  }

  /** A run that fits comes, as a text, before every longer one of nine nines. */
  lemma FittingComesBeforeNines(x: string, digits: string)
    requires Fits(x) && AllDigits(digits) && NINES <= digits && |digits| > 9
    ensures CompareText(x, digits) < 0
  {
    if x <= NINES {
      PrefixComesFirst(x, digits);
    } else if NINES <= x {
      NinesValue(x);
    } else {
      var n := FirstDifference(x, NINES);
      assert digits[..9] == NINES && digits[..9][..n] == digits[..n];
      assert NINES[n] == '9' && digits[..9][n] == digits[n];
      FirstDifferenceDecides(x, digits, n);
    }
  }

  lemma NinesTakePartInNoCycle(digits: string, x: string, y: string)
    requires AllDigits(digits) && NINES <= digits && |digits| > 9
    ensures !Cycle(x, y, digits)
  {
    NinesValue(digits);
    if Cycle(x, y, digits) {
      CycleByRuns(x, y, digits);
      TextIsAntisymmetric(x, digits);
      if Fits(x) {
        FittingComesBeforeNines(x, digits);
      } else {
        TextComposes(x, y, digits);
      }
    }
  }

  lemma SmallFirstDigitCycles(digits: string) returns (x: string, y: string)
    requires AllDigits(digits) && DigitsValue(digits) > INT_MAX && digits[0] != '9'
    ensures Cycle(x, y, digits)
  {
    x := [(digits[0] as int + 1) as char];
    var m := ShortBeginning(digits);
    y := digits[..m];
    assert DigitsValue(x) == digits[0] as int + 1 - '0' as int;
    PrefixComesFirst(y, digits);
    FirstDifferenceDecides(digits, x, 0);
    CycleByRuns(x, y, digits);
  }

  lemma NineFirstCycles(digits: string) returns (x: string, y: string)
    requires AllDigits(digits) && DigitsValue(digits) > INT_MAX && digits[0] == '9'
    requires |digits| > 9 && !(NINES <= digits)
    ensures Cycle(x, y, digits)
  {
    var p := FirstDifference(digits, NINES);
    x := digits[..p] + [(digits[p] as int + 1) as char];
    y := "1" + NINES;
    ShortRunsFit(x);
    OneThenNinesValue(y);
    PowersOfTen();
    assert x[..p] == digits[..p];
    FirstDifferenceDecides(digits, x, p);
    FirstDifferenceDecides(y, digits, 0);
    CycleByRuns(x, y, digits);
  }

  lemma {:induction false} OneThenNinesValue(s: string)
    requires s != "" && s[0] == '1' && forall i :: 1 <= i < |s| ==> s[i] == '9'
    ensures AllDigits(s) && DigitsValue(s) == 2 * Power10(|s| - 1) - 1
  {
    if |s| > 1 {
      OneThenNinesValue(s[..|s| - 1]);
    } else {
      assert s[..0] == "";
    }
  }

  /** A release candidate whose number is past 32 bits takes part in a cycle of three, rc5 < rc40 < rc40000000000 < rc5,
      exactly unless its number starts with nine nines. */
  lemma OversizedRunsMakeACycle(digits: string)
    requires AllDigits(digits) && DigitsValue(digits) > INT_MAX
    ensures (exists x, y :: Cycle(x, y, digits)) <==> !(NINES <= digits)
  {
    hide Cycle;
    if |digits| <= 9 {
      ShortRunsFit(digits);
    }
    if NINES <= digits {
      forall x, y
        ensures !Cycle(x, y, digits)
      {
        NinesTakePartInNoCycle(digits, x, y);
      }
    } else if digits[0] == '9' {
      var x, y := NineFirstCycles(digits);
    } else {
      var x, y := SmallFirstDigitCycles(digits);
    }
  }

  // What the order says of version texts.

  /** The numbers as they are written, with a dot between two. */
  function Dotted(parts: seq<string>): string {
    if parts == [] then "" else if |parts| == 1 then parts[0] else parts[0] + "." + Dotted(parts[1..])
  }

  /** Two to four numbers that fit 32 bits. */
  predicate IsRelease(parts: seq<string>) {
    2 <= |parts| <= 4 && forall i :: 0 <= i < |parts| ==> Fits(parts[i])
  }

  /** A release, or a prerelease of it. */
  function VersionText(parts: seq<string>, prerelease: string): string {
    if prerelease == "" then Dotted(parts) else Dotted(parts) + "-" + prerelease
  }

  predicate IsPrerelease(text: string) {
    text == "" || ('+' !in text && !IsWhite(text[|text| - 1]) && !IsBlank(text))
  }

  function NumbersOf(parts: seq<string>): Core
    requires IsRelease(parts)
  {
    Core(DigitsValue(parts[0]), DigitsValue(parts[1]), if |parts| > 2 then DigitsValue(parts[2]) else -1,
         if |parts| > 3 then DigitsValue(parts[3]) else -1)
  }

  lemma {:induction false} DottedSplits(parts: seq<string>)
    requires parts != [] && forall i :: 0 <= i < |parts| ==> '.' !in parts[i]
    ensures Split(Dotted(parts), '.') == parts
  {
    hide Split;
    if |parts| == 1 {
      SplitAbsent(parts[0], '.');
    } else {
      var rest := Dotted(parts[1..]);
      DottedSplits(parts[1..]);
      SplitOfJoined(parts[0], rest, '.');
      SplitAbsent(parts[0], '.');
      assert Dotted(parts) == parts[0] + ['.'] + rest;
      hide Dotted;
      assert [parts[0]] + parts[1..] == parts;
    }
  }

  predicate IsNumeric(s: string) {
    forall i :: 0 <= i < |s| ==> IsDigit(s[i]) || s[i] == '.'
  }

  lemma {:induction false} DottedIsNumeric(parts: seq<string>)
    requires forall i :: 0 <= i < |parts| ==> AllDigits(parts[i])
    ensures IsNumeric(Dotted(parts))
  {
    if |parts| > 1 {
      DottedIsNumeric(parts[1..]);
    }
  }

  lemma {:induction false} NumericIsTaken(s: string)
    requires IsNumeric(s)
    ensures TakeNumeric(s) == s
  {
    if s != "" {
      NumericIsTaken(s[1..]);
      assert [s[0]] + s[1..] == s;
    }
  }

  /** A release and its prereleases are read as their numbers and the rest. */
  lemma VersionIsRead(parts: seq<string>, prerelease: string)
    requires IsRelease(parts) && IsPrerelease(prerelease)
    ensures ParseSemVersion(VersionText(parts, prerelease)) == ParsedVersion(NumbersOf(parts), prerelease)
  {
    var release := Dotted(parts);
    DottedSplits(parts);
    DottedIsNumeric(parts);
    NumericIsTaken(release);
    assert release[0] == parts[0][0];
    assert TryParseCore(release) == Some(NumbersOf(parts));
    hide TryParseCore, TakeNumeric, Dotted, Split, Fits;
    if prerelease == "" {
      BeforeAbsent(release, '+');
      BeforeAbsent(release, '-');
      NothingAfter(release, '-');
      assert Before(release, '+') == release;
      NumericIsTrimmed(release);
    } else {
      PlainPrerelease(release, prerelease);
    }
  }

  lemma NumericIsTrimmed(s: string)
    requires s != "" && IsNumeric(s)
    ensures Trim(s) == s
  {
    TrimKeeps(s);
  }

  lemma {:induction false} NothingAfter(s: string, sep: char)
    requires sep !in s
    ensures After(s, sep) == ""
  {
    if s != "" {
      NothingAfter(s[1..], sep);
    }
  }

  /** The numbers agree before i, and there the first one is smaller, or already at its end. */
  predicate SmallerAt(l: seq<string>, r: seq<string>, i: nat)
    requires IsRelease(l) && IsRelease(r)
  {
    && i <= |l| && i < |r| && (forall k :: 0 <= k < i ==> DigitsValue(l[k]) == DigitsValue(r[k]))
    && (i == |l| || DigitsValue(l[i]) < DigitsValue(r[i]))
  }

  predicate SameNumbers(l: seq<string>, r: seq<string>)
    requires IsRelease(l) && IsRelease(r)
  {
    |l| == |r| && forall k :: 0 <= k < |l| ==> DigitsValue(l[k]) == DigitsValue(r[k])
  }

  /** Of two versions the first number in which they differ decides, whatever their prereleases: the smaller one is
      older, and a number that is not written is older than any. */
  lemma FirstNumberDecides(l: seq<string>, p: string, r: seq<string>, q: string, i: nat)
    requires IsRelease(l) && IsRelease(r) && IsPrerelease(p) && IsPrerelease(q) && SmallerAt(l, r, i)
    ensures CompareVersions(VersionText(l, p), VersionText(r, q)) == -1
    ensures CompareVersions(VersionText(r, q), VersionText(l, p)) == 1
  {
    VersionIsRead(l, p);
    VersionIsRead(r, q);
    assert forall k :: 0 <= k < i ==> DigitsValue(l[k]) == DigitsValue(r[k]);
    hide ParseSemVersion, DigitsValue, Fits, VersionText, ComparePieces, Identifiers;
    assert i == 0 || i == 1 || i == 2 || i == 3;
  }

  /** Releases with the same numbers are equally new, however their numbers are written. */
  lemma SameNumbersAreEqual(l: seq<string>, r: seq<string>)
    requires IsRelease(l) && IsRelease(r) && SameNumbers(l, r)
    ensures CompareVersions(VersionText(l, ""), VersionText(r, "")) == 0
  {
    VersionIsRead(l, "");
    VersionIsRead(r, "");
    hide ParseSemVersion, DigitsValue, Fits, VersionText;
  }

  /** So without force an update goes through from a release to another exactly if the first differing number grows. */
  lemma NumbersDecideActions(installed: seq<string>, target: seq<string>)
    requires IsRelease(installed) && IsRelease(target)
    ensures var action := DecideVersionAction(VersionText(installed, ""), VersionText(target, ""), false);
            && (action == UpdateAllowed <==> exists i :: SmallerAt(installed, target, i))
            && (action == DowngradeBlocked <==> exists i :: SmallerAt(target, installed, i))
            && (action == AlreadyCurrent <==> SameNumbers(installed, target))
  {
    hide CompareVersions, VersionText, IsRelease;
    if SameNumbers(installed, target) {
      SameNumbersAreEqual(target, installed);
    } else {
      var i := FirstDifferentNumber(installed, target, 0);
      if SmallerAt(installed, target, i) {
        FirstNumberDecides(installed, "", target, "", i);
      } else {
        FirstNumberDecides(target, "", installed, "", i);
      }
    }
    if i: nat :| SmallerAt(installed, target, i) {
      FirstNumberDecides(installed, "", target, "", i);
    }
    if i: nat :| SmallerAt(target, installed, i) {
      FirstNumberDecides(target, "", installed, "", i);
    }
  }

  lemma FirstDifferentNumber(l: seq<string>, r: seq<string>, from: nat) returns (i: nat)
    requires IsRelease(l) && IsRelease(r) && !SameNumbers(l, r) && from <= |l| && from <= |r|
    requires forall k :: 0 <= k < from ==> DigitsValue(l[k]) == DigitsValue(r[k])
    ensures SmallerAt(l, r, i) || SmallerAt(r, l, i)
    decreases |l| - from
  {
    if from == |l| || from == |r| || DigitsValue(l[from]) != DigitsValue(r[from]) {
      i := from;
    } else {
      i := FirstDifferentNumber(l, r, from + 1);
    }
  }

  /** A release is newer than each of its prereleases. */
  lemma ReleaseIsNewer(parts: seq<string>, prerelease: string)
    requires IsRelease(parts) && IsPrerelease(prerelease) && prerelease != ""
    ensures CompareVersions(VersionText(parts, prerelease), VersionText(parts, "")) == -1
  {
    VersionIsRead(parts, prerelease);
    VersionIsRead(parts, "");
    hide ParseSemVersion, VersionText;
  }

  /** A piece of a prerelease, as it can stand between dots. */
  predicate IsIdentifier(s: string) {
    s != "" && forall i :: 0 <= i < |s| ==> s[i] != '.' && s[i] != '+' && !IsWhite(s[i])
  }

  predicate AreIdentifiers(ids: seq<string>) {
    ids != [] && forall i :: 0 <= i < |ids| ==> IsIdentifier(ids[i])
  }

  lemma {:induction false} DottedIdentifiers(ids: seq<string>)
    requires AreIdentifiers(ids)
    ensures Identifiers(Dotted(ids)) == ids
    ensures IsPrerelease(Dotted(ids)) && Dotted(ids) != "" && !IsWhite(Dotted(ids)[0])
  {
    DottedSplits(ids);
    NoneIsEmpty(ids);
    hide Split;
    if |ids| > 1 {
      DottedIdentifiers(ids[1..]);
    } else {
      assert !IsWhite(ids[0][0]);
    }
  }

  lemma {:induction false} NoneIsEmpty(pieces: seq<string>)
    requires forall i :: 0 <= i < |pieces| ==> pieces[i] != ""
    ensures WithoutEmpty(pieces) == pieces
  {
    if pieces != [] {
      NoneIsEmpty(pieces[1..]);
    }
  }

  /** Prereleases of one release compare identifier by identifier. */
  lemma PrereleasesCompare(parts: seq<string>, a: seq<string>, b: seq<string>)
    requires IsRelease(parts) && AreIdentifiers(a) && AreIdentifiers(b)
    ensures CompareVersions(VersionText(parts, Dotted(a)), VersionText(parts, Dotted(b))) == ComparePieces(a, b)
  {
    DottedIdentifiers(a);
    DottedIdentifiers(b);
    VersionIsRead(parts, Dotted(a));
    VersionIsRead(parts, Dotted(b));
    hide ParseSemVersion, VersionText, ComparePieces, Identifiers, Dotted;
  }

  lemma {:induction false} PiecesAgreeBefore(a: seq<string>, b: seq<string>, i: nat)
    requires i <= |a| && i <= |b| && a[..i] == b[..i]
    ensures ComparePieces(a, b) == ComparePieces(a[i..], b[i..])
    decreases i
  {
    hide CompareIdentifiers;
    if i > 0 {
      assert a[0] == a[..i][0] == b[..i][0] == b[0];
      IdentifierEqualsItself(a[0]);
      assert a[1..][..i - 1] == a[..i][1..] && b[1..][..i - 1] == b[..i][1..];
      PiecesAgreeBefore(a[1..], b[1..], i - 1);
    }
  }

  lemma IdentifierEqualsItself(s: string)
    ensures CompareIdentifiers(s, s) == 0
  {
    NaturalIsAntisymmetric(s, s);
  }

  /** A prerelease is older than one that goes on after it. */
  lemma LongerPrereleaseIsNewer(parts: seq<string>, a: seq<string>, b: seq<string>)
    requires IsRelease(parts) && AreIdentifiers(a) && AreIdentifiers(b) && |a| < |b| && a == b[..|a|]
    ensures CompareVersions(VersionText(parts, Dotted(a)), VersionText(parts, Dotted(b))) == -1
  {
    PrereleasesCompare(parts, a, b);
    PiecesAgreeBefore(a, b, |a|);
  }

  /** The first identifiers in which two prereleases differ. */
  predicate DifferAt(a: seq<string>, b: seq<string>, i: nat) {
    AreIdentifiers(a) && AreIdentifiers(b) && i < |a| && i < |b| && a[..i] == b[..i] && a[i] != b[i]
  }

  /** Where both are numbers, the smaller one is older. */
  lemma SmallerIdentifierIsOlder(parts: seq<string>, a: seq<string>, b: seq<string>, i: nat)
    requires IsRelease(parts) && DifferAt(a, b, i)
    requires Fits(a[i]) && Fits(b[i]) && DigitsValue(a[i]) < DigitsValue(b[i])
    ensures CompareVersions(VersionText(parts, Dotted(a)), VersionText(parts, Dotted(b))) == -1
  {
    PrereleasesCompare(parts, a, b);
    PiecesAgreeBefore(a, b, i);
    DigitsAreParsed(a[i]);
    DigitsAreParsed(b[i]);
    hide CompareVersions, CompareNatural, TryParseInt, DigitsValue;
  }

  lemma DigitsAreParsed(s: string)
    requires Fits(s)
    ensures TryParseInt(s) == Some(DigitsValue(s))
  {
    TrimKeeps(s);
  }

  /** Where one is a number and the other begins with a letter, the number is older. */
  lemma NumberIsOlderThanWord(parts: seq<string>, a: seq<string>, b: seq<string>, i: nat)
    requires IsRelease(parts) && DifferAt(a, b, i)
    requires Fits(a[i]) && 'A' <= UpperChar(b[i][0]) <= 'Z'
    ensures CompareVersions(VersionText(parts, Dotted(a)), VersionText(parts, Dotted(b))) == -1
  {
    PrereleasesCompare(parts, a, b);
    PiecesAgreeBefore(a, b, i);
    DigitsAreParsed(a[i]);
    WordIsNoNumber(b[i]);
    hide CompareVersions, CompareNatural, TryParseInt, DigitsValue;
  }

  lemma WordIsNoNumber(s: string)
    requires IsIdentifier(s) && 'A' <= UpperChar(s[0]) <= 'Z'
    ensures TryParseInt(s).None?
  {
    TrimKeeps(s);
    assert !IsDigit(s[0]);
  }

  /** Where both are words with a number behind, as in rc9 and rc10, the smaller number is older. */
  lemma SmallerCandidateIsOlder(parts: seq<string>, a: seq<string>, b: seq<string>, i: nat, word: string, x: string, y: string)
    requires IsRelease(parts) && DifferAt(a, b, i) && a[i] == word + x && b[i] == word + y
    requires word != "" && 'A' <= UpperChar(word[0]) <= 'Z' && forall k :: 0 <= k < |word| ==> !IsDigit(word[k])
    requires Fits(x) && Fits(y) && DigitsValue(x) < DigitsValue(y)
    ensures CompareVersions(VersionText(parts, Dotted(a)), VersionText(parts, Dotted(b))) == -1
  {
    PrereleasesCompare(parts, a, b);
    PiecesAgreeBefore(a, b, i);
    WordIsNoNumber(a[i]);
    WordIsNoNumber(b[i]);
    PrefixedNatural(word, x, y);
    hide CompareVersions, CompareNatural, TryParseInt, DigitsValue;
  }

  /** Where both are words, the first letter in which they differ decides, in any spelling, and a word is older than one
      it begins. */
  lemma WordsDecideByLetter(parts: seq<string>, a: seq<string>, b: seq<string>, i: nat, n: nat)
    requires IsRelease(parts) && DifferAt(a, b, i) && n < |b[i]|
    requires 'A' <= UpperChar(a[i][0]) <= 'Z' && 'A' <= UpperChar(b[i][0]) <= 'Z'
    requires forall k :: 0 <= k < |a[i]| ==> !IsDigit(a[i][k])
    requires forall k :: 0 <= k < |b[i]| ==> !IsDigit(b[i][k])
    requires n <= |a[i]| && EqualsIgnoreCase(a[i][..n], b[i][..n])
    requires n == |a[i]| || UpperChar(a[i][n]) < UpperChar(b[i][n])
    ensures CompareVersions(VersionText(parts, Dotted(a)), VersionText(parts, Dotted(b))) == -1
  {
    PrereleasesCompare(parts, a, b);
    PiecesAgreeBefore(a, b, i);
    WordIsNoNumber(a[i]);
    WordIsNoNumber(b[i]);
    WordsAreOneRun(a[i], b[i]);
    FirstLetterDecides(a[i], b[i], n);
    hide CompareVersions, CompareNatural, TryParseInt, CompareText;
  }

  /** A word is older than one with a number behind it, as rc is than rc1. */
  lemma WordIsOlderThanCandidate(parts: seq<string>, a: seq<string>, b: seq<string>, i: nat, x: string)
    requires IsRelease(parts) && DifferAt(a, b, i) && b[i] == a[i] + x && x != "" && AllDigits(x)
    requires 'A' <= UpperChar(a[i][0]) <= 'Z' && forall k :: 0 <= k < |a[i]| ==> !IsDigit(a[i][k])
    ensures CompareVersions(VersionText(parts, Dotted(a)), VersionText(parts, Dotted(b))) == -1
  {
    PrereleasesCompare(parts, a, b);
    PiecesAgreeBefore(a, b, i);
    WordIsNoNumber(a[i]);
    WordIsNoNumber(b[i]);
    WordIsBeginning(a[i], x);
    hide CompareVersions, CompareNatural, TryParseInt;
  }

  lemma WordIsBeginning(word: string, x: string)
    requires word != "" && x != "" && AllDigits(x) && forall k :: 0 <= k < |word| ==> !IsDigit(word[k])
    ensures CompareNatural(word, word + x) == -1
  {
    hide CompareRuns;
    var r, n := word + x, |word|;
    ScannedRunIsFirstRun(word, 0, n);
    ScannedRunIsFirstRun(r, 0, n);
    assert word[0..] == word && r[0..] == r && word[0..n] == word && r[0..n] == word;
    RunsAreAntisymmetric(word, word);
    assert word[n..] == "" && r[n..] == x;
  }

  /** An identifier that begins with a digit, and is no number, is older than one that begins with a letter. */
  lemma DigitsComeBeforeLetters(parts: seq<string>, a: seq<string>, b: seq<string>, i: nat)
    requires IsRelease(parts) && DifferAt(a, b, i) && TryParseInt(a[i]).None?
    requires IsDigit(a[i][0]) && 'A' <= UpperChar(b[i][0]) <= 'Z'
    ensures CompareVersions(VersionText(parts, Dotted(a)), VersionText(parts, Dotted(b))) == -1
  {
    PrereleasesCompare(parts, a, b);
    PiecesAgreeBefore(a, b, i);
    WordIsNoNumber(b[i]);
    assert !IsDigit(b[i][0]);
    assert CompareRuns(FirstRun(a[i]), FirstRun(b[i])) == -1;
    hide CompareVersions, TryParseInt, CompareText, DigitsValue;
  }

  lemma WordsAreOneRun(l: string, r: string)
    requires l != "" && r != ""
    requires forall k :: 0 <= k < |l| ==> !IsDigit(l[k])
    requires forall k :: 0 <= k < |r| ==> !IsDigit(r[k])
    ensures CompareText(l, r) != 0 ==> CompareNatural(l, r) == CompareText(l, r)
  {
    hide CompareText;
    ScannedRunIsFirstRun(l, 0, |l|);
    ScannedRunIsFirstRun(r, 0, |r|);
    assert l[0..] == l && r[0..] == r && l[0..|l|] == l && r[0..|r|] == r;
  }

  lemma {:induction false} FirstLetterDecides(l: string, r: string, n: nat)
    requires n <= |l| && n < |r| && Upper(l[..n]) == Upper(r[..n])
    requires n == |l| || UpperChar(l[n]) < UpperChar(r[n])
    ensures CompareText(l, r) == -1
    decreases n
  {
    if n > 0 {
      assert Upper(l[..n])[0] == UpperChar(l[0]) && Upper(r[..n])[0] == UpperChar(r[0]);
      assert Upper(l[1..][..n - 1]) == Upper(l[..n])[1..] && Upper(r[1..][..n - 1]) == Upper(r[..n])[1..];
      FirstLetterDecides(l[1..], r[1..], n - 1);
    }
  }

  /** A text that does not begin with two to four numbers counts as 0.0.0: one that begins with a letter, such as v2.0.0,
      and one without a dot, such as 2. */
  lemma UnreadableCountsAsZero(text: string)
    requires text != "" && '-' !in text && '+' !in text && !IsWhite(text[0]) && !IsWhite(text[|text| - 1])
    requires '.' !in text || 'A' <= UpperChar(text[0]) <= 'Z'
    ensures CompareVersions(text, "0.0.0") == 0
  {
    BeforeAbsent(text, '+');
    BeforeAbsent(text, '-');
    NothingAfter(text, '-');
    TrimKeeps(text);
    if '.' in text {
      assert TakeNumeric(text) == "";
    } else {
      TakenLacks(text, '.');
    }
    SplitAbsent(TakeNumeric(text), '.');
    assert ParseSemVersion(text) == ParsedVersion(ZERO_CORE, "");
    ZeroIsRead();
    hide ParseSemVersion;
  }

  lemma ZeroIsRead()
    ensures ParseSemVersion("0.0.0") == ParsedVersion(ZERO_CORE, "")
  {
    var zero := ["0", "0", "0"];
    assert Dotted(zero[1..][1..]) == "0";
    assert Dotted(zero[1..]) == "0.0";
    assert Dotted(zero) == "0.0.0";
    assert DigitsValue("0") == 0;
    VersionIsRead(zero, "");
    hide ParseSemVersion;
  }

  lemma {:induction false} TakenLacks(s: string, c: char)
    requires c !in s
    ensures c !in TakeNumeric(s)
  {
    if s != "" {
      TakenLacks(s[1..], c);
    }
  }

  /** What is written after a plus sign makes no difference. */
  lemma BuildIsIgnored(version: string, build: string, other: string)
    requires '+' !in version
    ensures CompareVersions(version + "+" + build, other) == CompareVersions(version, other)
  {
    CutAtSeparator(version, build, '+');
    BeforeAbsent(version, '+');
  }
}
