/** Version strings: printing, parsing, ordering, and the compatibility check. */
module Version {
  import opened Outcomes

  datatype Level = Alpha | Beta | Candidate | Final

  datatype VersionInfo = VersionInfo(major: nat, minor: nat, patch: nat, level: Level, serial: nat)

  /** What parsing yields, compared position by position. */
  datatype Parsed = Parsed(major: nat, minor: nat, patch: nat, rank: nat, serial: nat)

  datatype Error = InvalidVersionString

  const VERSION := VersionInfo(2, 26, 2, Final, 0)

  // ---- Numerals -----------------------------------------------------------

  predicate IsDigit(c: char) {
    '0' <= c <= '9'
  }

  predicate IsNumeral(s: string) {
    s != "" && forall i :: 0 <= i < |s| ==> IsDigit(s[i])
  }

  function DigitValue(c: char): nat
    requires IsDigit(c)
  {
    c as int - '0' as int
  }

  function Value(s: string): nat
    requires forall i :: 0 <= i < |s| ==> IsDigit(s[i])
  {
    if s == "" then 0 else Value(s[..|s| - 1]) * 10 + DigitValue(s[|s| - 1])
  }

  function Numeral(n: nat): (s: string)
    ensures IsNumeral(s) && Value(s) == n && (|s| > 1 ==> s[0] != '0') && (n > 0 ==> s[0] != '0')
  {
    var last := [('0' as int + n % 10) as char];
    if n < 10 then
      assert last[..0] == "";
      last
    else
      var init := Numeral(n / 10);
      assert (init + last)[..|init|] == init;
      init + last
  }

  /** How many characters at the start of s satisfy p. */
  function Leading(s: string, p: char -> bool): (n: nat)
    ensures n <= |s| && (forall i :: 0 <= i < n ==> p(s[i])) && (n < |s| ==> !p(s[n]))
  {
    if s == "" || !p(s[0]) then 0 else 1 + Leading(s[1..], p)
  }

  predicate StartsWithDigit(s: string) {
    s != "" && IsDigit(s[0])
  }

  /** The longest numeral at the start, and what follows it. */
  function ParseNumber(s: string): (r: Option<(nat, string)>) {
    var n := Leading(s, IsDigit);
    if n == 0 then None else Some((Value(s[..n]), s[n..]))
  }

  lemma ParseNumberReads(numeral: string, rest: string)
    requires IsNumeral(numeral) && !StartsWithDigit(rest)
    ensures ParseNumber(numeral + rest) == Some((Value(numeral), rest))
  {
    var s := numeral + rest;
    var n := Leading(s, IsDigit);
    assert forall i :: 0 <= i < |numeral| ==> s[i] == numeral[i];
    assert rest != "" ==> s[|numeral|] == rest[0];
    assert s[..n] == numeral && s[n..] == rest;
  }

  lemma ParseNumberSplits(s: string) returns (numeral: string)
    requires ParseNumber(s).Some?
    ensures IsNumeral(numeral) && s == numeral + ParseNumber(s).value.1
    ensures Value(numeral) == ParseNumber(s).value.0 && !StartsWithDigit(ParseNumber(s).value.1)
  {
    numeral := s[..Leading(s, IsDigit)];
  }

  // ---- Printing and parsing -----------------------------------------------------

  function LevelName(level: Level): string {
    match level
    case Alpha => "alpha"
    case Beta => "beta"
    case Candidate => "candidate"
    case Final => "final"
  }

  function Print(v: VersionInfo): string {
    var numbers := Numeral(v.major) + "." + (Numeral(v.minor) + "." + Numeral(v.patch));
    if v.level == Final then numbers else numbers + (LevelName(v.level) + Numeral(v.serial))
  }

  /** The spellings of a pre-release in the order in which they are tried, and their ranks. */
  const SPELLINGS: seq<(string, nat)> := [("a", 0), ("b", 1), ("rc", 2), ("alpha", 0), ("beta", 1), ("candidate", 2)]

  const FINAL_RANK := 3

  predicate SpellingFits(s: string, i: nat)
    requires i < |SPELLINGS|
  {
    var name := SPELLINGS[i].0;
    name <= s && StartsWithDigit(s[|name|..])
  }

  function ParseLevel(s: string, i: nat): (nat, nat)
    requires i <= |SPELLINGS|
    decreases |SPELLINGS| - i
  {
    if i == |SPELLINGS| then (FINAL_RANK, 0)
    else if SpellingFits(s, i) then
      var serial := ParseNumber(s[|SPELLINGS[i].0|..]);
      (SPELLINGS[i].1, serial.value.0)
    else ParseLevel(s, i + 1)
  }

  /** A dot, and a number after it. */
  function ParseDotted(s: string): Option<(nat, string)> {
    if s == "" || s[0] != '.' then None else ParseNumber(s[1..])
  }

  function ParseVersion(s: string): Result<Parsed, Error> {
    var major := ParseNumber(s);
    if major.None? then Failure(InvalidVersionString)
    else
      var minor := ParseDotted(major.value.1);
      if minor.None? then Failure(InvalidVersionString)
      else
        var patch := ParseDotted(minor.value.1);
        if patch.None? then Failure(InvalidVersionString)
        else
          var (rank, serial) := ParseLevel(patch.value.1, 0);
          Success(Parsed(major.value.0, minor.value.0, patch.value.0, rank, serial))
  }

  lemma ParseDottedReads(numeral: string, rest: string)
    requires IsNumeral(numeral) && !StartsWithDigit(rest)
    ensures ParseDotted("." + (numeral + rest)) == Some((Value(numeral), rest))
  {
    assert ("." + (numeral + rest))[1..] == numeral + rest;
    ParseNumberReads(numeral, rest);
  }

  lemma ParseDottedSplits(s: string) returns (numeral: string)
    requires ParseDotted(s).Some?
    ensures IsNumeral(numeral) && s == "." + (numeral + ParseDotted(s).value.1)
    ensures Value(numeral) == ParseDotted(s).value.0 && !StartsWithDigit(ParseDotted(s).value.1)
  {
    assert s == "." + s[1..];
    numeral := ParseNumberSplits(s[1..]);
  }

  // ---- What parsing means --------------------------------------------------------

  /** A version string taken apart; anything may follow. */
  datatype Parts = Parts(major: string, minor: string, patch: string, suffix: string)

  ghost predicate IsPartition(s: string, p: Parts) {
    && IsNumeral(p.major) && IsNumeral(p.minor) && IsNumeral(p.patch) && !StartsWithDigit(p.suffix)
    && s == p.major + "." + (p.minor + "." + (p.patch + p.suffix))
  }

  /** The suffix names a pre-release: a spelling and a numeral, and anything may follow. */
  ghost predicate NamesPreRelease(suffix: string, i: nat, serial: string, rest: string) {
    && i < |SPELLINGS| && IsNumeral(serial) && !StartsWithDigit(rest)
    && suffix == SPELLINGS[i].0 + (serial + rest)
  }

  ghost predicate LevelReads(suffix: string, rank: nat, serial: nat) {
    if exists i: nat, n, rest :: NamesPreRelease(suffix, i, n, rest)
    then exists i: nat, n, rest :: NamesPreRelease(suffix, i, n, rest) && rank == SPELLINGS[i].1 && serial == Value(n)
    else rank == FINAL_RANK && serial == 0
  }

  ghost predicate Reads(s: string, v: Parsed) {
    exists p :: IsPartition(s, p) && v.major == Value(p.major) && v.minor == Value(p.minor)
      && v.patch == Value(p.patch) && LevelReads(p.suffix, v.rank, v.serial)
  }

  /** At most one spelling is followed by a digit. */
  lemma SpellingIsUnique(s: string, i: nat, j: nat)
    requires i < |SPELLINGS| && j < |SPELLINGS| && SpellingFits(s, i) && SpellingFits(s, j)
    ensures i == j
  {
    var a, b := SPELLINGS[i].0, SPELLINGS[j].0;
    assert s[0] == a[0] && s[0] == b[0];
    assert |a| == 1 ==> IsDigit(s[1]);
    assert |b| == 1 ==> IsDigit(s[1]);
    assert |a| > 1 ==> s[1] == a[1];
    assert |b| > 1 ==> s[1] == b[1];
  }

  lemma {:induction false} ParseLevelFinds(s: string, from: nat, i: nat)
    requires from <= i < |SPELLINGS| && SpellingFits(s, i)
    ensures ParseLevel(s, from) == (SPELLINGS[i].1, ParseNumber(s[|SPELLINGS[i].0|..]).value.0)
    decreases i - from
  {
    if from < i {
      if SpellingFits(s, from) {
        SpellingIsUnique(s, from, i);
      }
      ParseLevelFinds(s, from + 1, i);
    }
  }

  lemma {:induction false} ParseLevelMisses(s: string, from: nat)
    requires from <= |SPELLINGS| && forall i: nat :: from <= i < |SPELLINGS| ==> !SpellingFits(s, i)
    ensures ParseLevel(s, from) == (FINAL_RANK, 0)
    decreases |SPELLINGS| - from
  {
    if from < |SPELLINGS| {
      ParseLevelMisses(s, from + 1);
    }
  }

  lemma NamedLevel(suffix: string, i: nat, serial: string, rest: string)
    requires NamesPreRelease(suffix, i, serial, rest)
    ensures SpellingFits(suffix, i) && ParseLevel(suffix, 0) == (SPELLINGS[i].1, Value(serial))
  {
    assert suffix[|SPELLINGS[i].0|..] == serial + rest;
    ParseNumberReads(serial, rest);
    ParseLevelFinds(suffix, 0, i);
  }

  lemma FittingIsNamed(suffix: string, i: nat)
    requires i < |SPELLINGS| && SpellingFits(suffix, i)
    ensures exists n, rest :: NamesPreRelease(suffix, i, n, rest)
  {
    var tail := suffix[|SPELLINGS[i].0|..];
    var n := ParseNumberSplits(tail);
    assert NamesPreRelease(suffix, i, n, ParseNumber(tail).value.1);
  }

  lemma ParseLevelReads(suffix: string, rank: nat, serial: nat)
    ensures LevelReads(suffix, rank, serial) <==> ParseLevel(suffix, 0) == (rank, serial)
  {
    if i: nat, n, rest :| NamesPreRelease(suffix, i, n, rest) {
      NamedLevel(suffix, i, n, rest);
      forall j: nat, m, tail | NamesPreRelease(suffix, j, m, tail)
        ensures SPELLINGS[j].1 == SPELLINGS[i].1 && Value(m) == Value(n)
      {
        NamedLevel(suffix, j, m, tail);
      }
    } else {
      forall i: nat | i < |SPELLINGS|
        ensures !SpellingFits(suffix, i)
      {
        if SpellingFits(suffix, i) {
          FittingIsNamed(suffix, i);
        }
      }
      ParseLevelMisses(suffix, 0);
    }
  }

  lemma PartitionParses(s: string, p: Parts)
    requires IsPartition(s, p)
    ensures var (rank, serial) := ParseLevel(p.suffix, 0);
      ParseVersion(s) == Success(Parsed(Value(p.major), Value(p.minor), Value(p.patch), rank, serial))
  {
    hide ParseNumber, ParseDotted, ParseLevel, Value;
    var afterMinor := "." + (p.patch + p.suffix);
    var afterMajor := "." + (p.minor + afterMinor);
    assert s == p.major + afterMajor;
    ParseNumberReads(p.major, afterMajor);
    ParseDottedReads(p.minor, afterMinor);
    ParseDottedReads(p.patch, p.suffix);
  }

  lemma ParsedIsPartition(s: string) returns (p: Parts)
    requires ParseVersion(s).Success?
    ensures IsPartition(s, p)
  {
    hide ParseNumber, ParseDotted, ParseLevel, Value;
    var major := ParseNumberSplits(s);
    var afterMajor := ParseNumber(s).value.1;
    var minor := ParseDottedSplits(afterMajor);
    var afterMinor := ParseDotted(afterMajor).value.1;
    var patch := ParseDottedSplits(afterMinor);
    p := Parts(major, minor, patch, ParseDotted(afterMinor).value.1);
  }

  /** Parsing is exact: it yields v just when the string can be taken apart to read v. */
  lemma ParsesExactly(s: string, v: Parsed)
    ensures ParseVersion(s) == Success(v) <==> Reads(s, v)
  {
    if ParseVersion(s) == Success(v) {
      var p := ParsedIsPartition(s);
      PartitionParses(s, p);
      ParseLevelReads(p.suffix, v.rank, v.serial);
    }
    if Reads(s, v) {
      var p :| IsPartition(s, p) && v.major == Value(p.major) && v.minor == Value(p.minor)
        && v.patch == Value(p.patch) && LevelReads(p.suffix, v.rank, v.serial);
      PartitionParses(s, p);
      ParseLevelReads(p.suffix, v.rank, v.serial);
    }
  }

  function Rank(level: Level): nat {
    match level
    case Alpha => 0
    case Beta => 1
    case Candidate => 2
    case Final => 3
  }

  /** What a version is compared by: a final release has no serial. */
  function KeyOf(v: VersionInfo): Parsed {
    Parsed(v.major, v.minor, v.patch, Rank(v.level), if v.level == Final then 0 else v.serial)
  }

  lemma PrintedParts(v: VersionInfo) returns (p: Parts)
    ensures IsPartition(Print(v), p) && p == Parts(Numeral(v.major), Numeral(v.minor), Numeral(v.patch), p.suffix)
    ensures p.suffix == if v.level == Final then "" else LevelName(v.level) + Numeral(v.serial)
  {
    p := Parts(Numeral(v.major), Numeral(v.minor), Numeral(v.patch),
               if v.level == Final then "" else LevelName(v.level) + Numeral(v.serial));
  }

  /** Parsing undoes printing, up to the serial of a final release. */
  lemma ParseUndoesPrint(v: VersionInfo)
    ensures ParseVersion(Print(v)) == Success(KeyOf(v))
  {
    var p := PrintedParts(v);
    PartitionParses(Print(v), p);
    if v.level == Final {
      ParseLevelMisses("", 0);
    } else {
      var i := match v.level case Alpha => 3 case Beta => 4 case _ => 5;
      assert Numeral(v.serial) + "" == Numeral(v.serial);
      assert NamesPreRelease(p.suffix, i, Numeral(v.serial), "");
      NamedLevel(p.suffix, i, Numeral(v.serial), "");
    }
  }

  /** The six spellings of a pre-release, and that of a final release. */
  lemma SpellingsParse(numbers: Parts, serial: nat)
    requires IsNumeral(numbers.major) && IsNumeral(numbers.minor) && IsNumeral(numbers.patch) && numbers.suffix == ""
    ensures var release := numbers.major + "." + (numbers.minor + "." + numbers.patch);
      var a, b, c := Value(numbers.major), Value(numbers.minor), Value(numbers.patch);
      && ParseVersion(release) == Success(Parsed(a, b, c, 3, 0))
      && ParseVersion(release + ("a" + Numeral(serial))) == Success(Parsed(a, b, c, 0, serial))
      && ParseVersion(release + ("alpha" + Numeral(serial))) == Success(Parsed(a, b, c, 0, serial))
      && ParseVersion(release + ("b" + Numeral(serial))) == Success(Parsed(a, b, c, 1, serial))
      && ParseVersion(release + ("beta" + Numeral(serial))) == Success(Parsed(a, b, c, 1, serial))
      && ParseVersion(release + ("rc" + Numeral(serial))) == Success(Parsed(a, b, c, 2, serial))
      && ParseVersion(release + ("candidate" + Numeral(serial))) == Success(Parsed(a, b, c, 2, serial))
  {
    hide ParseVersion, Value, Numeral;
    ReleaseParses(numbers);
    SpellingParses(numbers, 0, serial);
    SpellingParses(numbers, 1, serial);
    SpellingParses(numbers, 2, serial);
    SpellingParses(numbers, 3, serial);
    SpellingParses(numbers, 4, serial);
    SpellingParses(numbers, 5, serial);
  }

  lemma ReleaseParses(numbers: Parts)
    requires IsNumeral(numbers.major) && IsNumeral(numbers.minor) && IsNumeral(numbers.patch) && numbers.suffix == ""
    ensures ParseVersion(numbers.major + "." + (numbers.minor + "." + numbers.patch)) ==
            Success(Parsed(Value(numbers.major), Value(numbers.minor), Value(numbers.patch), 3, 0))
  {
    assert numbers.patch + "" == numbers.patch;
    PartitionParses(numbers.major + "." + (numbers.minor + "." + numbers.patch), numbers);
    ParseLevelMisses("", 0);
  }

  lemma SpellingParses(numbers: Parts, i: nat, serial: nat)
    requires IsNumeral(numbers.major) && IsNumeral(numbers.minor) && IsNumeral(numbers.patch) && i < |SPELLINGS|
    ensures ParseVersion(numbers.major + "." + (numbers.minor + "." + numbers.patch) + (SPELLINGS[i].0 + Numeral(serial))) ==
            Success(Parsed(Value(numbers.major), Value(numbers.minor), Value(numbers.patch), SPELLINGS[i].1, serial))
  {
    var suffix := SPELLINGS[i].0 + Numeral(serial);
    var s := numbers.major + "." + (numbers.minor + "." + numbers.patch) + suffix;
    assert Numeral(serial) + "" == Numeral(serial);
    assert suffix[0] == SPELLINGS[i].0[0] && !StartsWithDigit(suffix);
    assert NamesPreRelease(suffix, i, Numeral(serial), "");
    hide ParseVersion, ParseLevel, Value, Numeral;
    NamedLevel(suffix, i, Numeral(serial), "");
    assert s == numbers.major + "." + (numbers.minor + "." + (numbers.patch + suffix));
    PartitionParses(s, numbers.(suffix := suffix));
  }

  // ---- Ordering -------------------------------------------------------------------

  predicate Less(a: Parsed, b: Parsed) {
    || a.major < b.major
    || (a.major == b.major
        && (a.minor < b.minor
            || (a.minor == b.minor
                && (a.patch < b.patch
                    || (a.patch == b.patch && (a.rank < b.rank || (a.rank == b.rank && a.serial < b.serial)))))))
  }

  // ---- The compatibility check -------------------------------------------------------

  predicate IsOperatorChar(c: char) {
    c == '>' || c == '<' || c == '=' || c == '!'
  }

  /** A requirement taken apart: as many operator characters as leave at least one character of the
      line, and the rest of the line. */
  function SplitRequirement(required: string): Option<(string, string)> {
    var line := required[..Leading(required, (c: char) => c != '\n')];
    if line == "" then None
    else
      var run := Leading(line, IsOperatorChar);
      var n := if run == |line| then run - 1 else run;
      Some((line[..n], line[n..]))
  }

  function Compare(op: string, a: Parsed, b: Parsed): bool {
    if op == "==" then a == b
    else if op == "!=" then a != b
    else if op == ">=" then Less(b, a) || a == b
    else if op == ">" then Less(b, a)
    else if op == "<=" then Less(a, b) || a == b
    else if op == "<" then Less(a, b)
    else if op == "~=" then a.major == b.major && a.minor == b.minor && (Less(b, a) || a == b)
    else false
  }

  function CheckAgainst(installed: string, required: string): Result<bool, Error> {
    match SplitRequirement(required)
    case None => Success(false)
    case Some((written, version)) =>
      var op := if written == "" then "==" else written;
      match ParseVersion(installed)
      case Failure(e) => Failure(e)
      case Success(current) =>
        match ParseVersion(version)
        case Failure(e) => Failure(e)
        case Success(wanted) => Success(Compare(op, current, wanted))
  }

  function CheckVersionCompatible(required: string): Result<bool, Error> {
    CheckAgainst(Print(VERSION), required)
  }

  lemma LeadingAll(s: string, p: char -> bool)
    requires forall i :: 0 <= i < |s| ==> p(s[i])
    ensures Leading(s, p) == |s|
  {
  }

  ghost predicate IsPlain(s: string) {
    s != "" && !IsOperatorChar(s[0]) && forall i :: 0 <= i < |s| ==> s[i] != '\n'
  }

  /** An operator in front of a version is split off whole. */
  lemma SplitsAtOperator(op: string, version: string)
    requires (forall i :: 0 <= i < |op| ==> IsOperatorChar(op[i])) && IsPlain(version)
    ensures SplitRequirement(op + version) == Some((op, version))
  {
    var s := op + version;
    LeadingAll(s, (c: char) => c != '\n');
    assert s[..|s|] == s;
    var n := Leading(s, IsOperatorChar);
    assert forall i :: 0 <= i < |op| ==> s[i] == op[i];
    assert s[|op|] == version[0];
    assert s[..n] == op && s[n..] == version;
  }

  lemma PrintedIsPlain(v: VersionInfo)
    ensures IsPlain(Print(v))
  {
    var p := PrintedParts(v);
    assert Print(v)[0] == p.major[0];
    var name := LevelName(v.level);
    assert forall i :: 0 <= i < |name| ==> name[i] != '\n';
    hide Numeral, Value;
  }

  /** Checking a printed requirement compares the two versions. */
  lemma CheckCompares(installed: VersionInfo, op: string, required: VersionInfo)
    requires forall i :: 0 <= i < |op| ==> IsOperatorChar(op[i])
    ensures CheckAgainst(Print(installed), op + Print(required)) ==
            Success(Compare(if op == "" then "==" else op, KeyOf(installed), KeyOf(required)))
    ensures CheckVersionCompatible(op + Print(required)) ==
            Success(Compare(if op == "" then "==" else op, KeyOf(VERSION), KeyOf(required)))
  {
    hide Print, ParseVersion, Compare, KeyOf;
    PrintedIsPlain(required);
    SplitsAtOperator(op, Print(required));
    ParseUndoesPrint(installed);
    ParseUndoesPrint(required);
    ParseUndoesPrint(VERSION);
  }

  // ---- The order and the operators -------------------------------------------------------

  ghost function Components(v: Parsed): seq<nat> {
    [v.major, v.minor, v.patch, v.rank, v.serial]
  }

  /** a comes first at the first place where the two differ. */
  ghost predicate DiffersFirstAt(a: Parsed, b: Parsed, i: nat) {
    i < 5 && Components(a)[..i] == Components(b)[..i] && Components(a)[i] < Components(b)[i]
  }

  lemma LessIsLexicographic(a: Parsed, b: Parsed)
    ensures Less(a, b) <==> exists i: nat :: DiffersFirstAt(a, b, i)
  {
    if i: nat :| DiffersFirstAt(a, b, i) {
      forall j: nat | j < i
        ensures Components(a)[j] == Components(b)[j]
      {
        assert Components(a)[..i][j] == Components(b)[..i][j];
      }
      assert i > 0 ==> Components(a)[0] == Components(b)[0];
      assert i > 1 ==> Components(a)[1] == Components(b)[1];
      assert i > 2 ==> Components(a)[2] == Components(b)[2];
      assert i > 3 ==> Components(a)[3] == Components(b)[3];
    }
    if Less(a, b) {
      var i: nat := if a.major < b.major then 0 else if a.minor < b.minor then 1
        else if a.patch < b.patch then 2 else if a.rank < b.rank then 3 else 4;
      assert DiffersFirstAt(a, b, i);
    }
  }

  /** Versions are totally ordered, and the six operators answer by that order. */
  lemma OperatorsAgree(a: Parsed, b: Parsed, c: Parsed)
    ensures Compare("<", a, b) <==> Compare(">", b, a)
    ensures Compare("<=", a, b) <==> !Compare(">", a, b)
    ensures Compare(">=", a, b) <==> !Compare("<", a, b)
    ensures Compare("!=", a, b) <==> !Compare("==", a, b)
    ensures Compare("==", a, b) <==> Compare("<=", a, b) && Compare(">=", a, b)
    ensures Compare("<=", a, b) && Compare("<=", b, c) ==> Compare("<=", a, c)
    ensures Compare("<", a, b) && Compare("<=", b, c) ==> Compare("<", a, c)
  {
  }

  /** The installed version is the older one exactly if it is less at the first place where the two
      differ, and each operator answers accordingly. */
  lemma ChecksAnswer(installed: VersionInfo, required: VersionInfo)
    ensures var older := exists i: nat :: DiffersFirstAt(KeyOf(installed), KeyOf(required), i);
      var newer := exists i: nat :: DiffersFirstAt(KeyOf(required), KeyOf(installed), i);
      && CheckAgainst(Print(installed), "<" + Print(required)) == Success(older)
      && CheckAgainst(Print(installed), ">" + Print(required)) == Success(newer)
      && CheckAgainst(Print(installed), "<=" + Print(required)) == Success(!newer)
      && CheckAgainst(Print(installed), ">=" + Print(required)) == Success(!older)
      && CheckAgainst(Print(installed), "==" + Print(required)) == Success(!older && !newer)
      && CheckAgainst(Print(installed), "!=" + Print(required)) == Success(older || newer)
  {
    hide CheckAgainst, Print, DiffersFirstAt, Less, Compare, KeyOf;
    CompareMeans(KeyOf(installed), KeyOf(required));
    CheckCompares(installed, "<", required);
    CheckCompares(installed, ">", required);
    CheckCompares(installed, "<=", required);
    CheckCompares(installed, ">=", required);
    CheckCompares(installed, "==", required);
    CheckCompares(installed, "!=", required);
    LessIsLexicographic(KeyOf(installed), KeyOf(required));
    LessIsLexicographic(KeyOf(required), KeyOf(installed));
  }

  lemma CompareMeans(a: Parsed, b: Parsed)
    ensures Compare("<", a, b) == Less(a, b) && Compare(">", a, b) == Less(b, a)
    ensures Compare("<=", a, b) == !Less(b, a) && Compare(">=", a, b) == !Less(a, b)
    ensures Compare("==", a, b) == (!Less(a, b) && !Less(b, a)) && Compare("!=", a, b) == (Less(a, b) || Less(b, a))
  {
  }

  lemma SmallNumerals()
    ensures Numeral(0) == "0" && Numeral(1) == "1" && Numeral(2) == "2" && Numeral(3) == "3" && Numeral(9) == "9"
    ensures Numeral(25) == "25" && Numeral(26) == "26"
  {
    assert Numeral(2) == "2" && Numeral(5) == "5" && Numeral(6) == "6";
  }

  /** The final release with these numbers, as it is written. */
  lemma ReleasePrints(major: nat, minor: nat, patch: nat)
    ensures Print(VersionInfo(major, minor, patch, Final, 0)) == Numeral(major) + "." + Numeral(minor) + "." + Numeral(patch)
  {
  }

  /** And the pre-releases. */
  lemma PreReleasesPrint(v: VersionInfo)
    ensures var numbers := Numeral(v.major) + "." + (Numeral(v.minor) + "." + Numeral(v.patch));
      && (v.level == Alpha ==> Print(v) == numbers + ("alpha" + Numeral(v.serial)))
      && (v.level == Beta ==> Print(v) == numbers + ("beta" + Numeral(v.serial)))
      && (v.level == Candidate ==> Print(v) == numbers + ("candidate" + Numeral(v.serial)))
      && (v.level == Final ==> Print(v) == numbers)
  {
  }

  /** What the installed version 2.26.2 answers to a release asked for with an operator. */
  lemma InstalledAnswers(op: string, major: nat, minor: nat, patch: nat)
    requires forall i :: 0 <= i < |op| ==> IsOperatorChar(op[i])
    ensures CheckVersionCompatible(op + (Numeral(major) + "." + Numeral(minor) + "." + Numeral(patch))) ==
            Success(Compare(if op == "" then "==" else op, Parsed(2, 26, 2, 3, 0), Parsed(major, minor, patch, 3, 0)))
  {
    hide Numeral, Print, Compare, CheckAgainst, CheckVersionCompatible;
    ReleasePrints(major, minor, patch);
    CheckCompares(VERSION, op, VersionInfo(major, minor, patch, Final, 0));
  }

  /** Of one release, every alpha comes before every beta, every beta before every candidate, and all
      of them before the final release. */
  lemma LevelsAscend(v: VersionInfo, w: VersionInfo)
    requires v.major == w.major && v.minor == w.minor && v.patch == w.patch && v.level != w.level
    ensures Less(KeyOf(v), KeyOf(w)) <==> v.level == Alpha || w.level == Final || (v.level == Beta && w.level == Candidate)
  {
  }

  /** Two versions print alike exactly if they are the same up to the serial of a final release. */
  lemma PrintsAlikeExactly(v: VersionInfo, w: VersionInfo)
    ensures Print(v) == Print(w) <==> KeyOf(v) == KeyOf(w)
  {
    ParseUndoesPrint(v);
    ParseUndoesPrint(w);
  }

  /** The documentation: the major versions are the same, and the installed version is at least the
      required one. */
  ghost predicate IsCompatible(installed: VersionInfo, required: VersionInfo) {
    installed.major == required.major && !Less(KeyOf(installed), KeyOf(required))
  }

  /** A requirement without an operator asks for exactly that version, so it is refused although the
      documentation calls it compatible exactly if the installed version is a later one of the same
      major version. */
  lemma BareRequirementDiffersExactly(installed: VersionInfo, required: VersionInfo)
    ensures CheckAgainst(Print(installed), Print(required)) == Success(KeyOf(installed) == KeyOf(required))
    ensures (CheckAgainst(Print(installed), Print(required)) != Success(IsCompatible(installed, required))) <==>
            installed.major == required.major && Less(KeyOf(required), KeyOf(installed))
  {
    assert "" + Print(required) == Print(required);
    CheckCompares(installed, "", required);
  }

  /** No requirement reaches the branch for compatible releases, and one that asks for them is an error. */
  lemma CompatibleReleaseIsUnreachable(installed: string, required: string)
    ensures SplitRequirement(required).Some? ==> SplitRequirement(required).value.0 != "~="
    ensures "~=" <= required ==> CheckAgainst(installed, required) == Failure(InvalidVersionString)
  {
    SplitStartsWithOperator(required);
    if "~=" <= required {
      assert required[0] == '~' && required[1] == '=';
      TildeIsNoVersion(required);
    }
  }

  lemma SplitStartsWithOperator(required: string)
    ensures SplitRequirement(required).Some? && SplitRequirement(required).value.0 != "" ==>
              IsOperatorChar(SplitRequirement(required).value.0[0])
  {
    hide Leading;
  }

  lemma TildeIsNoVersion(required: string)
    requires required != "" && required[0] == '~'
    ensures SplitRequirement(required).Some? && SplitRequirement(required).value.0 == ""
    ensures ParseVersion(SplitRequirement(required).value.1).Failure?
  {
    var line := required[..Leading(required, (c: char) => c != '\n')];
    assert line != "" && line[0] == '~';
    assert Leading(line, IsOperatorChar) == 0;
  }

  /** For example. */
  lemma InstalledExamples()
    ensures CheckVersionCompatible(">=2.0.0") == Success(true) && CheckVersionCompatible("<2.0.0") == Success(false)
    ensures CheckVersionCompatible(">2.25.9") == Success(true) && CheckVersionCompatible("<=3.0.0") == Success(true)
  {
    hide Numeral, CheckVersionCompatible;
    SmallNumerals();
    assert "2" + "." + "0" + "." + "0" == "2.0.0" && "2" + "." + "25" + "." + "9" == "2.25.9" && "3" + "." + "0" + "." + "0" == "3.0.0";
    InstalledAnswers(">=", 2, 0, 0);
    InstalledAnswers("<", 2, 0, 0);
    InstalledAnswers(">", 2, 25, 9);
    InstalledAnswers("<=", 3, 0, 0);
    assert ">=" + "2.0.0" == ">=2.0.0" && "<" + "2.0.0" == "<2.0.0" && ">" + "2.25.9" == ">2.25.9" && "<=" + "3.0.0" == "<=3.0.0";
  }
}
