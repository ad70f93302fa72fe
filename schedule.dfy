/** The schedule shown in the prompt (app.py lines 77-83): the form's
    `date_time` value is read with `datetime.strptime(v, '%Y-%m-%dT%H:%M')`
    and written back with `strftime('%Y年%m月%d日 %H:%M')`; a value that does
    not parse is shown as it is, and a missing or empty one as 未定.

    `strptime` compiles its format into a regular expression, one named
    group per directive (CPython 3.12, `_strptime.TimeRE`), matches it with
    `re.match` under IGNORECASE, refuses any unconsumed rest, and then lets
    `datetime` check the calendar.  The model follows those steps. */
module Schedule {
  import opened Wrappers
  import opened Text

  /** The sentinel for "no schedule given". */
  const Undecided := "未定"

  // ---------------------------------------------------------------------
  // Calendar
  // ---------------------------------------------------------------------

  datatype DateTime = DateTime(year: int, month: int, day: int, hour: int, minute: int)

  /** The proleptic Gregorian rule `datetime` uses. */
  predicate IsLeapYear(y: int) {
    y % 4 == 0 && (y % 100 != 0 || y % 400 == 0)
  }

  function DaysInMonth(y: int, m: int): (n: int)
    requires 1 <= m <= 12
    ensures 28 <= n <= 31
    ensures n == 29 <==> m == 2 && IsLeapYear(y)
    ensures n == 31 <==> m in {1, 3, 5, 7, 8, 10, 12}
    ensures n == 30 <==> m in {4, 6, 9, 11}
    ensures n == 28 <==> m == 2 && !IsLeapYear(y)
  {
    if m == 2 then (if IsLeapYear(y) then 29 else 28)
    else if m == 4 || m == 6 || m == 9 || m == 11 then 30
    else 31
  }

  /** The checks `datetime(year, month, day, hour, minute)` makes before it
      builds a value (MINYEAR is 1, MAXYEAR is 9999). */
  predicate Valid(d: DateTime) {
    1 <= d.year <= 9999 && 1 <= d.month <= 12 && 1 <= d.day <= DaysInMonth(d.year, d.month)
    && 0 <= d.hour <= 23 && 0 <= d.minute <= 59
  }

  // ---------------------------------------------------------------------
  // Decimal digits
  // ---------------------------------------------------------------------

  predicate IsDigit(c: char) {
    '0' <= c <= '9'
  }

  function DigitChar(n: int): (c: char)
    requires 0 <= n <= 9
    ensures IsDigit(c)
  {
    (n + '0' as int) as char
  }

  function DigitValue(c: char): int {
    c as int - '0' as int
  }

  /** `int(t)` for a string of ASCII digits. */
  function Value(t: string): int
    decreases |t|
  {
    if t == [] then 0 else Value(t[..|t| - 1]) * 10 + DigitValue(t[|t| - 1])
  }

  /** `str(n)`, and what `%Y` writes: the C library does not pad years
      below 1000. */
  function Decimal(n: nat): (r: string)
    ensures |r| >= 1 && forall k :: 0 <= k < |r| ==> IsDigit(r[k])
    decreases n
  {
    if n < 10 then [DigitChar(n)] else Decimal(n / 10) + [DigitChar(n % 10)]
  }

  /** What `%m`, `%d`, `%H` and `%M` write: two digits, zero-padded. */
  function Pad2(n: int): (r: string)
    requires 0 <= n <= 99
    ensures |r| == 2 && IsDigit(r[0]) && IsDigit(r[1])
  {
    [DigitChar(n / 10), DigitChar(n % 10)]
  }

  function Pad4(n: int): (r: string)
    requires 0 <= n <= 9999
    ensures |r| == 4
  {
    [DigitChar(n / 1000), DigitChar(n / 100 % 10), DigitChar(n / 10 % 10), DigitChar(n % 10)]
  }

  lemma {:induction false} ValueDecimal(n: nat)
    ensures Value(Decimal(n)) == n
    decreases n
  {
    if n >= 10 {
      var r := Decimal(n);
      assert r[..|r| - 1] == Decimal(n / 10);
      ValueDecimal(n / 10);
    }
  }

  lemma ValuePad2(n: int)
    requires 0 <= n <= 99
    ensures Value(Pad2(n)) == n
  {
    var r := Pad2(n);
    assert r[..1][..0] == [];
    assert Value(r[..1]) == n / 10;
  }

  lemma ValuePad4(n: int)
    requires 0 <= n <= 9999
    ensures Value(Pad4(n)) == n
  {
    var r := Pad4(n);
    assert r[..1][..0] == [];
    assert Value(r[..1]) == n / 1000;
    assert r[..2][..1] == r[..1];
    assert Value(r[..2]) == n / 100;
    assert r[..3][..2] == r[..2];
    assert Value(r[..3]) == n / 10;
  }

  // ---------------------------------------------------------------------
  // The regular expression strptime compiles '%Y-%m-%dT%H:%M' into
  // ---------------------------------------------------------------------

  /** A character class of the pattern: `[lo-hi]` (one character when
      lo == hi), or a letter matched without regard to case. */
  datatype CharClass = Range(lo: char, hi: char) | AnyCase(upper: char, lower: char)

  predicate InClass(c: char, k: CharClass) {
    match k
    case Range(lo, hi) => lo <= c <= hi
    case AnyCase(upper, lower) => c == upper || c == lower
  }

  /** One alternative of a group: a fixed run of character classes. */
  type Branch = seq<CharClass>

  /** A piece of the pattern: a named group `(?P<x>b0|b1|...)`, whose
      alternatives are tried in order, or a literal character. */
  datatype Item = Group(branches: seq<Branch>) | Literal(expected: CharClass)

  function Exactly(c: char): CharClass {
    Range(c, c)
  }

  const Digit := Range('0', '9')

  /** `%Y`: `\d\d\d\d` */
  const YearBranches: seq<Branch> := [[Digit, Digit, Digit, Digit]]
  /** `%m`: `1[0-2]|0[1-9]|[1-9]` */
  const MonthBranches: seq<Branch> := [[Exactly('1'), Range('0', '2')], [Exactly('0'), Range('1', '9')], [Range('1', '9')]]
  /** `%d`: `3[0-1]|[1-2]\d|0[1-9]|[1-9]| [1-9]` */
  const DayBranches: seq<Branch> :=
    [[Exactly('3'), Range('0', '1')], [Range('1', '2'), Digit], [Exactly('0'), Range('1', '9')],
     [Range('1', '9')], [Exactly(' '), Range('1', '9')]]
  /** `%H`: `2[0-3]|[0-1]\d|\d` */
  const HourBranches: seq<Branch> := [[Exactly('2'), Range('0', '3')], [Range('0', '1'), Digit], [Digit]]
  /** `%M`: `[0-5]\d|\d` */
  const MinuteBranches: seq<Branch> := [[Range('0', '5'), Digit], [Digit]]

  /** The whole pattern; the `T` is matched under IGNORECASE. */
  const StrptimePattern: seq<Item> :=
    [Group(YearBranches), Literal(Exactly('-')), Group(MonthBranches), Literal(Exactly('-')),
     Group(DayBranches), Literal(AnyCase('T', 't')), Group(HourBranches), Literal(Exactly(':')),
     Group(MinuteBranches)]

  /** The classes of `b` from position `n` on match the front of `t`. */
  predicate ClassesFrom(b: Branch, n: nat, t: string)
    requires n <= |b|
    decreases |b| - n
  {
    n == |b| || (n < |t| && InClass(t[n], b[n]) && ClassesFrom(b, n + 1, t))
  }

  /** Branch `b` matches the front of `t`. */
  predicate BranchMatches(b: Branch, t: string) {
    ClassesFrom(b, 0, t)
  }

  lemma {:induction false} ClassesFromLength(b: Branch, n: nat, t: string)
    requires n <= |b| && ClassesFrom(b, n, t)
    ensures n == |b| || |b| <= |t|
    decreases |b| - n
  {
    if n < |b| {
      ClassesFromLength(b, n + 1, t);
    }
  }

  /** The number of groups in `p` from item `k` on. */
  function GroupCount(p: seq<Item>, k: nat): nat
    requires k <= |p|
    decreases |p| - k
  {
    if k == |p| then 0 else (if p[k].Group? then 1 else 0) + GroupCount(p, k + 1)
  }

  /** A successful match: the text of each group, in order, and the part of
      the input the pattern did not consume. */
  datatype Match = Match(groups: seq<string>, rest: string)

  /** `re.match` of the items of `p` from `k` on against the front of `t`,
      with backtracking: the first alternative of a group whose remainder
      of the pattern also matches wins.  `groups` holds the groups matched
      so far. */
  function MatchFrom(p: seq<Item>, k: nat, t: string, groups: seq<string>): (r: Option<Match>)
    requires k <= |p|
    ensures r.Some? ==> |r.value.groups| == |groups| + GroupCount(p, k) && |r.value.rest| <= |t|
    decreases |p| - k, 0
  {
    if k == |p| then Some(Match(groups, t))
    else
      match p[k]
      case Literal(c) =>
        if |t| > 0 && InClass(t[0], c) then MatchFrom(p, k + 1, t[1..], groups) else None
      case Group(_) => TryBranches(p, k, 0, t, groups)
  }

  /** The alternatives of group `p[k]` from the `j`-th on, in order. */
  function TryBranches(p: seq<Item>, k: nat, j: nat, t: string, groups: seq<string>): (r: Option<Match>)
    requires k < |p| && p[k].Group? && j <= |p[k].branches|
    ensures r.Some? ==> |r.value.groups| == |groups| + GroupCount(p, k) && |r.value.rest| <= |t|
    decreases |p| - k - 1, |p[k].branches| - j
  {
    if j == |p[k].branches| then None
    else
      var b := p[k].branches[j];
      var next :=
        if BranchMatches(b, t) then
          ClassesFromLength(b, 0, t);
          MatchFrom(p, k + 1, t[|b|..], groups + [t[..|b|]])
        else None;
      if next.Some? then next else TryBranches(p, k, j + 1, t, groups)
  }

  lemma PatternGroups()
    ensures GroupCount(StrptimePattern, 0) == 5
  {
    var p := StrptimePattern;
    assert GroupCount(p, 8) == 1;
    assert GroupCount(p, 6) == 2;
    assert GroupCount(p, 4) == 3;
    assert GroupCount(p, 2) == 4;
  }

  /** `int()` of a group: a leading space (the `' [1-9]'` day branch) is
      skipped, as `int(' 5')` does. */
  function Int(t: string): int {
    if |t| > 0 && t[0] == ' ' then Value(t[1..]) else Value(t)
  }

  /** `datetime.strptime(s, '%Y-%m-%dT%H:%M')`, None where it raises
      ValueError: the pattern does not match, data remains unconverted, or
      the fields are not a date and time `datetime` accepts. */
  function Strptime(s: string): (r: Option<DateTime>)
    ensures r.Some? ==> Valid(r.value)
  {
    match MatchFrom(StrptimePattern, 0, s, [])
    case None => None
    case Some(m) =>
      if m.rest != "" then None
      else
        PatternGroups();
        var d := DateTime(Int(m.groups[0]), Int(m.groups[1]), Int(m.groups[2]), Int(m.groups[3]), Int(m.groups[4]));
        if Valid(d) then Some(d) else None
  }

  /** `d.strftime('%Y年%m月%d日 %H:%M')` */
  function Strftime(d: DateTime): string
    requires Valid(d)
  {
    Decimal(d.year) + "年" + Pad2(d.month) + "月" + Pad2(d.day) + "日 " + Pad2(d.hour) + ":" + Pad2(d.minute)
  }

  /** The schedule line: 未定 without a value, the re-rendered date when the
      value parses, the value itself when it does not. */
  function FormatSchedule(input: Option<string>): string
  {
    if input.None? || input.value == "" then Undecided
    else
      match Strptime(input.value)
      case Some(d) => Strftime(d)
      case None => input.value
  }

  // ---------------------------------------------------------------------
  // The values the pattern accepts
  // ---------------------------------------------------------------------

  /** How the form value writes one two-digit field: zero-padded, as a
      single digit, or (the day only) as a space and a digit. */
  datatype Width = Padded | Bare | Spaced

  function Field(n: int, w: Width): (r: string)
    requires 0 <= n <= 99 && (w != Padded ==> n <= 9)
    ensures |r| == (if w == Bare then 1 else 2)
  {
    match w
    case Padded => Pad2(n)
    case Bare => [DigitChar(n)]
    case Spaced => [' ', DigitChar(n)]
  }

  lemma IntField(n: int, w: Width)
    requires 0 <= n <= 99 && (w != Padded ==> n <= 9)
    ensures Int(Field(n, w)) == n
  {
    match w
    case Padded => ValuePad2(n);
    case Bare =>
      var t := [DigitChar(n)];
      assert t[..0] == [];
      assert Value(t) == DigitValue(t[0]);
    case Spaced =>
      var t := [DigitChar(n)];
      assert Field(n, w)[1..] == t && t[..0] == [];
      assert Value(t) == DigitValue(t[0]);
  }

  /** How each field of a form value is written, and which letter stands
      between date and time. */
  datatype Layout = Layout(month: Width, day: Width, hour: Width, minute: Width, separator: char)

  /** What a browser's `datetime-local` control submits: every field
      zero-padded and an upper-case T. */
  const Standard := Layout(Padded, Padded, Padded, Padded, 'T')

  /** `d`'s fields lie in the ranges the pattern's groups admit, and `l`
      writes each of them in a way its group accepts. */
  predicate Fits(d: DateTime, l: Layout) {
    0 <= d.year <= 9999 && 1 <= d.month <= 12 && 1 <= d.day <= 31 && 0 <= d.hour <= 23 && 0 <= d.minute <= 59
    && (l.month == Padded || (l.month == Bare && d.month <= 9))
    && (l.day == Padded || d.day <= 9)
    && (l.hour == Padded || (l.hour == Bare && d.hour <= 9))
    && (l.minute == Padded || (l.minute == Bare && d.minute <= 9))
    && (l.separator == 'T' || l.separator == 't')
  }

  /** `d` written out as a form value, four-digit year first. */
  function Render(d: DateTime, l: Layout): string
    requires Fits(d, l)
  {
    Pad4(d.year) + "-" + Field(d.month, l.month) + "-" + Field(d.day, l.day) + [l.separator]
    + Field(d.hour, l.hour) + ":" + Field(d.minute, l.minute)
  }

  lemma Matches1(b: Branch, t: string)
    requires |b| == 1
    ensures BranchMatches(b, t) <==> |t| >= 1 && InClass(t[0], b[0])
  {
    assert ClassesFrom(b, 1, t);
  }

  lemma Matches2(b: Branch, t: string)
    requires |b| == 2
    ensures BranchMatches(b, t) <==> |t| >= 2 && InClass(t[0], b[0]) && InClass(t[1], b[1])
  {
    assert ClassesFrom(b, 2, t);
    assert ClassesFrom(b, 1, t) <==> |t| >= 2 && InClass(t[1], b[1]);
  }

  lemma Matches4(b: Branch, t: string)
    requires |b| == 4
    ensures BranchMatches(b, t)
            <==> |t| >= 4 && InClass(t[0], b[0]) && InClass(t[1], b[1]) && InClass(t[2], b[2]) && InClass(t[3], b[3])
  {
    assert ClassesFrom(b, 4, t);
    assert ClassesFrom(b, 3, t) <==> |t| >= 4 && InClass(t[3], b[3]);
    assert ClassesFrom(b, 2, t) <==> |t| >= 4 && InClass(t[2], b[2]) && InClass(t[3], b[3]);
    assert ClassesFrom(b, 1, t) <==> |t| >= 4 && InClass(t[1], b[1]) && InClass(t[2], b[2]) && InClass(t[3], b[3]);
  }

  /** Backtracking reaches branch `j` when no branch from `i` up to it
      matches, and then gives what the rest of the pattern gives. */
  lemma {:induction false} TryFrom(p: seq<Item>, k: nat, i: nat, j: nat, t: string, groups: seq<string>, m: Match)
    requires k < |p| && p[k].Group? && i <= j < |p[k].branches|
    requires forall j' :: i <= j' < j ==> !BranchMatches(p[k].branches[j'], t)
    requires BranchMatches(p[k].branches[j], t) && |p[k].branches[j]| <= |t|
    requires MatchFrom(p, k + 1, t[|p[k].branches[j]|..], groups + [t[..|p[k].branches[j]|]]) == Some(m)
    ensures TryBranches(p, k, i, t, groups) == Some(m)
    decreases j - i
  {
    if i < j {
      TryFrom(p, k, i + 1, j, t, groups, m);
    }
  }

  lemma TakeBranch(p: seq<Item>, k: nat, j: nat, t: string, groups: seq<string>, m: Match)
    requires k < |p| && p[k].Group? && j < |p[k].branches|
    requires forall j' :: 0 <= j' < j ==> !BranchMatches(p[k].branches[j'], t)
    requires BranchMatches(p[k].branches[j], t) && |p[k].branches[j]| <= |t|
    requires MatchFrom(p, k + 1, t[|p[k].branches[j]|..], groups + [t[..|p[k].branches[j]|]]) == Some(m)
    ensures MatchFrom(p, k, t, groups) == Some(m)
  {
    TryFrom(p, k, 0, j, t, groups, m);
  }

  lemma MinuteStep(n: int, w: Width, groups: seq<string>)
    requires 0 <= n <= 59 && (w == Padded || (w == Bare && n <= 9))
    ensures MatchFrom(StrptimePattern, 8, Field(n, w), groups) == Some(Match(groups + [Field(n, w)], ""))
  {
    var p, t, bs := StrptimePattern, Field(n, w), MinuteBranches;
    var m := Match(groups + [t], "");
    assert p[8] == Group(bs);
    Matches2(bs[0], t);
    if w == Padded {
      assert t[..2] == t && t[2..] == "";
      TakeBranch(p, 8, 0, t, groups, m);
    } else {
      Matches1(bs[1], t);
      assert t[..1] == t && t[1..] == "";
      TakeBranch(p, 8, 1, t, groups, m);
    }
  }

  lemma HourStep(n: int, w: Width, rest: string, groups: seq<string>, m: Match)
    requires 0 <= n <= 23 && (w == Padded || (w == Bare && n <= 9))
    requires MatchFrom(StrptimePattern, 8, rest, groups + [Field(n, w)]) == Some(m)
    ensures MatchFrom(StrptimePattern, 6, Field(n, w) + ":" + rest, groups) == Some(m)
  {
    var p, f, bs := StrptimePattern, Field(n, w), HourBranches;
    var t := f + ":" + rest;
    assert p[6] == Group(bs) && p[7] == Literal(Exactly(':'));
    assert t[..|f|] == f && t[|f|..] == ":" + rest && (":" + rest)[1..] == rest;
    assert MatchFrom(p, 7, ":" + rest, groups + [f]) == Some(m);
    Matches2(bs[0], t);
    Matches2(bs[1], t);
    if w == Padded && n >= 20 {
      TakeBranch(p, 6, 0, t, groups, m);
    } else if w == Padded {
      TakeBranch(p, 6, 1, t, groups, m);
    } else {
      Matches1(bs[2], t);
      TakeBranch(p, 6, 2, t, groups, m);
    }
  }

  lemma DayStep(n: int, w: Width, sep: char, rest: string, groups: seq<string>, m: Match)
    requires 1 <= n <= 31 && (w == Padded || n <= 9) && (sep == 'T' || sep == 't')
    requires MatchFrom(StrptimePattern, 6, rest, groups + [Field(n, w)]) == Some(m)
    ensures MatchFrom(StrptimePattern, 4, Field(n, w) + [sep] + rest, groups) == Some(m)
  {
    var p, f := StrptimePattern, Field(n, w);
    var t := f + [sep] + rest;
    assert p[4] == Group(DayBranches) && p[5] == Literal(AnyCase('T', 't'));
    assert t[..|f|] == f && t[|f|..] == [sep] + rest && ([sep] + rest)[1..] == rest;
    assert MatchFrom(p, 5, [sep] + rest, groups + [f]) == Some(m);
    if w == Padded {
      PaddedDayStep(n, t, groups, m);
    } else {
      ShortDayStep(n, w, t, groups, m);
    }
  }

  /** A zero-padded day takes the first of the day's three two-digit
      branches that fits it. */
  lemma PaddedDayStep(n: int, t: string, groups: seq<string>, m: Match)
    requires 1 <= n <= 31 && |t| >= 2 && t[..2] == Pad2(n)
    requires MatchFrom(StrptimePattern, 5, t[2..], groups + [Pad2(n)]) == Some(m)
    ensures MatchFrom(StrptimePattern, 4, t, groups) == Some(m)
  {
    var p, bs := StrptimePattern, DayBranches;
    assert p[4] == Group(bs);
    Matches2(bs[0], t);
    Matches2(bs[1], t);
    Matches2(bs[2], t);
    if n >= 30 {
      TakeBranch(p, 4, 0, t, groups, m);
    } else if n >= 10 {
      TakeBranch(p, 4, 1, t, groups, m);
    } else {
      TakeBranch(p, 4, 2, t, groups, m);
    }
  }

  /** A single-digit day, bare or after a space, fails the two-digit
      branches and takes its own. */
  lemma ShortDayStep(n: int, w: Width, t: string, groups: seq<string>, m: Match)
    requires 1 <= n <= 9 && w != Padded && |t| >= |Field(n, w)| && t[..|Field(n, w)|] == Field(n, w)
    requires MatchFrom(StrptimePattern, 5, t[|Field(n, w)|..], groups + [Field(n, w)]) == Some(m)
    requires |t| > |Field(n, w)| && (t[|Field(n, w)|] == 'T' || t[|Field(n, w)|] == 't')
    ensures MatchFrom(StrptimePattern, 4, t, groups) == Some(m)
  {
    var p, bs := StrptimePattern, DayBranches;
    assert p[4] == Group(bs);
    Matches2(bs[0], t);
    Matches2(bs[1], t);
    Matches2(bs[2], t);
    if w == Bare {
      Matches1(bs[3], t);
      TakeBranch(p, 4, 3, t, groups, m);
    } else {
      Matches1(bs[3], t);
      Matches2(bs[4], t);
      TakeBranch(p, 4, 4, t, groups, m);
    }
  }

  lemma MonthStep(n: int, w: Width, rest: string, groups: seq<string>, m: Match)
    requires 1 <= n <= 12 && (w == Padded || (w == Bare && n <= 9))
    requires MatchFrom(StrptimePattern, 4, rest, groups + [Field(n, w)]) == Some(m)
    ensures MatchFrom(StrptimePattern, 2, Field(n, w) + "-" + rest, groups) == Some(m)
  {
    var p, f, bs := StrptimePattern, Field(n, w), MonthBranches;
    var t := f + "-" + rest;
    assert p[2] == Group(bs) && p[3] == Literal(Exactly('-'));
    assert t[..|f|] == f && t[|f|..] == "-" + rest && ("-" + rest)[1..] == rest;
    assert MatchFrom(p, 3, "-" + rest, groups + [f]) == Some(m);
    Matches2(bs[0], t);
    Matches2(bs[1], t);
    Matches1(bs[2], t);
    if w == Padded && n >= 10 {
      TakeBranch(p, 2, 0, t, groups, m);
    } else if w == Padded {
      TakeBranch(p, 2, 1, t, groups, m);
    } else {
      TakeBranch(p, 2, 2, t, groups, m);
    }
  }

  lemma YearStep(n: int, rest: string, groups: seq<string>, m: Match)
    requires 0 <= n <= 9999
    requires MatchFrom(StrptimePattern, 2, rest, groups + [Pad4(n)]) == Some(m)
    ensures MatchFrom(StrptimePattern, 0, Pad4(n) + "-" + rest, groups) == Some(m)
  {
    var p, f, bs := StrptimePattern, Pad4(n), YearBranches;
    var t := f + "-" + rest;
    assert p[0] == Group(bs) && p[1] == Literal(Exactly('-'));
    assert t[..4] == f && t[4..] == "-" + rest && ("-" + rest)[1..] == rest;
    assert MatchFrom(p, 1, "-" + rest, groups + [f]) == Some(m);
    Matches4(bs[0], t);
    TakeBranch(p, 0, 0, t, groups, m);
  }

  /** `strptime` accepts every way of writing an in-range date and time that
      its groups admit (two-digit or one-digit fields, a space before a
      one-digit day, `T` or `t`), reads back exactly that date and time, and
      then keeps it exactly when `datetime` accepts it. */
  lemma StrptimeRender(d: DateTime, l: Layout)
    requires Fits(d, l)
    ensures Strptime(Render(d, l)) == if Valid(d) then Some(d) else None
  {
    var y, mo, da := Pad4(d.year), Field(d.month, l.month), Field(d.day, l.day);
    var h, mi := Field(d.hour, l.hour), Field(d.minute, l.minute);
    RenderMatches(d, l);
    ValuePad4(d.year);
    IntField(d.month, l.month);
    IntField(d.day, l.day);
    IntField(d.hour, l.hour);
    IntField(d.minute, l.minute);
    assert [y, mo, da, h, mi][0] == y && [y, mo, da, h, mi][4] == mi;
  }

  /** The pattern consumes all of a rendered value, one group per field. */
  lemma RenderMatches(d: DateTime, l: Layout)
    requires Fits(d, l)
    ensures MatchFrom(StrptimePattern, 0, Render(d, l), [])
            == Some(Match([Pad4(d.year), Field(d.month, l.month), Field(d.day, l.day),
                           Field(d.hour, l.hour), Field(d.minute, l.minute)], ""))
  {
    var y, mo, da := Pad4(d.year), Field(d.month, l.month), Field(d.day, l.day);
    var h, mi := Field(d.hour, l.hour), Field(d.minute, l.minute);
    var m := Match([y, mo, da, h, mi], "");
    MinuteStep(d.minute, l.minute, [y, mo, da, h]);
    assert [y, mo, da, h] + [mi] == [y, mo, da, h, mi];
    assert [y, mo, da] + [h] == [y, mo, da, h];
    HourStep(d.hour, l.hour, mi, [y, mo, da], m);
    var t3 := h + ":" + mi;
    assert [y, mo] + [da] == [y, mo, da];
    DayStep(d.day, l.day, l.separator, t3, [y, mo], m);
    var t2 := da + [l.separator] + t3;
    assert [y] + [mo] == [y, mo];
    MonthStep(d.month, l.month, t2, [y], m);
    var t1 := mo + "-" + t2;
    assert [] + [y] == [y];
    YearStep(d.year, t1, [], m);
    Nest(y, mo, da, [l.separator], h, mi);
  }

  /** A rendering read from the left is the year, its dash and the rest. */
  lemma Nest(y: string, mo: string, da: string, sep: string, h: string, mi: string)
    ensures y + "-" + mo + "-" + da + sep + h + ":" + mi == y + "-" + (mo + "-" + (da + sep + (h + ":" + mi)))
  {
  }

  // ---------------------------------------------------------------------
  // Every value the pattern accepts is one of those renderings
  // ---------------------------------------------------------------------

  lemma {:induction false} BranchesRead(p: seq<Item>, k: nat, i: nat, t: string, groups: seq<string>, m: Match)
    returns (j: nat)
    requires k < |p| && p[k].Group? && i <= |p[k].branches|
    requires TryBranches(p, k, i, t, groups) == Some(m)
    ensures i <= j < |p[k].branches| && BranchMatches(p[k].branches[j], t) && |p[k].branches[j]| <= |t|
    ensures MatchFrom(p, k + 1, t[|p[k].branches[j]|..], groups + [t[..|p[k].branches[j]|]]) == Some(m)
    decreases |p[k].branches| - i
  {
    var b := p[k].branches[i];
    if BranchMatches(b, t) {
      ClassesFromLength(b, 0, t);
    }
    if BranchMatches(b, t) && MatchFrom(p, k + 1, t[|b|..], groups + [t[..|b|]]).Some? {
      j := i;
    } else {
      j := BranchesRead(p, k, i + 1, t, groups, m);
    }
  }

  /** A group that matched did so through one of its branches. */
  lemma GroupRead(p: seq<Item>, k: nat, t: string, groups: seq<string>, m: Match) returns (j: nat)
    requires k < |p| && p[k].Group? && MatchFrom(p, k, t, groups) == Some(m)
    ensures j < |p[k].branches| && BranchMatches(p[k].branches[j], t) && |p[k].branches[j]| <= |t|
    ensures MatchFrom(p, k + 1, t[|p[k].branches[j]|..], groups + [t[..|p[k].branches[j]|]]) == Some(m)
  {
    j := BranchesRead(p, k, 0, t, groups, m);
  }

  /** A literal that matched consumed one character of its class. */
  lemma LiteralRead(p: seq<Item>, k: nat, t: string, groups: seq<string>, m: Match)
    requires k < |p| && p[k].Literal? && MatchFrom(p, k, t, groups) == Some(m)
    ensures |t| > 0 && InClass(t[0], p[k].expected) && MatchFrom(p, k + 1, t[1..], groups) == Some(m)
  {
  }

  lemma DigitBack(c: char)
    requires IsDigit(c)
    ensures 0 <= DigitValue(c) <= 9 && DigitChar(DigitValue(c)) == c
  {
  }

  lemma OneDigit(f: string)
    requires |f| == 1 && IsDigit(f[0])
    ensures 0 <= Value(f) <= 9 && [DigitChar(Value(f))] == f && Int(f) == Value(f)
  {
    assert f[..0] == [];
  }

  lemma TwoDigits(f: string)
    requires |f| == 2 && IsDigit(f[0]) && IsDigit(f[1])
    ensures Value(f) == 10 * DigitValue(f[0]) + DigitValue(f[1]) && Pad2(Value(f)) == f && Int(f) == Value(f)
  {
    var a, b := DigitValue(f[0]), DigitValue(f[1]);
    assert f[..1][..0] == [];
    assert Value(f[..1]) == a;
    assert f[..|f| - 1] == f[..1];
    DigitBack(f[0]);
    DigitBack(f[1]);
    DivPlace(a, b, 10);
    assert Value(f) / 10 == a && Value(f) % 10 == b;
    assert f == [f[0], f[1]];
  }

  lemma FourDigits(f: string)
    requires |f| == 4 && IsDigit(f[0]) && IsDigit(f[1]) && IsDigit(f[2]) && IsDigit(f[3])
    ensures 0 <= Value(f) <= 9999 && Pad4(Value(f)) == f && Int(f) == Value(f)
  {
    var a, b, c, e := DigitValue(f[0]), DigitValue(f[1]), DigitValue(f[2]), DigitValue(f[3]);
    FourValue(f);
    var v := Value(f);
    DivPlace(a, b * 100 + c * 10 + e, 1000);
    assert v == (a * 10 + b) * 100 + (c * 10 + e);
    DivPlace(a * 10 + b, c * 10 + e, 100);
    DivPlace(a, b, 10);
    assert v == (a * 100 + b * 10 + c) * 10 + e;
    DivPlace(a * 100 + b * 10 + c, e, 10);
    DivPlace(a * 10 + b, c, 10);
    DigitBack(f[0]);
    DigitBack(f[1]);
    DigitBack(f[2]);
    DigitBack(f[3]);
    assert v / 1000 == a && v / 100 % 10 == b && v / 10 % 10 == c && v % 10 == e;
    assert f == [f[0], f[1], f[2], f[3]];
  }

  /** `int` of four characters weighs them by thousands, hundreds, tens and
      ones. */
  lemma FourValue(f: string)
    requires |f| == 4
    ensures Value(f) == DigitValue(f[0]) * 1000 + (DigitValue(f[1]) * 100 + DigitValue(f[2]) * 10 + DigitValue(f[3]))
  {
    var a, b, c := DigitValue(f[0]), DigitValue(f[1]), DigitValue(f[2]);
    assert f[..1][..0] == [];
    assert Value(f[..1]) == a;
    assert f[..2][..1] == f[..1];
    assert Value(f[..2]) == a * 10 + b;
    assert f[..3][..2] == f[..2];
    assert Value(f[..3]) == (a * 10 + b) * 10 + c;
    assert f[..|f| - 1] == f[..3];
  }

  /** Dividing `q * k + r` by a power of ten `k` gives back `q`, and
      leaves `r`, when `r` is below `k`. */
  lemma DivPlace(q: int, r: int, k: int)
    requires k == 10 || k == 100 || k == 1000
    requires 0 <= r < k
    ensures (q * k + r) / k == q && (q * k + r) % k == r
  {
    if k == 10 {
      assert q * k + r == q * 10 + r;
    } else if k == 100 {
      assert q * k + r == q * 100 + r;
    } else {
      assert q * k + r == q * 1000 + r;
    }
  }

  lemma IntPad4(n: int)
    requires 0 <= n <= 9999
    ensures Int(Pad4(n)) == n
  {
    ValuePad4(n);
  }

  lemma YearRead(t: string, groups: seq<string>, m: Match) returns (n: int, rest: string)
    requires MatchFrom(StrptimePattern, 0, t, groups) == Some(m)
    ensures 0 <= n <= 9999 && t == Pad4(n) + "-" + rest
    ensures MatchFrom(StrptimePattern, 2, rest, groups + [Pad4(n)]) == Some(m)
  {
    var p, bs := StrptimePattern, YearBranches;
    assert p[0] == Group(bs) && p[1] == Literal(Exactly('-'));
    var j := GroupRead(p, 0, t, groups, m);
    var f, after := t[..4], t[4..];
    Matches4(bs[0], t);
    LiteralRead(p, 1, after, groups + [f], m);
    rest := after[1..];
    FourDigits(f);
    n := Value(f);
    Halves(t, |f|);
    FirstAndRest(after);
  }

  lemma MonthRead(t: string, groups: seq<string>, m: Match) returns (n: int, w: Width, rest: string)
    requires MatchFrom(StrptimePattern, 2, t, groups) == Some(m)
    ensures 1 <= n <= 12 && (w == Padded || (w == Bare && n <= 9))
    ensures t == Field(n, w) + "-" + rest
    ensures MatchFrom(StrptimePattern, 4, rest, groups + [Field(n, w)]) == Some(m)
  {
    var p, bs := StrptimePattern, MonthBranches;
    assert p[2] == Group(bs) && p[3] == Literal(Exactly('-'));
    var j := GroupRead(p, 2, t, groups, m);
    var f, after := t[..|bs[j]|], t[|bs[j]|..];
    LiteralRead(p, 3, after, groups + [f], m);
    rest := after[1..];
    if j < 2 {
      Matches2(bs[j], t);
      TwoDigits(f);
      n, w := Value(f), Padded;
    } else {
      Matches1(bs[j], t);
      OneDigit(f);
      n, w := Value(f), Bare;
    }
    Halves(t, |f|);
    FirstAndRest(after);
  }

  lemma DayRead(t: string, groups: seq<string>, m: Match) returns (n: int, w: Width, sep: char, rest: string)
    requires MatchFrom(StrptimePattern, 4, t, groups) == Some(m)
    ensures 1 <= n <= 31 && (w == Padded || n <= 9) && (sep == 'T' || sep == 't')
    ensures t == Field(n, w) + [sep] + rest
    ensures MatchFrom(StrptimePattern, 6, rest, groups + [Field(n, w)]) == Some(m)
  {
    var p, bs := StrptimePattern, DayBranches;
    assert p[4] == Group(bs) && p[5] == Literal(AnyCase('T', 't'));
    var j := GroupRead(p, 4, t, groups, m);
    var f, after := t[..|bs[j]|], t[|bs[j]|..];
    LiteralRead(p, 5, after, groups + [f], m);
    sep, rest := after[0], after[1..];
    if j < 3 {
      Matches2(bs[j], t);
      TwoDigits(f);
      n, w := Value(f), Padded;
    } else if j == 3 {
      Matches1(bs[j], t);
      OneDigit(f);
      n, w := Value(f), Bare;
    } else {
      Matches2(bs[j], t);
      OneDigit(f[1..]);
      n, w := Value(f[1..]), Spaced;
      assert f == [' '] + f[1..] == Field(n, w);
    }
    Halves(t, |f|);
    FirstAndRest(after);
  }

  lemma HourRead(t: string, groups: seq<string>, m: Match) returns (n: int, w: Width, rest: string)
    requires MatchFrom(StrptimePattern, 6, t, groups) == Some(m)
    ensures 0 <= n <= 23 && (w == Padded || (w == Bare && n <= 9))
    ensures t == Field(n, w) + ":" + rest
    ensures MatchFrom(StrptimePattern, 8, rest, groups + [Field(n, w)]) == Some(m)
  {
    var p, bs := StrptimePattern, HourBranches;
    assert p[6] == Group(bs) && p[7] == Literal(Exactly(':'));
    var j := GroupRead(p, 6, t, groups, m);
    var f, after := t[..|bs[j]|], t[|bs[j]|..];
    LiteralRead(p, 7, after, groups + [f], m);
    rest := after[1..];
    if j < 2 {
      Matches2(bs[j], t);
      TwoDigits(f);
      n, w := Value(f), Padded;
    } else {
      Matches1(bs[j], t);
      OneDigit(f);
      n, w := Value(f), Bare;
    }
    Halves(t, |f|);
    FirstAndRest(after);
  }

  lemma MinuteRead(t: string, groups: seq<string>, m: Match) returns (n: int, w: Width)
    requires MatchFrom(StrptimePattern, 8, t, groups) == Some(m)
    ensures 0 <= n <= 59 && (w == Padded || (w == Bare && n <= 9))
    ensures t == Field(n, w) + m.rest && m.groups == groups + [Field(n, w)]
  {
    var p, bs := StrptimePattern, MinuteBranches;
    assert p[8] == Group(bs);
    var j := GroupRead(p, 8, t, groups, m);
    var f, after := t[..|bs[j]|], t[|bs[j]|..];
    if j == 0 {
      Matches2(bs[j], t);
      TwoDigits(f);
      n, w := Value(f), Padded;
    } else {
      Matches1(bs[j], t);
      OneDigit(f);
      n, w := Value(f), Bare;
    }
    Halves(t, |f|);
  }

  /** Month, dash, day and the letter T after the year's dash. */
  lemma MonthDayRead(t: string, groups: seq<string>, m: Match)
    returns (mo: int, wm: Width, da: int, wd: Width, sep: char, rest: string)
    requires MatchFrom(StrptimePattern, 2, t, groups) == Some(m)
    ensures 1 <= mo <= 12 && (wm == Padded || (wm == Bare && mo <= 9))
    ensures 1 <= da <= 31 && (wd == Padded || da <= 9) && (sep == 'T' || sep == 't')
    ensures t == Field(mo, wm) + "-" + Field(da, wd) + [sep] + rest
    ensures MatchFrom(StrptimePattern, 6, rest, groups + [Field(mo, wm), Field(da, wd)]) == Some(m)
  {
    var after;
    mo, wm, after := MonthRead(t, groups, m);
    da, wd, sep, rest := DayRead(after, groups + [Field(mo, wm)], m);
    assert groups + [Field(mo, wm)] + [Field(da, wd)] == groups + [Field(mo, wm), Field(da, wd)];
  }

  /** The time part: hour, colon, minute, and whatever follows. */
  lemma TimeRead(t: string, groups: seq<string>, m: Match) returns (h: int, wh: Width, mi: int, wmi: Width)
    requires MatchFrom(StrptimePattern, 6, t, groups) == Some(m)
    ensures 0 <= h <= 23 && (wh == Padded || (wh == Bare && h <= 9))
    ensures 0 <= mi <= 59 && (wmi == Padded || (wmi == Bare && mi <= 9))
    ensures t == Field(h, wh) + ":" + Field(mi, wmi) + m.rest
    ensures m.groups == groups + [Field(h, wh), Field(mi, wmi)]
  {
    var rest;
    h, wh, rest := HourRead(t, groups, m);
    mi, wmi := MinuteRead(rest, groups + [Field(h, wh)], m);
  }

  /** Whatever the pattern matches at the front of `s` is a rendering of
      the numbers its groups hold. */
  lemma PatternRead(s: string, m: Match) returns (d: DateTime, l: Layout)
    requires MatchFrom(StrptimePattern, 0, s, []) == Some(m)
    ensures Fits(d, l) && s == Render(d, l) + m.rest
    ensures m.groups == [Pad4(d.year), Field(d.month, l.month), Field(d.day, l.day), Field(d.hour, l.hour), Field(d.minute, l.minute)]
  {
    var y, r1 := YearRead(s, [], m);
    var g1 := [] + [Pad4(y)];
    var mo, wm, da, wd, sep, r3 := MonthDayRead(r1, g1, m);
    var h, wh, mi, wmi := TimeRead(r3, g1 + [Field(mo, wm), Field(da, wd)], m);
    d := DateTime(y, mo, da, h, mi);
    l := Layout(wm, wd, wh, wmi, sep);
    Regroup(s, Pad4(y), r1, Field(mo, wm), Field(da, wd), [sep], r3, Field(h, wh), Field(mi, wmi), m.rest);
  }

  /** The three pieces the pattern is read in, put back together. */
  lemma Regroup(s: string, y: string, r1: string, mo: string, da: string, sep: string,
                r3: string, h: string, mi: string, rest: string)
    requires s == y + "-" + r1 && r1 == mo + "-" + da + sep + r3 && r3 == h + ":" + mi + rest
    ensures s == y + "-" + mo + "-" + da + sep + h + ":" + mi + rest
  {
  }

  /** Everything `strptime` accepts is a rendering of the date and time it
      returns: the grammar above is all it admits. */
  lemma StrptimeOnlyRender(s: string) returns (l: Layout)
    requires Strptime(s).Some?
    ensures Fits(Strptime(s).value, l) && s == Render(Strptime(s).value, l)
  {
    var m := MatchFrom(StrptimePattern, 0, s, []).value;
    var d;
    d, l := PatternRead(s, m);
    IntPad4(d.year);
    IntField(d.month, l.month);
    IntField(d.day, l.day);
    IntField(d.hour, l.hour);
    IntField(d.minute, l.minute);
    var g := m.groups;
    assert DateTime(Int(g[0]), Int(g[1]), Int(g[2]), Int(g[3]), Int(g[4])) == d;
    assert Strptime(s).value == d;
    assert s == Render(d, l) + "";
  }

  // ---------------------------------------------------------------------
  // What the schedule line shows
  // ---------------------------------------------------------------------

  lemma RenderLength(d: DateTime, l: Layout)
    requires Fits(d, l)
    ensures 12 <= |Render(d, l)| <= 16
  {
  }

  /** `strptime` accepts nothing shorter than `2023-6-5T9:7` and nothing
      longer than `2023-06-05T09:07`. */
  lemma StrptimeLength(s: string)
    ensures Strptime(s).Some? ==> 12 <= |s| <= 16
  {
    if Strptime(s).Some? {
      var l := StrptimeOnlyRender(s);
      RenderLength(Strptime(s).value, l);
    }
  }

  /** A value that does not start with a digit is not a date. */
  lemma NoLeadingDigit(s: string)
    requires s == "" || !IsDigit(s[0])
    ensures Strptime(s) == None
  {
    var p := StrptimePattern;
    assert p[0] == Group(YearBranches);
    assert !BranchMatches(YearBranches[0], s);
    assert TryBranches(p, 0, 1, s, []) == None;
    assert TryBranches(p, 0, 0, s, []) == None;
    assert MatchFrom(p, 0, s, []) == None;
  }

  /** A month written 13 to 19 after a four-digit year is refused: `%m`
      takes the 1 alone, and the dash it must be followed by is missing. */
  lemma MonthPastDecember(s: string)
    requires |s| >= 7 && IsDigit(s[0]) && IsDigit(s[1]) && IsDigit(s[2]) && IsDigit(s[3])
    requires s[4] == '-' && s[5] == '1' && '3' <= s[6] <= '9'
    ensures Strptime(s) == None
  {
    var p, y, t := StrptimePattern, s[..4], s[5..];
    assert p[0] == Group(YearBranches) && p[1] == Literal(Exactly('-'));
    assert p[2] == Group(MonthBranches) && p[3] == Literal(Exactly('-'));
    Matches2(MonthBranches[0], t);
    Matches2(MonthBranches[1], t);
    Matches1(MonthBranches[2], t);
    assert MatchFrom(p, 3, t[1..], [y] + [t[..1]]) == None;
    assert TryBranches(p, 2, 2, t, [y]) == None;
    assert TryBranches(p, 2, 0, t, [y]) == None;
    assert MatchFrom(p, 2, t, [y]) == None;
    assert s[4..][1..] == t && [] + [y] == [y];
    assert MatchFrom(p, 1, s[4..], [] + [y]) == None;
    Matches4(YearBranches[0], s);
    assert TryBranches(p, 0, 0, s, []) == None;
  }

  /** Month 13, as in the value 2024-13-01T10:00, is shown as typed. */
  lemma MonthThirteenExample()
    ensures FormatSchedule(Some("2024-13-01T10:00")) == "2024-13-01T10:00"
  {
    MonthPastDecember("2024-13-01T10:00");
  }

  /** `strftime` output: the year as written by `%Y`, then eleven characters
      of zero-padded fields and the Japanese unit signs. */
  lemma StrftimeLayout(d: DateTime)
    requires Valid(d)
    ensures var r, n := Strftime(d), |Decimal(d.year)|;
            |r| == n + 13 && r[..n] == Decimal(d.year) && r[n..n + 1] == "年"
            && r[n + 1..n + 3] == Pad2(d.month) && r[n + 3..n + 4] == "月"
            && r[n + 4..n + 6] == Pad2(d.day) && r[n + 6..n + 8] == "日 "
            && r[n + 8..n + 10] == Pad2(d.hour) && r[n + 10..n + 11] == ":"
            && r[n + 11..] == Pad2(d.minute)
  {
  }

  /** Two date-times are written the same way only if they are the same. */
  lemma StrftimeInjective(d: DateTime, e: DateTime)
    requires Valid(d) && Valid(e) && Strftime(d) == Strftime(e)
    ensures d == e
  {
    StrftimeLayout(d);
    StrftimeLayout(e);
    ValueDecimal(d.year);
    ValueDecimal(e.year);
    ValuePad2(d.month);
    ValuePad2(e.month);
    ValuePad2(d.day);
    ValuePad2(e.day);
    ValuePad2(d.hour);
    ValuePad2(e.hour);
    ValuePad2(d.minute);
    ValuePad2(e.minute);
  }

  /** A value `strptime` accepts is shown re-rendered. */
  lemma FormatScheduleAccepted(d: DateTime, l: Layout)
    requires Fits(d, l) && Valid(d)
    ensures FormatSchedule(Some(Render(d, l))) == Strftime(d)
  {
    StrptimeRender(d, l);
  }

  /** What a browser submits for a valid date and time is shown re-rendered. */
  lemma FormatScheduleStandard(d: DateTime)
    requires Valid(d)
    ensures FormatSchedule(Some(Render(d, Standard))) == Strftime(d)
  {
    FormatScheduleAccepted(d, Standard);
  }

  /** Numbers in range for the pattern that are no calendar date (the 29th
      of February of a common year, the 31st of April, year 0) make
      `datetime` raise, and the value is shown as it is. */
  lemma FormatScheduleNotCalendar(d: DateTime, l: Layout)
    requires Fits(d, l) && !Valid(d)
    ensures FormatSchedule(Some(Render(d, l))) == Render(d, l)
  {
    StrptimeRender(d, l);
    RenderLength(d, l);
  }

  /** A non-empty value that does not start with a digit is shown as it is
      (the empty value reads 未定 instead). */
  lemma FormatScheduleNotDate(s: string)
    requires s != "" && !IsDigit(s[0])
    ensures FormatSchedule(Some(s)) == s
  {
    NoLeadingDigit(s);
  }

  /** The schedule line reads 未定 exactly when no value was sent, an empty
      one was, or the value was 未定 itself. */
  lemma FormatScheduleUndecided(input: Option<string>)
    ensures FormatSchedule(input) == Undecided
            <==> input == None || input == Some("") || input == Some(Undecided)
  {
    if input.Some? && input.value != "" {
      var s := input.value;
      StrptimeLength(s);
      match Strptime(s)
      case Some(d) =>
        StrftimeLayout(d);
        assert |FormatSchedule(input)| >= 14;
      case None =>
    }
  }

  /** Whatever is shown, it is never empty. */
  lemma FormatScheduleNonEmpty(input: Option<string>)
    ensures FormatSchedule(input) != ""
  {
    if input.Some? && input.value != "" {
      match Strptime(input.value)
      case Some(d) => StrftimeLayout(d);
      case None =>
    }
  }

  /** How a browser writes the leap day of 2024 at ten o'clock. */
  lemma LeapDayTyped()
    ensures Render(DateTime(2024, 2, 29, 10, 0), Standard) == "2024-02-29T10:00"
  {
    assert Pad4(2024) == "2024";
    assert Pad2(2) == "02" && Pad2(29) == "29" && Pad2(10) == "10" && Pad2(0) == "00";
  }

  /** How `strftime` writes the same moment. */
  lemma LeapDayShown()
    ensures Valid(DateTime(2024, 2, 29, 10, 0))
    ensures Strftime(DateTime(2024, 2, 29, 10, 0)) == "2024年02月29日 10:00"
  {
    assert Decimal(2) == "2" && Decimal(20) == "20" && Decimal(202) == "202";
    assert Decimal(2024) == "2024";
  }

  /** Leap day of a leap year, as a browser sends it, is shown re-rendered. */
  lemma LeapDayExample()
    ensures FormatSchedule(Some("2024-02-29T10:00")) == "2024年02月29日 10:00"
  {
    LeapDayTyped();
    LeapDayShown();
    FormatScheduleStandard(DateTime(2024, 2, 29, 10, 0));
  }

  /** The same day of a common year is shown as typed. */
  lemma CommonYearExample()
    ensures FormatSchedule(Some("2023-02-29T10:00")) == "2023-02-29T10:00"
  {
    var d := DateTime(2023, 2, 29, 10, 0);
    assert Render(d, Standard) == "2023-02-29T10:00";
    FormatScheduleNotCalendar(d, Standard);
  }
}
