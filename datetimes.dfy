/** `datetime.datetime.strptime(text, CSV_DATE_TIME_FORMAT)` as CPython's
    `_strptime` does it: the format is compiled into a regular expression,
    the expression is matched from the start of the text with backtracking,
    the text must be used up, and the fields must make a real date-time. */
module DateTimes {
  import opened Wrappers
  import opened Text

  const CsvDateTimeFormat: string := "%Y-%m-%d %H:%M:%S"

  /** The naive (local) date-time strptime returns. */
  datatype LocalDateTime = LocalDateTime(year: int, month: int, day: int, hour: int, minute: int, second: int)

  datatype Field = Year | Month | Day | Hour | Minute | Second

  /** One piece of a compiled format: a numeric directive, a character that
      must appear as it is, or a run of format whitespace, which becomes `\s+`. */
  datatype Directive = Number(field: Field) | Literal(c: char) | Spaces

  /** The ValueError strptime raises, by cause. */
  datatype ParseError =
    | BadDirective(c: char)
    | StrayPercent
    | NoMatch
    | UnconvertedData(rest: string)
    | OutOfRange

  function DirectiveField(c: char): Option<Field> {
    match c
    case 'Y' => Some(Year)
    case 'm' => Some(Month)
    case 'd' => Some(Day)
    case 'H' => Some(Hour)
    case 'M' => Some(Minute)
    case 'S' => Some(Second)
    case _ => None
  }

  function SpaceRun(s: string): (n: nat)
    ensures n <= |s|
    ensures forall k :: 0 <= k < n ==> IsSpace(s[k])
    ensures n == |s| || !IsSpace(s[n])
  {
    if s != [] && IsSpace(s[0]) then 1 + SpaceRun(s[1..]) else 0
  }

  function Prepend(d: Directive, r: Result<seq<Directive>, ParseError>): Result<seq<Directive>, ParseError> {
    match r
    case Ok(ds) => Ok([d] + ds)
    case Err(e) => Err(e)
  }

  /** Compiles a format string; only the directives main.py's format uses are known. */
  function CompileFormat(fmt: string): Result<seq<Directive>, ParseError>
    decreases |fmt|
  {
    if fmt == [] then Ok([])
    else if fmt[0] == '%' then
      if |fmt| == 1 then Err(StrayPercent)
      else if fmt[1] == '%' then Prepend(Literal('%'), CompileFormat(fmt[2..]))
      else match DirectiveField(fmt[1])
        case None => Err(BadDirective(fmt[1]))
        case Some(f) => Prepend(Number(f), CompileFormat(fmt[2..]))
    else if IsSpace(fmt[0]) then Prepend(Spaces, CompileFormat(fmt[SpaceRun(fmt)..]))
    else Prepend(Literal(fmt[0]), CompileFormat(fmt[1..]))
  }

  /** `CSV_DATE_TIME_FORMAT` compiled. */
  const CsvPattern: seq<Directive> := [
    Number(Year), Literal('-'), Number(Month), Literal('-'), Number(Day), Spaces,
    Number(Hour), Literal(':'), Number(Minute), Literal(':'), Number(Second)
  ]

  /** A character class `[lo-hi]`; `\d` is `[0-9]`. */
  datatype CharClass = Range(lo: char, hi: char)

  const Digit: CharClass := Range('0', '9')

  function One(c: char): CharClass {
    Range(c, c)
  }

  /** The alternatives of each directive's group in CPython's `TimeRE`, in the
      order the regular-expression engine tries them. */
  function Alternatives(f: Field): seq<seq<CharClass>> {
    match f
    case Year => [[Digit, Digit, Digit, Digit]]
    case Month => [[One('1'), Range('0', '2')], [One('0'), Range('1', '9')], [Range('1', '9')]]
    case Day => [[One('3'), Range('0', '1')], [Range('1', '2'), Digit], [One('0'), Range('1', '9')],
                 [Range('1', '9')], [One(' '), Range('1', '9')]]
    case Hour => [[One('2'), Range('0', '3')], [Range('0', '1'), Digit], [Digit]]
    case Minute => [[Range('0', '5'), Digit], [Digit]]
    case Second => [[One('6'), Range('0', '1')], [Range('0', '5'), Digit], [Digit]]
  }

  predicate InClass(k: CharClass, c: char) {
    k.lo <= c <= k.hi
  }

  /** The alternative matches the first `|alt|` characters of `s`. */
  predicate MatchesPrefix(alt: seq<CharClass>, s: string) {
    |alt| <= |s| && forall i :: 0 <= i < |alt| ==> InClass(alt[i], s[i])
  }

  /** The groups captured so far and the text not yet consumed. */
  datatype Match = Match(captures: map<Field, string>, rest: string)

  /** `re.match`: the first way, in backtracking order, to match the pattern
      against a prefix of `s`. */
  function MatchPattern(pat: seq<Directive>, s: string): Option<Match>
    decreases |pat|, 0, 0
  {
    if pat == [] then Some(Match(map[], s))
    else match pat[0]
      case Literal(c) => if s != [] && s[0] == c then MatchPattern(pat[1..], s[1..]) else None
      case Spaces => MatchSpaces(SpaceRun(s), pat[1..], s)
      case Number(f) => MatchAlternatives(Alternatives(f), f, pat[1..], s)
  }

  /** A group: tries the alternatives in order, each followed by the rest of the pattern. */
  function MatchAlternatives(alts: seq<seq<CharClass>>, f: Field, pat: seq<Directive>, s: string): Option<Match>
    decreases |pat|, 1, |alts|
  {
    if alts == [] then None
    else if MatchesPrefix(alts[0], s) then
      match MatchPattern(pat, s[|alts[0]|..])
      case Some(m) => Some(Match(m.captures[f := s[..|alts[0]|]], m.rest))
      case None => MatchAlternatives(alts[1..], f, pat, s)
    else MatchAlternatives(alts[1..], f, pat, s)
  }

  /** `\s+`: takes the `n` leading whitespace characters, then gives them back
      one at a time while the rest of the pattern fails. */
  function MatchSpaces(n: nat, pat: seq<Directive>, s: string): Option<Match>
    requires n <= |s|
    decreases |pat|, 1, n
  {
    if n == 0 then None
    else match MatchPattern(pat, s[n..])
      case Some(m) => Some(m)
      case None => MatchSpaces(n - 1, pat, s)
  }

  /** `int()` of a run of decimal digits. */
  function DigitsValue(s: string): int {
    if s == [] then 0 else 10 * DigitsValue(s[..|s| - 1]) + (s[|s| - 1] as int - '0' as int)
  }

  /** `int()` of a captured group; the day group may start with a space. */
  function GroupValue(captures: map<Field, string>, f: Field, default: int): int {
    if f !in captures then default
    else if captures[f] != [] && captures[f][0] == ' ' then DigitsValue(captures[f][1..])
    else DigitsValue(captures[f])
  }

  predicate IsLeapYear(y: int) {
    y % 4 == 0 && (y % 100 != 0 || y % 400 == 0)
  }

  function DaysInMonth(y: int, m: int): int
    requires 1 <= m <= 12
  {
    if m == 2 then (if IsLeapYear(y) then 29 else 28)
    else if m == 4 || m == 6 || m == 9 || m == 11 then 30
    else 31
  }

  /** What Python's `datetime` constructor accepts. */
  predicate IsValid(d: LocalDateTime) {
    1 <= d.year <= 9999 && 1 <= d.month <= 12 && 1 <= d.day <= DaysInMonth(d.year, d.month) &&
    0 <= d.hour <= 23 && 0 <= d.minute <= 59 && 0 <= d.second <= 59
  }

  /** Turns the captured groups into a date-time; absent groups take
      strptime's defaults (1900-01-01 00:00:00). */
  function Build(captures: map<Field, string>): Result<LocalDateTime, ParseError> {
    var d := LocalDateTime(GroupValue(captures, Year, 1900), GroupValue(captures, Month, 1),
                           GroupValue(captures, Day, 1), GroupValue(captures, Hour, 0),
                           GroupValue(captures, Minute, 0), GroupValue(captures, Second, 0));
    if IsValid(d) then Ok(d) else Err(OutOfRange)
  }

  /** Matching `text` against a compiled format and building the result. */
  function StrptimePattern(text: string, pat: seq<Directive>): (r: Result<LocalDateTime, ParseError>)
    ensures r.Ok? ==> IsValid(r.value)
  {
    match MatchPattern(pat, text)
    case None => Err(NoMatch)
    case Some(m) => if m.rest != [] then Err(UnconvertedData(m.rest)) else Build(m.captures)
  }

  /** `datetime.datetime.strptime(text, fmt)`. */
  function Strptime(text: string, fmt: string): (r: Result<LocalDateTime, ParseError>)
    ensures r.Ok? ==> IsValid(r.value)
  {
    match CompileFormat(fmt)
    case Err(e) => Err(e)
    case Ok(pat) => StrptimePattern(text, pat)
  }

  /** A row's start or end: `strptime(f'{date} {time}', CSV_DATE_TIME_FORMAT)`,
      with the format compiled once (see `ParseDateTimeIsStrptime`). */
  function ParseDateTime(date: string, time: string): (r: Result<LocalDateTime, ParseError>)
    ensures r.Ok? ==> IsValid(r.value)
  {
    StrptimePattern(date + " " + time, CsvPattern)
  }

  /** Parsing a row's timestamp is `strptime` with `CSV_DATE_TIME_FORMAT`. */
  lemma ParseDateTimeIsStrptime(date: string, time: string)
    ensures ParseDateTime(date, time) == Strptime(date + " " + time, CsvDateTimeFormat)
  {
    CompileCsvFormat(CsvDateTimeFormat);
  }

  /** The format constant compiles to the pattern the CSV timestamps are matched with.
      (This lemma and the two below take the format as a parameter pinned to
      the constant: a literal argument would make the verifier unfold
      `CompileFormat` on it eagerly.) */
  lemma CompileCsvFormat(fmt: string)
    requires fmt == CsvDateTimeFormat
    ensures CompileFormat(fmt) == Ok(CsvPattern)
  {
    var p := CsvPattern;
    CompileCsvDay(fmt);
    LiteralAt(fmt, 2);
    assert p[1..] == [Literal('-')] + p[2..];
    DirectiveAt(fmt, 0, Year);
    assert p == [Number(Year)] + p[1..];
    assert fmt[0..] == fmt;
  }

  /** `%m-%d %H:%M:%S`, the format from the month on. */
  lemma CompileCsvDay(fmt: string)
    requires fmt == CsvDateTimeFormat
    ensures CompileFormat(fmt[3..]) == Ok(CsvPattern[2..])
  {
    var p := CsvPattern;
    CompileCsvTime(fmt);
    SpaceAt(fmt, 8);
    assert p[5..] == [Spaces] + p[6..];
    DirectiveAt(fmt, 6, Day);
    assert p[4..] == [Number(Day)] + p[5..];
    LiteralAt(fmt, 5);
    assert p[3..] == [Literal('-')] + p[4..];
    DirectiveAt(fmt, 3, Month);
    assert p[2..] == [Number(Month)] + p[3..];
  }

  /** `%H:%M:%S`, the time half of the format. */
  lemma CompileCsvTime(fmt: string)
    requires fmt == CsvDateTimeFormat
    ensures CompileFormat(fmt[9..]) == Ok(CsvPattern[6..])
  {
    var p := CsvPattern;
    assert |fmt| == 17 && fmt[17..] == [] && |p| == 11 && p[11..] == [];
    DirectiveAt(fmt, 15, Second);
    assert p[10..] == [Number(Second)] + p[11..];
    LiteralAt(fmt, 14);
    assert p[9..] == [Literal(':')] + p[10..];
    DirectiveAt(fmt, 12, Minute);
    assert p[8..] == [Number(Minute)] + p[9..];
    LiteralAt(fmt, 11);
    assert p[7..] == [Literal(':')] + p[8..];
    DirectiveAt(fmt, 9, Hour);
    assert p[6..] == [Number(Hour)] + p[7..];
  }

  /** A directive at position `k` compiles to its number group. */
  lemma DirectiveAt(fmt: string, k: nat, f: Field)
    requires k + 2 <= |fmt| && fmt[k] == '%' && DirectiveField(fmt[k + 1]) == Some(f)
    ensures CompileFormat(fmt[k..]) == Prepend(Number(f), CompileFormat(fmt[k + 2..]))
  {
    assert fmt[k..][2..] == fmt[k + 2..];
  }

  /** An ordinary character at position `k` compiles to a literal. */
  lemma LiteralAt(fmt: string, k: nat)
    requires k < |fmt| && fmt[k] != '%' && !IsSpace(fmt[k])
    ensures CompileFormat(fmt[k..]) == Prepend(Literal(fmt[k]), CompileFormat(fmt[k + 1..]))
  {
    assert fmt[k..][1..] == fmt[k + 1..];
  }

  /** A single whitespace character at position `k` compiles to `\s+`. */
  lemma SpaceAt(fmt: string, k: nat)
    requires k + 1 < |fmt| && IsSpace(fmt[k]) && !IsSpace(fmt[k + 1])
    ensures CompileFormat(fmt[k..]) == Prepend(Spaces, CompileFormat(fmt[k + 1..]))
  {
    var t := fmt[k..];
    assert t[1..] == fmt[k + 1..];
    assert t[1] == fmt[k + 1];
    assert SpaceRun(t) == 1;
  }

  function DigitChar(k: int): char
    requires 0 <= k <= 9
  {
    ('0' as int + k) as char
  }

  /** Zero-padded to two digits, as `%m`, `%d`, `%H`, `%M`, `%S` print. */
  function Pad2(v: int): string
    requires 0 <= v <= 99
  {
    [DigitChar(v / 10), DigitChar(v % 10)]
  }

  /** Zero-padded to four digits, as `%Y` prints. */
  function Pad4(v: int): string
    requires 0 <= v <= 9999
  {
    [DigitChar(v / 1000), DigitChar(v / 100 % 10), DigitChar(v / 10 % 10), DigitChar(v % 10)]
  }

  /** The `Start date` / `End date` column of a Toggl detailed report: `YYYY-MM-DD`. */
  function DateText(d: LocalDateTime): string
    requires IsPrintable(d)
  {
    Pad4(d.year) + "-" + Pad2(d.month) + "-" + Pad2(d.day)
  }

  /** The `Start time` / `End time` column: `HH:MM:SS`. */
  function TimeText(d: LocalDateTime): string
    requires IsPrintable(d)
  {
    Pad2(d.hour) + ":" + Pad2(d.minute) + ":" + Pad2(d.second)
  }

  lemma Pad2Value(v: int)
    requires 0 <= v <= 99
    ensures DigitsValue(Pad2(v)) == v
  {
    var p := Pad2(v);
    assert p[..1][..0] == [];
    assert DigitsValue(p[..1]) == v / 10;
  }

  lemma Pad4Value(v: int)
    requires 0 <= v <= 9999
    ensures DigitsValue(Pad4(v)) == v
  {
    var p := Pad4(v);
    assert p[..1][..0] == [];
    assert DigitsValue(p[..1]) == v / 1000;
    assert p[..2][..1] == p[..1];
    assert DigitsValue(p[..2]) == v / 100;
    assert p[..3][..2] == p[..2];
    assert DigitsValue(p[..3]) == v / 10;
    assert p[..4][..3] == p[..3];
  }

  lemma LiteralStep(c: char, pat: seq<Directive>, t: string)
    ensures MatchPattern([Literal(c)] + pat, [c] + t) == MatchPattern(pat, t)
  {
    assert ([Literal(c)] + pat)[1..] == pat;
    assert ([c] + t)[1..] == t;
  }

  lemma SpaceStep(pat: seq<Directive>, t: string)
    requires t != [] && !IsSpace(t[0])
    ensures MatchPattern([Spaces] + pat, [' '] + t) == MatchPattern(pat, t)
  {
    var s := [' '] + t;
    assert s[1..] == t;
    assert s[1] == t[0];
    assert SpaceRun(s) == 1;
    assert ([Spaces] + pat)[1..] == pat;
    assert MatchSpaces(1, pat, s) == MatchPattern(pat, t);
  }

  /** The group takes the first alternative that lets the rest of the pattern match. */
  lemma {:induction false} FirstAlternative(alts: seq<seq<CharClass>>, i: nat, f: Field, pat: seq<Directive>, s: string, m: Match)
    requires i < |alts|
    requires forall j :: 0 <= j < i ==> !MatchesPrefix(alts[j], s)
    requires MatchesPrefix(alts[i], s)
    requires MatchPattern(pat, s[|alts[i]|..]) == Some(m)
    ensures MatchAlternatives(alts, f, pat, s) == Some(Match(m.captures[f := s[..|alts[i]|]], m.rest))
    decreases i
  {
    if i > 0 {
      assert !MatchesPrefix(alts[0], s);
      FirstAlternative(alts[1..], i - 1, f, pat, s, m);
    }
  }

  /** The range a field must be in to be printed by `Pad2` and read back. */
  predicate InFieldRange(f: Field, v: int) {
    match f
    case Year => 0 <= v <= 9999
    case Month => 1 <= v <= 12
    case Day => 1 <= v <= 31
    case Hour => 0 <= v <= 23
    case Minute => 0 <= v <= 59
    case Second => 0 <= v <= 61
  }

  /** Every field is one its directive's regular expression accepts in
      zero-padded form (the date need not exist). */
  predicate IsPrintable(d: LocalDateTime) {
    InFieldRange(Year, d.year) && InFieldRange(Month, d.month) && InFieldRange(Day, d.day) &&
    InFieldRange(Hour, d.hour) && InFieldRange(Minute, d.minute) && InFieldRange(Second, d.second)
  }

  function FieldText(f: Field, v: int): string
    requires InFieldRange(f, v)
  {
    if f == Year then Pad4(v) else Pad2(v)
  }

  /** A zero-padded field in range is captured whole, whatever follows it,
      as long as the rest of the pattern matches what follows. */
  lemma NumberStep(f: Field, v: int, pat: seq<Directive>, t: string, m: Match)
    requires InFieldRange(f, v)
    requires MatchPattern(pat, t) == Some(m)
    ensures MatchPattern([Number(f)] + pat, FieldText(f, v) + t) ==
            Some(Match(m.captures[f := FieldText(f, v)], m.rest))
  {
    var tok := FieldText(f, v);
    var s := tok + t;
    var alts := Alternatives(f);
    assert ([Number(f)] + pat)[1..] == pat;
    assert s[|tok|..] == t;
    assert s[..|tok|] == tok;
    var i: nat;
    match f {
      case Year => i := 0;
      case Month =>
        if v >= 10 { i := 0; } else { i := 1; assert !InClass(alts[0][0], s[0]); }
      case Day =>
        if v >= 30 { i := 0; }
        else if v >= 10 { i := 1; assert !InClass(alts[0][0], s[0]); }
        else { i := 2; assert !InClass(alts[0][0], s[0]); assert !InClass(alts[1][0], s[0]); }
      case Hour =>
        if v >= 20 { i := 0; } else { i := 1; assert !InClass(alts[0][0], s[0]); }
      case Minute => i := 0;
      case Second =>
        if v >= 60 { i := 0; } else { i := 1; assert !InClass(alts[0][0], s[0]); }
    }
    assert |alts[i]| == |tok|;
    FirstAlternative(alts, i, f, pat, s, m);
  }

  /** The groups a canonical timestamp leaves behind. */
  function CanonicalCaptures(d: LocalDateTime): map<Field, string>
    requires IsPrintable(d)
  {
    map[Second := Pad2(d.second), Minute := Pad2(d.minute), Hour := Pad2(d.hour),
        Day := Pad2(d.day), Month := Pad2(d.month), Year := Pad4(d.year)]
  }

  lemma TimeMatches(d: LocalDateTime, tail: string)
    requires IsPrintable(d)
    ensures MatchPattern(CsvPattern[6..], TimeText(d) + tail) == Some(Match(TimeCaptures(d), tail))
  {
    var p := CsvPattern;
    var t8 := Pad2(d.second) + tail;
    var t7 := ":" + t8;
    var t6 := Pad2(d.minute) + t7;
    var t5 := ":" + t6;
    var t4 := Pad2(d.hour) + t5;
    assert t4 == TimeText(d) + tail;
    assert |p| == 11 && p[11..] == [];
    NumberStep(Second, d.second, p[11..], tail, Match(map[], tail));
    assert p[10..] == [Number(Second)] + p[11..];
    LiteralStep(':', p[10..], t8);
    assert p[9..] == [Literal(':')] + p[10..];
    assert Pad2(d.minute) == FieldText(Minute, d.minute);
    NumberStep(Minute, d.minute, p[9..], t7, Match(map[Second := Pad2(d.second)], tail));
    assert p[8..] == [Number(Minute)] + p[9..];
    LiteralStep(':', p[8..], t6);
    assert p[7..] == [Literal(':')] + p[8..];
    assert Pad2(d.hour) == FieldText(Hour, d.hour);
    NumberStep(Hour, d.hour, p[7..], t5, Match(map[Second := Pad2(d.second)][Minute := Pad2(d.minute)], tail));
    assert p[6..] == [Number(Hour)] + p[7..];
    assert map[Second := Pad2(d.second)][Minute := Pad2(d.minute)][Hour := Pad2(d.hour)] == TimeCaptures(d);
  }

  /** The groups the time half leaves behind. */
  function TimeCaptures(d: LocalDateTime): map<Field, string>
    requires IsPrintable(d)
  {
    map[Second := Pad2(d.second), Minute := Pad2(d.minute), Hour := Pad2(d.hour)]
  }

  lemma DayMatches(d: LocalDateTime, tail: string)
    requires IsPrintable(d)
    ensures MatchPattern(CsvPattern[4..], Pad2(d.day) + " " + TimeText(d) + tail) ==
            Some(Match(TimeCaptures(d)[Day := Pad2(d.day)], tail))
  {
    var p := CsvPattern;
    var t6 := TimeText(d) + tail;
    var t5 := " " + t6;
    assert Pad2(d.day) + t5 == Pad2(d.day) + " " + TimeText(d) + tail;
    TimeMatches(d, tail);
    SpaceStep(p[6..], t6);
    assert p[5..] == [Spaces] + p[6..];
    assert Pad2(d.day) == FieldText(Day, d.day);
    NumberStep(Day, d.day, p[5..], t5, Match(TimeCaptures(d), tail));
    assert p[4..] == [Number(Day)] + p[5..];
  }

  lemma CanonicalMatches(d: LocalDateTime, tail: string)
    requires IsPrintable(d)
    ensures MatchPattern(CsvPattern, DateText(d) + " " + TimeText(d) + tail) == Some(Match(CanonicalCaptures(d), tail))
  {
    var p := CsvPattern;
    var t4 := Pad2(d.day) + " " + TimeText(d) + tail;
    var t3 := "-" + t4;
    var t2 := Pad2(d.month) + t3;
    var t1 := "-" + t2;
    var t0 := Pad4(d.year) + t1;
    assert t0 == DateText(d) + " " + TimeText(d) + tail;
    var c4 := TimeCaptures(d)[Day := Pad2(d.day)];
    DayMatches(d, tail);
    LiteralStep('-', p[4..], t4);
    assert p[3..] == [Literal('-')] + p[4..];
    assert Pad2(d.month) == FieldText(Month, d.month);
    NumberStep(Month, d.month, p[3..], t3, Match(c4, tail));
    assert p[2..] == [Number(Month)] + p[3..];
    LiteralStep('-', p[2..], t2);
    assert p[1..] == [Literal('-')] + p[2..];
    assert Pad4(d.year) == FieldText(Year, d.year);
    NumberStep(Year, d.year, p[1..], t1, Match(c4[Month := Pad2(d.month)], tail));
    assert p == [Number(Year)] + p[1..];
    assert c4[Month := Pad2(d.month)][Year := Pad4(d.year)] == CanonicalCaptures(d);
  }

  lemma CanonicalValues(d: LocalDateTime)
    requires IsPrintable(d)
    ensures Build(CanonicalCaptures(d)) == if IsValid(d) then Ok(d) else Err(OutOfRange)
  {
    Pad4Value(d.year);
    Pad2Value(d.month);
    Pad2Value(d.day);
    Pad2Value(d.hour);
    Pad2Value(d.minute);
    Pad2Value(d.second);
    var c := CanonicalCaptures(d);
    assert GroupValue(c, Year, 1900) == d.year;
    assert GroupValue(c, Month, 1) == d.month;
    assert GroupValue(c, Day, 1) == d.day;
    assert GroupValue(c, Hour, 0) == d.hour;
    assert GroupValue(c, Minute, 0) == d.minute;
    assert GroupValue(c, Second, 0) == d.second;
  }

  /** Round trip: a valid date-time printed as the report's date and time
      columns parses back to exactly its six fields. */
  lemma ParseCanonical(d: LocalDateTime)
    requires IsValid(d)
    ensures ParseDateTime(DateText(d), TimeText(d)) == Ok(d)
  {
    CanonicalMatches(d, []);
    assert DateText(d) + " " + TimeText(d) + [] == DateText(d) + " " + TimeText(d);
    CanonicalValues(d);
  }

  /** Well-formed text naming a date-time that does not exist (February 29
      of a common year, April 31, year 0000, second 60 or 61) raises instead
      of being adjusted. */
  lemma ImpossibleDateTimeRejected(d: LocalDateTime)
    requires IsPrintable(d) && !IsValid(d)
    ensures ParseDateTime(DateText(d), TimeText(d)) == Err(OutOfRange)
  {
    CanonicalMatches(d, []);
    assert DateText(d) + " " + TimeText(d) + [] == DateText(d) + " " + TimeText(d);
    CanonicalValues(d);
  }

  /** Anything after the seconds is "unconverted data": the timestamp is
      rejected, not truncated. */
  lemma TrailingTextRejected(d: LocalDateTime, extra: string)
    requires IsPrintable(d) && extra != []
    ensures ParseDateTime(DateText(d), TimeText(d) + extra) == Err(UnconvertedData(extra))
  {
    CanonicalMatches(d, extra);
    assert DateText(d) + " " + (TimeText(d) + extra) == DateText(d) + " " + TimeText(d) + extra;
  }

  /** An empty date column (as for an entry still running) raises: the year
      group finds a space where it needs a digit. */
  lemma EmptyDateRejected(time: string)
    ensures ParseDateTime("", time) == Err(NoMatch)
  {
    var s := "" + " " + time;
    var alts := Alternatives(Year);
    assert s[0] == ' ';
    assert !InClass(alts[0][0], s[0]);
    assert MatchAlternatives(alts, Year, CsvPattern[1..], s) == None;
  }
}
