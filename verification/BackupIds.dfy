/**
 * Backup ids and archive names: <workload>__<timestamp>[.<kind>] and
 * <timestamp>[.<kind>].tar.gz, printed with, and read by, Go's time layout
 * 20060102T150405Z.
 */
module BackupIds {
  import opened Common

  // ---------------------------------------------------------------- timestamps

  /** A UTC time by its fields. */
  datatype Time = Time(year: nat, month: nat, day: nat, hour: nat, minute: nat, second: nat, nanos: nat)

  predicate IsLeap(year: nat) { year % 4 == 0 && (year % 100 != 0 || year % 400 == 0) }

  function DaysIn(month: nat, year: nat): nat {
    if month == 2 then (if IsLeap(year) then 29 else 28)
    else if month == 4 || month == 6 || month == 9 || month == 11 then 30
    else 31
  }

  predicate InRange(t: Time) {
    1 <= t.month <= 12 && 1 <= t.day <= DaysIn(t.month, t.year) && t.hour < 24 && t.minute < 60 && t.second < 60
  }

  /** A time the layout can print: its years have four digits. */
  predicate Valid(t: Time) { t.year < 10000 && InRange(t) && t.nanos < 1_000_000_000 }

  /** The leap days of the years up to and with n. */
  function LeapDays(n: nat): int { n / 4 - n / 100 + n / 400 }

  /** The months of the Gregorian calendar: long ones are odd up to July and even from August on. */
  lemma Months(month: nat, year: nat)
    requires 1 <= month <= 12 && month != 2
    ensures DaysIn(month, year) == 30 + (month + month / 8) % 2
  {}

  /** And a leap day is February's. */
  lemma February(year: nat)
    requires year > 0
    ensures DaysIn(2, year) == 28 + LeapDays(year) - LeapDays(year - 1)
  {
    FourthYear(year);
    HundredthYear(year);
    FourHundredthYear(year);
    Centuries(year);
  }

  lemma Centuries(n: nat)
    ensures n % 400 == 0 ==> n % 100 == 0
    ensures n % 100 == 0 ==> n % 4 == 0
  {
    if n % 100 == 0 {
      assert n == 4 * (25 * (n / 100));
      Fours(25 * (n / 100));
    }
    if n % 400 == 0 {
      assert n == 100 * (4 * (n / 400));
      Hundreds(4 * (n / 400));
    }
  }

  lemma Fours(k: nat)
    ensures (4 * k) % 4 == 0
  {}

  lemma Hundreds(k: nat)
    ensures (100 * k) % 100 == 0
  {}

  lemma FourthYear(n: nat)
    requires n > 0
    ensures n / 4 - (n - 1) / 4 == if n % 4 == 0 then 1 else 0
  {}

  lemma HundredthYear(n: nat)
    requires n > 0
    ensures n / 100 - (n - 1) / 100 == if n % 100 == 0 then 1 else 0
  {}

  lemma FourHundredthYear(n: nat)
    requires n > 0
    ensures n / 400 - (n - 1) / 400 == if n % 400 == 0 then 1 else 0
  {}

  /** The times of years 0 to 9999, and no others. */
  lemma ValidIff(t: Time)
    ensures Valid(t) <==>
      && t.year <= 9999 && t.month - 1 in {0, 1, 2, 3, 4, 5, 6, 7, 8, 9, 10, 11} && t.day != 0 && t.day <= DaysIn(t.month, t.year)
      && t.hour <= 23 && t.minute <= 59 && t.second <= 59 && t.nanos <= 999_999_999
  {}

  /** By their fields, the greater unit first. */
  predicate Earlier(a: Time, b: Time) {
    a.year < b.year || (a.year == b.year &&
      (a.month < b.month || (a.month == b.month &&
        (a.day < b.day || (a.day == b.day &&
          (a.hour < b.hour || (a.hour == b.hour &&
            (a.minute < b.minute || (a.minute == b.minute &&
              (a.second < b.second || (a.second == b.second && a.nanos < b.nanos)))))))))))
  }

  /** The time to the second, as printed. */
  function ToSecond(t: Time): Time { t.(nanos := 0) }

  predicate IsDigit(c: char) { '0' <= c <= '9' }

  predicate AllDigits(s: string) { forall i :: 0 <= i < |s| ==> IsDigit(s[i]) }

  function Digit(n: nat): (c: char)
    requires n < 10
    ensures IsDigit(c) && c as int - '0' as int == n
  {
    ('0' as int + n) as char
  }

  /** n in w digits, zeros in front. */
  function Pad(n: nat, w: nat): (s: string)
    ensures |s| == w && AllDigits(s)
  {
    if w == 0 then "" else Pad(n / 10, w - 1) + [Digit(n % 10)]
  }

  function Number(s: string): nat
    requires AllDigits(s)
  {
    if s == "" then 0 else Number(s[..|s| - 1]) * 10 + (s[|s| - 1] as int - '0' as int)
  }

  function Pow10(w: nat): nat { if w == 0 then 1 else 10 * Pow10(w - 1) }

  lemma {:induction false} NumberOfPad(n: nat, w: nat)
    requires n < Pow10(w)
    ensures Number(Pad(n, w)) == n
  {
    if w > 0 {
      NumberOfPad(n / 10, w - 1);
      assert Pad(n, w)[..w - 1] == Pad(n / 10, w - 1);
    }
  }

  lemma {:induction false} PadOfNumber(s: string)
    requires AllDigits(s)
    ensures Pad(Number(s), |s|) == s && Number(s) < Pow10(|s|)
  {
    if s != "" {
      PadOfNumber(s[..|s| - 1]);
      assert s == s[..|s| - 1] + [s[|s| - 1]];
    }
  }

  function Format(t: Time): string {
    Pad(t.year, 4) + Pad(t.month, 2) + Pad(t.day, 2) + "T" + Pad(t.hour, 2) + Pad(t.minute, 2) + Pad(t.second, 2) + "Z"
  }

  /** How many digits s begins with. */
  function DigitRun(s: string): (n: nat)
    ensures n <= |s| && AllDigits(s[..n]) && (n < |s| ==> !IsDigit(s[n]))
  {
    if s == "" || !IsDigit(s[0]) then 0 else 1 + DigitRun(s[1..])
  }

  /** Decimals of a second, as nanoseconds: those past the ninth are dropped. */
  function Nanos(digits: string): nat
    requires AllDigits(digits)
  {
    if |digits| >= 9 then Number(digits[..9]) else Number(digits) * Pow10(9 - |digits|)
  }

  /** After the seconds, Go's parser takes a decimal fraction the layout does not mention. */
  function Fraction(s: string): (nat, string) {
    if |s| >= 2 && (s[0] == '.' || s[0] == ',') && IsDigit(s[1]) then
      var n := DigitRun(s[1..]);
      (Nanos(s[1..][..n]), s[1..][n..])
    else (0, s)
  }

  /** The digits stand where the layout has them. */
  predicate Shaped(s: string) {
    |s| >= 15 && s[8] == 'T'
    && AllDigits(s[..4]) && AllDigits(s[4..6]) && AllDigits(s[6..8])
    && AllDigits(s[9..11]) && AllDigits(s[11..13]) && AllDigits(s[13..15])
  }

  function Fields(s: string): Time
    requires Shaped(s)
  {
    Time(Number(s[..4]), Number(s[4..6]), Number(s[6..8]),
         Number(s[9..11]), Number(s[11..13]), Number(s[13..15]), Fraction(s[15..]).0)
  }

  function Parse(s: string): Option<Time> {
    if Shaped(s) && InRange(Fields(s)) && Fraction(s[15..]).1 == "Z" then Some(Fields(s)) else None
  }

  lemma SevenParts(a: string, b: string, c: string, d: string, e: string, f: string)
    requires |a| == 4 && |b| == |c| == |d| == |e| == |f| == 2
    ensures var s := a + b + c + "T" + d + e + f + "Z";
      && |s| == 16 && s[8] == 'T' && s[15..] == "Z"
      && s[..4] == a && s[4..6] == b && s[6..8] == c && s[9..11] == d && s[11..13] == e && s[13..15] == f
  {}

  lemma FormatShape(t: Time)
    ensures var s := Format(t);
      && |s| == 16 && Shaped(s) && s[15..] == "Z"
      && s[..4] == Pad(t.year, 4) && s[4..6] == Pad(t.month, 2) && s[6..8] == Pad(t.day, 2)
      && s[9..11] == Pad(t.hour, 2) && s[11..13] == Pad(t.minute, 2) && s[13..15] == Pad(t.second, 2)
  {
    SevenParts(Pad(t.year, 4), Pad(t.month, 2), Pad(t.day, 2), Pad(t.hour, 2), Pad(t.minute, 2), Pad(t.second, 2));
  }

  lemma SmallNumbers(n: nat)
    ensures n < 10000 ==> Number(Pad(n, 4)) == n
    ensures n < 100 ==> Number(Pad(n, 2)) == n
  {
    assert Pow10(4) == 10000 && Pow10(2) == 100;
    if n < 10000 { NumberOfPad(n, 4); }
    if n < 100 { NumberOfPad(n, 2); }
  }

  /** Every printable time reads back to the second. */
  lemma ParseUndoesFormat(t: Time)
    requires Valid(t)
    ensures Parse(Format(t)) == Some(ToSecond(t))
  {
    FormatShape(t);
    SmallNumbers(t.year);
    SmallNumbers(t.month);
    SmallNumbers(t.day);
    SmallNumbers(t.hour);
    SmallNumbers(t.minute);
    SmallNumbers(t.second);
  }

  lemma FieldPrintsBack(s: string, a: nat, b: nat)
    requires a <= b <= |s| && AllDigits(s[a..b])
    ensures Pad(Number(s[a..b]), b - a) == s[a..b]
  {
    PadOfNumber(s[a..b]);
  }

  lemma Glue(s: string, a: nat, b: nat)
    requires a <= b <= |s|
    ensures s[..a] + s[a..b] == s[..b]
  {}

  lemma Pieces(s: string)
    requires |s| >= 15
    ensures s[..15] == s[..4] + s[4..6] + s[6..8] + s[8..9] + s[9..11] + s[11..13] + s[13..15]
  {
    Glue(s, 4, 6);
    Glue(s, 6, 8);
    Glue(s, 8, 9);
    Glue(s, 9, 11);
    Glue(s, 11, 13);
    Glue(s, 13, 15);
  }

  lemma FieldsPrintBack(s: string)
    requires Shaped(s)
    ensures Format(Fields(s)) == s[..15] + "Z"
  {
    FieldPrintsBack(s, 0, 4);
    FieldPrintsBack(s, 4, 6);
    FieldPrintsBack(s, 6, 8);
    FieldPrintsBack(s, 9, 11);
    FieldPrintsBack(s, 11, 13);
    FieldPrintsBack(s, 13, 15);
    assert s[0..4] == s[..4] && s[8..9] == "T";
    Pieces(s);
  }

  /** A fraction after the seconds is read too, whichever mark begins it; of its digits nine count. */
  lemma FractionsAreRead(t: Time, mark: char, digits: string)
    requires Valid(t) && (mark == '.' || mark == ',') && digits != "" && AllDigits(digits)
    ensures var rest := if |digits| <= 9 then digits else digits[..9];
      exists n: nat :: Parse(Format(t)[..15] + [mark] + digits + "Z") == Some(t.(nanos := n))
                       && n * Pow10(|rest|) == Number(rest) * 1_000_000_000
  {
    FormatShape(t);
    ParseUndoesFormat(t);
    NanosScale(digits);
    FractionOf(Format(t), ToSecond(t), mark, digits);
    assert Parse(Format(t)[..15] + [mark] + digits + "Z") == Some(t.(nanos := Nanos(digits)));
  }

  lemma FractionOf(a: string, t: Time, mark: char, digits: string)
    requires Parse(a) == Some(t) && (mark == '.' || mark == ',') && digits != "" && AllDigits(digits)
    ensures Parse(a[..15] + [mark] + digits + "Z") == Some(t.(nanos := Nanos(digits)))
  {
    var s := a[..15] + [mark] + digits + "Z";
    assert s[..15] == a[..15] && s[15..] == [mark] + digits + "Z";
    SamePositions(a, s);
    FractionIs(mark, digits);
    ParseIs(s, t.(nanos := Nanos(digits)));
  }

  lemma ParseIs(s: string, t: Time)
    requires Shaped(s) && Fields(s) == t && InRange(t) && Fraction(s[15..]).1 == "Z"
    ensures Parse(s) == Some(t)
  {}

  lemma FractionIs(mark: char, digits: string)
    requires (mark == '.' || mark == ',') && digits != "" && AllDigits(digits)
    ensures Fraction([mark] + digits + "Z") == (Nanos(digits), "Z")
  {
    var s := [mark] + digits + "Z";
    assert s[1..] == digits + "Z";
    RunsTo(digits, "Z");
    assert (digits + "Z")[..|digits|] == digits && (digits + "Z")[|digits|..] == "Z";
  }

  lemma SamePositions(a: string, b: string)
    requires Shaped(a) && |b| >= 15 && a[..15] == b[..15]
    ensures Shaped(b) && Fields(b) == Fields(a).(nanos := Fraction(b[15..]).0)
  {
    SamePart(a, b, 0, 4);
    SamePart(a, b, 4, 6);
    SamePart(a, b, 6, 8);
    SamePart(a, b, 8, 9);
    SamePart(a, b, 9, 11);
    SamePart(a, b, 11, 13);
    SamePart(a, b, 13, 15);
    assert b[8] == b[8..9][0] == a[8];
  }

  lemma SamePart(a: string, b: string, i: nat, j: nat)
    requires i <= j <= 15 <= |a| && 15 <= |b| && a[..15] == b[..15]
    ensures a[i..j] == b[i..j]
  {
    forall k | i <= k < j ensures a[k] == b[k] { assert a[..15][k] == b[..15][k]; }
  }

  lemma {:induction false} RunsTo(digits: string, rest: string)
    requires AllDigits(digits) && (rest != "" ==> !IsDigit(rest[0]))
    ensures DigitRun(digits + rest) == |digits|
  {
    if digits == "" {
      assert digits + rest == rest;
    } else {
      assert (digits + rest)[1..] == digits[1..] + rest;
      RunsTo(digits[1..], rest);
    }
  }

  lemma NanosScale(digits: string)
    requires AllDigits(digits)
    ensures var rest := if |digits| <= 9 then digits else digits[..9];
      Nanos(digits) * Pow10(|rest|) == Number(rest) * 1_000_000_000
  {
    assert Pow10(9) == 1_000_000_000;
    if |digits| >= 9 {
      assert |digits| == 9 ==> digits[..9] == digits;
    } else {
      Pow10Adds(9 - |digits|, |digits|);
      Regroup(Number(digits), Pow10(9 - |digits|), Pow10(|digits|));
    }
  }

  lemma Regroup(a: nat, b: nat, c: nat)
    ensures (a * b) * c == a * (b * c)
  {}

  /** What was read prints back as it was, unless a fraction followed its seconds. */
  lemma FormatUndoesParse(s: string)
    requires Parse(s).Some?
    ensures |s| > 15
    ensures Format(Parse(s).value) == s <==> s[15] == 'Z'
  {
    FieldsPrintBack(s);
    assert s == s[..15] + s[15..];
    assert |s[15..]| > 0;
    if s[15] == 'Z' {
      assert s[15..] == "Z";
    } else {
      assert (s[..15] + "Z")[15] == 'Z';
    }
  }

  // ----------------------------------------------------------------------- ids

  const DIR := ""
  const DUMP := "dump"

  /** strings.LastIndex(s, "__"). */
  function LastDouble(s: string): (i: int)
    ensures -1 <= i && (i >= 0 ==> i + 2 <= |s| && s[i] == '_' && s[i + 1] == '_')
  {
    if |s| < 2 then -1
    else if s[|s| - 2] == '_' && s[|s| - 1] == '_' then |s| - 2
    else LastDouble(s[..|s| - 1])
  }

  /** strings.IndexByte(s, '.'). */
  function FirstDot(s: string): (i: int)
    ensures -1 <= i < |s| && (i >= 0 ==> s[i] == '.')
  {
    if s == "" then -1 else if s[0] == '.' then 0 else var i := FirstDot(s[1..]); if i < 0 then -1 else i + 1
  }

  datatype Archive = Archive(time: Time, kind: string)

  function KindSuffix(kind: string): string { if kind == DIR then "" else "." + kind }

  /** <timestamp>[.<kind>], the end both names share. */
  function Stamp(t: Time, kind: string): string { Format(t) + KindSuffix(kind) }

  function ParseStamp(rest: string): Option<Archive> {
    var j := FirstDot(rest);
    var (stamp, kind) := if j >= 0 then (rest[..j], rest[j + 1..]) else (rest, DIR);
    if j >= 0 && kind != DUMP then None
    else if Parse(stamp).None? then None
    else Some(Archive(Parse(stamp).value, kind))
  }

  function BackupId(workload: string, t: Time, kind: string): string {
    workload + "__" + Stamp(t, kind)
  }

  function ParseId(id: string): Option<(string, Archive)> {
    var i := LastDouble(id);
    if i < 0 || ParseStamp(id[i + 2..]).None? then None else Some((id[..i], ParseStamp(id[i + 2..]).value))
  }

  const SUFFIX := ".tar.gz"

  function FileName(t: Time, kind: string): string { Stamp(t, kind) + SUFFIX }

  predicate HasSuffix(s: string, suffix: string) { |s| >= |suffix| && s[|s| - |suffix|..] == suffix }

  function ParseFileName(name: string): Option<Archive> {
    if HasSuffix(name, SUFFIX) then ParseStamp(name[..|name| - |SUFFIX|]) else None
  }

  /** The workload's directory and the file in it that an id stands for. */
  function PathOf(id: string): Option<(string, string)> {
    var p := ParseId(id);
    if p.None? then None else Some((p.value.0, FileName(p.value.1.time, p.value.1.kind)))
  }

  lemma {:induction false} FirstDotAt(a: string, b: string)
    requires '.' !in a
    ensures FirstDot(a) == -1 && FirstDot(a + "." + b) == |a|
  {
    if a != "" {
      FirstDotAt(a[1..], b);
      assert (a + "." + b)[1..] == a[1..] + "." + b;
    }
  }

  lemma {:induction false} LastDoubleAt(workload: string, rest: string)
    requires '_' !in rest
    ensures LastDouble(workload + "__" + rest) == |workload|
  {
    var s := workload + "__" + rest;
    if rest != "" {
      LastDoubleAt(workload, rest[..|rest| - 1]);
      assert s[..|s| - 1] == workload + "__" + rest[..|rest| - 1];
      assert s[|s| - 1] == rest[|rest| - 1];
    }
  }

  lemma FormatHasNeither(t: Time)
    ensures '.' !in Format(t) && '_' !in Format(t)
  {
    FormatShape(t);
    Spelled(Format(t));
  }

  lemma Spelled(s: string)
    requires Shaped(s) && s[15..] == "Z"
    ensures forall c :: c in s ==> IsDigit(c) || c == 'T' || c == 'Z'
  {
    assert s == s[..4] + s[4..6] + s[6..8] + s[8..9] + s[9..11] + s[11..13] + s[13..15] + s[15..];
  }

  lemma StampReadsBack(t: Time, kind: string)
    requires Valid(t) && (kind == DIR || kind == DUMP)
    ensures ParseStamp(Stamp(t, kind)) == Some(Archive(ToSecond(t), kind))
    ensures '_' !in Stamp(t, kind)
  {
    FormatHasNeither(t);
    FirstDotAt(Format(t), kind);
    ParseUndoesFormat(t);
    assert Format(t) + "" == Format(t);
    assert Format(t) + "." + kind == Format(t) + ("." + kind);
  }

  /** parseID undoes backupID for every workload id, whatever characters it holds. */
  lemma IdReadsBack(workload: string, t: Time, kind: string)
    requires Valid(t) && (kind == DIR || kind == DUMP)
    ensures ParseId(BackupId(workload, t, kind)) == Some((workload, Archive(ToSecond(t), kind)))
  {
    StampReadsBack(t, kind);
    IdSplits(workload, Stamp(t, kind));
  }

  lemma IdSplits(workload: string, rest: string)
    requires '_' !in rest
    ensures var id := workload + "__" + rest;
      LastDouble(id) == |workload| && id[..|workload|] == workload && id[|workload| + 2..] == rest
  {
    LastDoubleAt(workload, rest);
  }

  /** parseFileName undoes fileName. */
  lemma FileNameReadsBack(t: Time, kind: string)
    requires Valid(t) && (kind == DIR || kind == DUMP)
    ensures ParseFileName(FileName(t, kind)) == Some(Archive(ToSecond(t), kind))
  {
    StampReadsBack(t, kind);
    var base := Stamp(t, kind);
    assert (base + SUFFIX)[..|base|] == base && (base + SUFFIX)[|base|..] == SUFFIX;
  }

  /** Two backups of one workload have the same id only when they are of one kind and one second. */
  lemma IdsAreDistinct(v: string, w: string, t: Time, u: Time, kind: string, kind': string)
    requires Valid(t) && Valid(u) && (kind == DIR || kind == DUMP) && (kind' == DIR || kind' == DUMP)
    ensures BackupId(v, t, kind) == BackupId(w, u, kind') <==> v == w && ToSecond(t) == ToSecond(u) && kind == kind'
  {
    IdReadsBack(v, t, kind);
    IdReadsBack(w, u, kind');
  }

  // ------------------------------------------------------------------- listing

  /** A file's entry in the list: its id is printed from what was read of its name. */
  function ListedId(workload: string, name: string): Option<string> {
    var a := ParseFileName(name);
    if a.None? then None else Some(BackupId(workload, a.value.time, a.value.kind))
  }

  lemma {:induction false} NanosFit(digits: string)
    requires AllDigits(digits)
    ensures Nanos(digits) < 1_000_000_000
  {
    assert Pow10(9) == 1_000_000_000;
    if |digits| >= 9 {
      PadOfNumber(digits[..9]);
    } else {
      PadOfNumber(digits);
      Pow10Adds(|digits|, 9 - |digits|);
      Scaled(Number(digits), Pow10(|digits|), Pow10(9 - |digits|));
    }
  }

  lemma Scaled(n: nat, m: nat, k: nat)
    requires n < m && k > 0
    ensures n * k < m * k
  {}

  lemma {:induction false} Pow10Adds(a: nat, b: nat)
    ensures Pow10(a) * Pow10(b) == Pow10(a + b) && Pow10(b) > 0
  {
    if a > 0 { Pow10Adds(a - 1, b); } else if b > 0 { Pow10Adds(a, b - 1); }
  }

  lemma ParsedIsValid(s: string)
    requires Parse(s).Some?
    ensures Valid(Parse(s).value)
  {
    PadOfNumber(s[..4]);
    assert Pow10(4) == 10000;
    var f := s[15..];
    if |f| >= 2 && (f[0] == '.' || f[0] == ',') && IsDigit(f[1]) { NanosFit(f[1..][..DigitRun(f[1..])]); }
  }

  lemma DotSplits(s: string, j: nat)
    requires j < |s| && s[j] == '.'
    ensures s == s[..j] + ("." + s[j + 1..])
  {}

  /** The parts ParseStamp cuts a stamp into. */
  lemma StampParts(stamp: string) returns (time: string)
    requires ParseStamp(stamp).Some?
    ensures var a := ParseStamp(stamp).value;
      && (a.kind == DIR || a.kind == DUMP)
      && stamp == time + KindSuffix(a.kind) && Parse(time) == Some(a.time)
  {
    var j := FirstDot(stamp);
    if j >= 0 {
      time := stamp[..j];
      DotSplits(stamp, j);
    } else {
      time := stamp;
    }
  }

  /** The stamp of an archive name, read and printed again. */
  lemma StampPrintsBack(stamp: string)
    requires ParseStamp(stamp).Some?
    ensures var a := ParseStamp(stamp).value;
      && Valid(a.time) && (a.kind == DIR || a.kind == DUMP) && |stamp| > 15
      && (Stamp(a.time, a.kind) == stamp <==> stamp[15] == 'Z')
  {
    var a := ParseStamp(stamp).value;
    var time := StampParts(stamp);
    ParsedIsValid(time);
    FormatUndoesParse(time);
    FormatShape(a.time);
    SamePrefix(Format(a.time), time, KindSuffix(a.kind));
  }

  lemma SamePrefix(a: string, b: string, suffix: string)
    ensures a + suffix == b + suffix <==> a == b
    ensures |b| > 15 ==> (b + suffix)[15] == b[15]
  {
    if a + suffix == b + suffix {
      assert (a + suffix)[..|a|] == a && (b + suffix)[..|b|] == b;
    }
  }

  /**
   * path maps a listed id back to the very file it was listed from, if and only
   * if no fraction of a second follows the seconds in the file's name. Names
   * the store itself writes have none.
   */
  lemma PathIsTheFile(workload: string, name: string)
    requires ListedId(workload, name).Some?
    ensures |name| > 15
    ensures PathOf(ListedId(workload, name).value) == Some((workload, name)) <==> name[15] == 'Z'
  {
    var stamp := name[..|name| - |SUFFIX|];
    var a := ParseStamp(stamp).value;
    assert name == stamp + SUFFIX;
    StampPrintsBack(stamp);
    IdReadsBack(workload, a.time, a.kind);
    SameStamp(a.time, a.kind, stamp);
  }

  lemma SameStamp(t: Time, kind: string, stamp: string)
    ensures FileName(ToSecond(t), kind) == stamp + SUFFIX <==> Stamp(t, kind) == stamp
  {
    var f := FileName(ToSecond(t), kind);
    assert f[..|f| - |SUFFIX|] == Stamp(t, kind);
    assert (stamp + SUFFIX)[..|stamp|] == stamp;
  }
}
