/** The CSV bar source: timestamp parsing by string length, the K-line type to
    file name mapping, row-to-dictionary conversion and the filtered row stream
    of `CSV_API.get_kl_data`. */
module CsvApi {
  import opened Wrappers
  import Seqs

  /** A K-line time at minute resolution; compared lexicographically. */
  datatype CTime = CTime(year: int, month: int, day: int, hour: int, minute: int)

  /** Strict lexicographic order on (year, month, day, hour, minute). */
  predicate Before(a: CTime, b: CTime) {
    if a.year != b.year then a.year < b.year
    else if a.month != b.month then a.month < b.month
    else if a.day != b.day then a.day < b.day
    else if a.hour != b.hour then a.hour < b.hour
    else a.minute < b.minute
  }

  lemma BeforeIsStrictTotalOrder(a: CTime, b: CTime, c: CTime)
    ensures !Before(a, a)
    ensures Before(a, b) ==> !Before(b, a)
    ensures Before(a, b) && Before(b, c) ==> Before(a, c)
    ensures a != b ==> Before(a, b) || Before(b, a)
  {
  }

  datatype Error =
    | UnknownTimeFormat(text: string, length: nat)  // parse_time_column: no format of that length
    | NotAnInteger(text: string)                    // int() of a slice raised ValueError
    | FileNotFound(path: string)                    // SRC_DATA_NOT_FOUND
    | FileFormat(path: string)                      // SRC_DATA_FORMAT_ERROR
    | IncomparableBound(bound: string)              // a CTime compared with a bound kept as text

  // ---------------------------------------------------------------------------
  // int() on a slice

  /** The ASCII characters `int()` strips around its argument: space, tab,
      the line and page breaks, and the four separators 0x1C to 0x1F. */
  predicate IsSpace(c: char) {
    c == ' ' || c == '\t' || c == '\n' || c == '\r' || c == '\U{000B}' || c == '\U{000C}' ||
    '\U{001C}' <= c <= '\U{001F}'
  }

  predicate IsDigit(c: char) {
    '0' <= c <= '9'
  }

  predicate AllDigits(s: string) {
    forall i :: 0 <= i < |s| ==> IsDigit(s[i])
  }

  function StripLeft(s: string): (r: string)
    ensures |r| <= |s| && r == s[|s| - |r|..]
    ensures r != [] ==> !IsSpace(r[0])
    ensures (forall i :: 0 <= i < |s| ==> !IsSpace(s[i])) ==> r == s
  {
    if s != [] && IsSpace(s[0]) then StripLeft(s[1..]) else s
  }

  function StripRight(s: string): (r: string)
    ensures |r| <= |s| && r == s[..|r|]
    ensures r != [] ==> !IsSpace(r[|r| - 1])
    ensures (forall i :: 0 <= i < |s| ==> !IsSpace(s[i])) ==> r == s
  {
    if s != [] && IsSpace(s[|s| - 1]) then StripRight(s[..|s| - 1]) else s
  }

  /** The value of a string of decimal digits, most significant first. */
  function DigitsValue(s: string): (n: nat)
    requires AllDigits(s)
  {
    if s == [] then 0 else DigitsValue(s[..|s| - 1]) * 10 + (s[|s| - 1] as int - '0' as int)
  }

  /** Python's `int(text)` for the texts a timestamp slice can hold: optional
      surrounding whitespace, an optional sign, then at least one ASCII digit. */
  function ParseInt(text: string): (r: Result<int, Error>)
    ensures r.Failure? ==> r.error == NotAnInteger(text)
  {
    var t := StripRight(StripLeft(text));
    var negative := t != [] && t[0] == '-';
    var body := if t != [] && (t[0] == '-' || t[0] == '+') then t[1..] else t;
    if body != [] && AllDigits(body) then
      var magnitude: int := DigitsValue(body);
      Success(if negative then -magnitude else magnitude)
    else
      Failure(NotAnInteger(text))
  }

  // ---------------------------------------------------------------------------
  // parse_time_column

  /** The four lengths `parse_time_column` recognises. */
  predicate KnownTimeLength(n: nat) {
    n == 10 || n == 16 || n == 17 || n == 19
  }

  /** The date fields read by `int()`, in the order the source reads them; 00:00. */
  function ReadDate(year: string, month: string, day: string): (r: Result<CTime, Error>)
    ensures r.Failure? ==> r.error.NotAnInteger?
    ensures r.Success? ==> r.value.hour == 0 && r.value.minute == 0
  {
    var y :- ParseInt(year);
    var mo :- ParseInt(month);
    var d :- ParseInt(day);
    Success(CTime(y, mo, d, 0, 0))
  }

  /** All five fields read by `int()`, in the order the source reads them. */
  function ReadDateTime(year: string, month: string, day: string, hour: string, minute: string): (r: Result<CTime, Error>)
    ensures r.Failure? ==> r.error.NotAnInteger?
  {
    var y :- ParseInt(year);
    var mo :- ParseInt(month);
    var d :- ParseInt(day);
    var h :- ParseInt(hour);
    var mi :- ParseInt(minute);
    Success(CTime(y, mo, d, h, mi))
  }

  /** Chooses the format purely by length and reads the fields at fixed offsets;
      the calendar ranges of the fields are not checked. */
  function ParseTimeColumn(inp: string): (r: Result<CTime, Error>)
    ensures r.Failure? && r.error.UnknownTimeFormat? <==> !KnownTimeLength(|inp|)
    ensures !KnownTimeLength(|inp|) ==> r == Failure(UnknownTimeFormat(inp, |inp|))
    ensures r.Success? && |inp| == 10 ==> r.value.hour == 0 && r.value.minute == 0
  {
    if |inp| == 10 then
      ReadDate(inp[..4], inp[5..7], inp[8..10])
    else if |inp| == 16 || |inp| == 19 then
      ReadDateTime(inp[..4], inp[5..7], inp[8..10], inp[11..13], inp[14..16])
    else if |inp| == 17 then
      ReadDateTime(inp[..4], inp[4..6], inp[6..8], inp[8..10], inp[10..12])
    else
      Failure(UnknownTimeFormat(inp, |inp|))
  }

  // ---------------------------------------------------------------------------
  // The textual forms the parser accepts, written out from a CTime

  function Pow10(w: nat): (p: nat)
    ensures p >= 1
  {
    if w == 0 then 1 else 10 * Pow10(w - 1)
  }

  /** The character of the last decimal digit of `d`. */
  function DigitChar(d: nat): (c: char)
    ensures IsDigit(c) && c as int - '0' as int == d % 10
  {
    ('0' as int + d % 10) as char
  }

  /** `n` written with exactly `w` decimal digits, zero-padded on the left. */
  function Pad(n: nat, w: nat): (s: string)
    ensures |s| == w && AllDigits(s)
  {
    if w == 0 then [] else Pad(n / 10, w - 1) + [DigitChar(n)]
  }

  /** Appending a digit shifts the value one decimal place and adds the digit. */
  lemma DigitsSnoc(s: string, c: char)
    requires AllDigits(s) && IsDigit(c)
    ensures AllDigits(s + [c])
    ensures DigitsValue(s + [c]) == DigitsValue(s) * 10 + (c as int - '0' as int)
  {
    Seqs.InitOfSnoc(s, c);
  }

  /** Dropping the last decimal digit of a `w`-digit number leaves a
      `w - 1`-digit one. */
  lemma SplitLastDigit(n: nat, w: nat)
    requires 0 < w && n < Pow10(w)
    ensures n / 10 < Pow10(w - 1) && n == n / 10 * 10 + n % 10
  {
  }

  lemma {:induction false} PadValue(n: nat, w: nat)
    requires n < Pow10(w)
    ensures DigitsValue(Pad(n, w)) == n
  {
    if w > 0 {
      var q := n / 10;
      SplitLastDigit(n, w);
      PadValue(q, w - 1);
      var init, digit := Pad(q, w - 1), DigitChar(n);
      assert Pad(n, w) == init + [digit];
      DigitsSnoc(init, digit);
    }
  }

  /** A non-empty run of digits reads as its decimal value. */
  lemma ParseDigits(s: string)
    requires s != [] && AllDigits(s)
    ensures ParseInt(s) == Success(DigitsValue(s))
  {
    assert forall i :: 0 <= i < |s| ==> !IsSpace(s[i]) by {
      forall i | 0 <= i < |s| ensures !IsSpace(s[i]) {
        assert IsDigit(s[i]);
      }
    }
    var left := StripLeft(s);
    assert left == s;
    assert StripRight(left) == s;
    assert s[0] != '-' && s[0] != '+' by {
      assert IsDigit(s[0]);
    }
  }

  lemma ParsePad(n: nat, w: nat)
    requires 0 < w && n < Pow10(w)
    ensures ParseInt(Pad(n, w)) == Success(n)
  {
    PadValue(n, w);
    ParseDigits(Pad(n, w));
  }

  /** Every field of `t` fits the width its textual forms give it. */
  predicate FieldsFit(t: CTime) {
    0 <= t.year < 10000 && 0 <= t.month < 100 && 0 <= t.day < 100 &&
    0 <= t.hour < 100 && 0 <= t.minute < 100
  }

  /** `YYYY-MM-DD`, the 10-character form. */
  function DateText(t: CTime): (s: string)
    requires FieldsFit(t)
    ensures |s| == 10
  {
    Pad(t.year, 4) + "-" + Pad(t.month, 2) + "-" + Pad(t.day, 2)
  }

  /** `YYYY-MM-DD HH:MM`, the 16-character form. */
  function MinuteText(t: CTime): (s: string)
    requires FieldsFit(t)
    ensures |s| == 16
  {
    DateText(t) + " " + Pad(t.hour, 2) + ":" + Pad(t.minute, 2)
  }

  /** `YYYYMMDDHHMM`, the first 12 characters of the 17-character compact form. */
  function CompactPrefix(t: CTime): (s: string)
    requires FieldsFit(t)
    ensures |s| == 12
  {
    Pad(t.year, 4) + Pad(t.month, 2) + Pad(t.day, 2) + Pad(t.hour, 2) + Pad(t.minute, 2)
  }

  /** A 10-character date reads back as that date at 00:00. */
  lemma DateTextRoundTrip(t: CTime)
    requires FieldsFit(t)
    ensures ParseTimeColumn(DateText(t)) == Success(CTime(t.year, t.month, t.day, 0, 0))
  {
    var s := DateText(t);
    assert s[..4] == Pad(t.year, 4) && s[5..7] == Pad(t.month, 2) && s[8..10] == Pad(t.day, 2);
    ParsePad(t.year, 4);
    ParsePad(t.month, 2);
    ParsePad(t.day, 2);
  }

  /** A 16-character date and time reads back as the same time. */
  lemma MinuteTextRoundTrip(t: CTime)
    requires FieldsFit(t)
    ensures ParseTimeColumn(MinuteText(t)) == Success(t)
  {
    var s := MinuteText(t);
    assert s[..4] == Pad(t.year, 4) && s[5..7] == Pad(t.month, 2) && s[8..10] == Pad(t.day, 2);
    assert s[11..13] == Pad(t.hour, 2) && s[14..16] == Pad(t.minute, 2);
    ParsePad(t.year, 4);
    ParsePad(t.month, 2);
    ParsePad(t.day, 2);
    ParsePad(t.hour, 2);
    ParsePad(t.minute, 2);
  }

  /** The 19-character form uses the offsets of the 16-character one: its last
      three characters (the seconds) never change the result. */
  lemma SecondsIgnored(s: string, seconds: string)
    requires |s| == 16 && |seconds| == 3
    ensures ParseTimeColumn(s + seconds) == ParseTimeColumn(s)
  {
    var u := s + seconds;
    assert u[..4] == s[..4] && u[5..7] == s[5..7] && u[8..10] == s[8..10];
    assert u[11..13] == s[11..13] && u[14..16] == s[14..16];
  }

  lemma ReadPadded(t: CTime)
    requires FieldsFit(t)
    ensures ReadDateTime(Pad(t.year, 4), Pad(t.month, 2), Pad(t.day, 2), Pad(t.hour, 2), Pad(t.minute, 2)) == Success(t)
  {
    ParsePad(t.year, 4);
    ParsePad(t.month, 2);
    ParsePad(t.day, 2);
    ParsePad(t.hour, 2);
    ParsePad(t.minute, 2);
  }

  /** The 17-character compact form reads its first twelve characters; the
      seconds and fraction that follow are ignored. */
  lemma CompactRoundTrip(t: CTime, rest: string)
    requires FieldsFit(t) && |rest| == 5
    ensures ParseTimeColumn(CompactPrefix(t) + rest) == Success(t)
  {
    var p := CompactPrefix(t);
    var s := p + rest;
    assert s[..12] == p;
    assert p[..4] == Pad(t.year, 4);
    assert p[4..6] == Pad(t.month, 2);
    assert p[6..8] == Pad(t.day, 2);
    assert p[8..10] == Pad(t.hour, 2);
    assert p[10..12] == Pad(t.minute, 2);
    assert s[..4] == p[..4] && s[4..6] == p[4..6] && s[6..8] == p[6..8];
    assert s[8..10] == p[8..10] && s[10..12] == p[10..12];
    ReadPadded(t);
  }

  lemma PadTwo(n: nat)
    ensures Pad(n, 2) == [DigitChar(n / 10), DigitChar(n)]
  {
    assert Pad(n, 2) == Pad(n / 10, 1) + [DigitChar(n)];
    assert Pad(n / 10, 1) == [DigitChar(n / 10)];
  }

  lemma PadFour(n: nat)
    ensures Pad(n, 4) == [DigitChar(n / 1000), DigitChar(n / 100), DigitChar(n / 10), DigitChar(n)]
  {
    assert Pad(n, 4) == Pad(n / 10, 3) + [DigitChar(n)];
    assert Pad(n / 10, 3) == Pad(n / 10 / 10, 2) + [DigitChar(n / 10)];
    PadTwo(n / 10 / 10);
    assert n / 10 / 10 == n / 100 && n / 100 / 10 == n / 1000;
  }

  /** Worked case: no calendar check, so month 13 passes through. */
  lemma ParseMonth13Example()
    ensures ParseTimeColumn("2024-13-02") == Success(CTime(2024, 13, 2, 0, 0))
  {
    var t := CTime(2024, 13, 2, 0, 0);
    PadFour(2024);
    PadTwo(13);
    PadTwo(2);
    assert DigitChar(0) == '0' && DigitChar(1) == '1' && DigitChar(2) == '2' && DigitChar(3) == '3';
    assert DateText(t) == "2024-13-02";
    DateTextRoundTrip(t);
  }

  /** Worked case: an 8-character compact date is none of the known forms and
      is refused with its text and length. */
  lemma ParseShortCompactExample()
    ensures ParseTimeColumn("20240102") == Failure(UnknownTimeFormat("20240102", 8))
  {
  }

  // ---------------------------------------------------------------------------
  // K-line type name to file name

  function LowerChar(c: char): (r: char)
    ensures !('A' <= r <= 'Z')
  {
    if 'A' <= c <= 'Z' then (c as int + 32) as char else c
  }

  /** No ASCII upper-case letter occurs in `s`. */
  predicate NoUpper(s: string) {
    forall i :: 0 <= i < |s| ==> !('A' <= s[i] <= 'Z')
  }

  /** ASCII lower-casing. */
  function Lower(s: string): (r: string)
    ensures |r| == |s| && forall i :: 0 <= i < |s| ==> r[i] == LowerChar(s[i])
    ensures NoUpper(r)
  {
    if s == [] then [] else [LowerChar(s[0])] + Lower(s[1..])
  }

  /** At most one leading `_` removed. */
  function DropUnderscore(s: string): (r: string)
    ensures |r| <= |s|
    ensures NoUpper(s) ==> NoUpper(r)
  {
    if s != [] && s[0] == '_' then s[1..] else s
  }

  /** The frequency token of a K-line type name: `K_DAY` is `day`, `K_<n>M` is
      `<n>m`, anything else is the lower-cased text after the first two
      characters with one leading `_` removed. The token is never longer than
      the name, and outside the minute form it holds no upper-case letter. */
  function FreqName(kTypeName: string): (freq: string)
    ensures |freq| <= |kTypeName|
    ensures !IsMinuteName(kTypeName) ==> NoUpper(freq)
  {
    if kTypeName == "K_DAY" then "day"
    else if IsMinuteName(kTypeName) then
      kTypeName[2..|kTypeName| - 1] + "m"
    else
      DropUnderscore(Lower(if |kTypeName| >= 2 then kTypeName[2..] else ""))
  }

  /** A name of the minute form `K_<n>M` other than `K_DAY`. */
  predicate IsMinuteName(kTypeName: string) {
    kTypeName != "K_DAY" && |kTypeName| >= 2 && kTypeName[..2] == "K_" && kTypeName[|kTypeName| - 1] == 'M'
  }

  /** The data file of a code at a level: `{code}_{freq}.csv`. The code, an
      underscore, the token and the `.csv` suffix can be read back from it. */
  function FileName(code: string, kTypeName: string): (path: string)
    ensures |path| == |code| + |FreqName(kTypeName)| + 5
    ensures path[..|code|] == code && path[|code|] == '_' && path[|path| - 4..] == ".csv"
    ensures path[|code| + 1..|path| - 4] == FreqName(kTypeName)
  {
    code + "_" + FreqName(kTypeName) + ".csv"
  }

  /** Every minute level `K_<n>M` maps to `<n>m`, whatever `<n>` is. */
  lemma FreqNameOfMinuteLevel(n: string)
    ensures FreqName("K_" + n + "M") == n + "m"
  {
    var name := "K_" + n + "M";
    assert name[..2] == "K_" && name[|name| - 1] == 'M';
    assert name[2..|name| - 1] == n;
  }

  /** The 5-minute file of AAPL. */
  lemma FileNameExample()
    ensures FileName("AAPL", "K_5M") == "AAPL_5m.csv"
  {
    FreqNameOfMinuteLevel("5");
  }

  /** Every name `K_<n>` that is neither `K_DAY` nor of the minute form maps to
      `<n>` lower-cased, with one leading `_` dropped. */
  lemma FreqNameOfOtherLevel(n: string)
    requires "K_" + n != "K_DAY"
    requires n == [] || n[|n| - 1] != 'M'
    ensures FreqName("K_" + n) == DropUnderscore(Lower(n))
  {
    var name := "K_" + n;
    assert name[..2] == "K_" && name[2..] == n;
    assert n != [] ==> name[|name| - 1] == n[|n| - 1];
  }

  lemma WeekFreqName()
    ensures FreqName("K_WEEK") == "week"
  {
    assert "K_WEEK"[2..] == "WEEK" && "K_WEEK"[5] != 'M';
    assert Lower("WEEK") == "week";
  }

  lemma MonthFreqName()
    ensures FreqName("K_MON") == "mon"
  {
    assert "K_MON"[2..] == "MON" && "K_MON"[4] != 'M';
    assert Lower("MON") == "mon";
  }

  /** The day level, and levels named otherwise, lower-cased after `K_`. */
  lemma OtherFreqNameExamples()
    ensures FreqName("K_DAY") == "day"
    ensures FreqName("K_WEEK") == "week" && FreqName("K_MON") == "mon"
  {
    WeekFreqName();
    MonthFreqName();
  }

  // ---------------------------------------------------------------------------
  // Splitting a line

  /** Python's `str.split(sep)` for a one-character separator. */
  function Split(s: string, sep: char): (r: seq<string>)
    ensures |r| >= 1
    ensures forall i, j :: 0 <= i < |r| && 0 <= j < |r[i]| ==> r[i][j] != sep
  {
    if s == [] then [""]
    else if s[0] == sep then [""] + Split(s[1..], sep)
    else
      var rest := Split(s[1..], sep);
      [[s[0]] + rest[0]] + rest[1..]
  }

  /** The pieces joined back with the separator between them. */
  function Join(pieces: seq<string>, sep: char): string
    requires |pieces| >= 1
  {
    if |pieces| == 1 then pieces[0] else pieces[0] + [sep] + Join(pieces[1..], sep)
  }

  function Occurrences(s: string, c: char): nat {
    if s == [] then 0 else (if s[0] == c then 1 else 0) + Occurrences(s[1..], c)
  }

  lemma JoinCons(head: string, rest: seq<string>, sep: char)
    requires |rest| >= 1
    ensures Join([head] + rest, sep) == head + [sep] + Join(rest, sep)
  {
    assert ([head] + rest)[1..] == rest;
  }

  /** Growing the first piece by one character grows the joined text by it. */
  lemma JoinExtendFirst(c: char, pieces: seq<string>, sep: char)
    requires |pieces| >= 1
    ensures Join([[c] + pieces[0]] + pieces[1..], sep) == [c] + Join(pieces, sep)
  {
    if |pieces| > 1 {
      JoinCons([c] + pieces[0], pieces[1..], sep);
      assert pieces == [pieces[0]] + pieces[1..];
      JoinCons(pieces[0], pieces[1..], sep);
    }
  }

  /** Splitting loses nothing: joining the pieces gives the line back, and there
      is one more piece than there are separators. */
  lemma {:induction false} SplitJoin(s: string, sep: char)
    ensures Join(Split(s, sep), sep) == s
    ensures |Split(s, sep)| == Occurrences(s, sep) + 1
  {
    if s != [] {
      var rest := Split(s[1..], sep);
      SplitJoin(s[1..], sep);
      if s[0] == sep {
        JoinCons("", rest, sep);
        assert [sep] + s[1..] == s;
      } else {
        JoinExtendFirst(s[0], rest, sep);
        assert [s[0]] + s[1..] == s;
      }
    }
  }

  /** `r` is the slice `s[i..j]` and everything outside it is `c`. */
  predicate CutFrom(s: string, c: char, r: string, i: int, j: int) {
    0 <= i <= j <= |s| && r == s[i..j] &&
    (forall k :: 0 <= k < i ==> s[k] == c) && (forall k :: j <= k < |s| ==> s[k] == c)
  }

  /** A cut of `s` without its leading `c` is a cut of `s`. */
  lemma CutFromTail(s: string, c: char, r: string)
    requires s != [] && s[0] == c
    requires exists i, j :: CutFrom(s[1..], c, r, i, j)
    ensures exists i, j :: CutFrom(s, c, r, i, j)
  {
    var i, j :| CutFrom(s[1..], c, r, i, j);
    assert s[1..][i..j] == s[i + 1..j + 1];
    assert CutFrom(s, c, r, i + 1, j + 1);
  }

  /** A cut of `s` without its trailing `c` is a cut of `s`. */
  lemma CutFromInit(s: string, init: string, c: char, r: string)
    requires s != [] && s[|s| - 1] == c && init == s[..|s| - 1]
    requires exists i, j :: CutFrom(init, c, r, i, j)
    ensures exists i, j :: CutFrom(s, c, r, i, j)
  {
    var i, j :| CutFrom(init, c, r, i, j);
    assert init[i..j] == s[i..j];
    assert CutFrom(s, c, r, i, j);
  }

  /** Python's `str.strip(c)`: every leading and trailing `c` removed. */
  function StripChar(s: string, c: char): (r: string)
    ensures |r| <= |s|
    ensures r != [] ==> r[0] != c && r[|r| - 1] != c
  {
    if s != [] && s[0] == c then StripChar(s[1..], c)
    else if s != [] && s[|s| - 1] == c then StripChar(s[..|s| - 1], c)
    else s
  }

  /** The stripped text is a slice of `s` with only `c` cut from either side. */
  lemma {:induction false} StripCharCuts(s: string, c: char)
    ensures exists i, j :: CutFrom(s, c, StripChar(s, c), i, j)
    decreases |s|
  {
    if s != [] && s[0] == c {
      StripCharCuts(s[1..], c);
      CutFromTail(s, c, StripChar(s, c));
    } else if s != [] && s[|s| - 1] == c {
      StripCharCuts(s[..|s| - 1], c);
      CutFromInit(s, s[..|s| - 1], c, StripChar(s, c));
    } else {
      assert StripChar(s, c) == s;
      assert CutFrom(s, c, s, 0, |s|);
    }
  }

  // ---------------------------------------------------------------------------
  // create_item_dict

  /** The columns of a data file. */
  datatype Field =
    | FieldTime | FieldOpen | FieldHigh | FieldLow | FieldClose
    | FieldVolume | FieldTurnover | FieldTurnRate

  datatype Value = TimeValue(time: CTime) | Number(x: real)

  type Item = map<Field, Value>

  /** The fixed column schema `CSV_API.__init__` sets, time first. */
  const Columns: seq<Field> :=
    [FieldTime, FieldOpen, FieldHigh, FieldLow, FieldClose, FieldVolume, FieldTurnover, FieldTurnRate]

  /** One cell converted: the time column by `parse_time_column`, every other
      column by the float conversion `toFloat`. */
  function ConvertCell(cell: string, field: Field, toFloat: string -> real): Result<Value, Error> {
    if field == FieldTime then
      var t :- ParseTimeColumn(cell);
      Success(TimeValue(t))
    else
      Success(Number(toFloat(cell)))
  }

  /** The cells converted in index order; the first cell that fails is the
      error. */
  function ConvertAll(data: seq<string>, columns: seq<Field>, toFloat: string -> real): (r: Result<seq<Value>, Error>)
    requires |data| <= |columns|
    ensures r.Success? <==> forall i :: 0 <= i < |data| ==> ConvertCell(data[i], columns[i], toFloat).Success?
    ensures r.Success? ==> |r.value| == |data|
    ensures r.Success? ==>
      forall i :: 0 <= i < |data| ==> r.value[i] == ConvertCell(data[i], columns[i], toFloat).value
    ensures r.Failure? ==>
      exists i :: 0 <= i < |data| && ConvertCell(data[i], columns[i], toFloat) == Failure(r.error) &&
        forall j :: 0 <= j < i ==> ConvertCell(data[j], columns[j], toFloat).Success?
  {
    if data == [] then Success([])
    else
      var head :- ConvertCell(data[0], columns[0], toFloat);
      var tail :- ConvertAll(data[1..], columns[1..], toFloat);
      Success([head] + tail)
  }

  /** The first cell that fails to convert decides the error. */
  lemma {:induction false} ConvertAllFirstFailure(data: seq<string>, columns: seq<Field>, toFloat: string -> real, i: nat)
    requires |data| <= |columns| && i < |data|
    requires forall k :: 0 <= k < i ==> ConvertCell(data[k], columns[k], toFloat).Success?
    requires ConvertCell(data[i], columns[i], toFloat).Failure?
    ensures ConvertAll(data, columns, toFloat) == Failure(ConvertCell(data[i], columns[i], toFloat).error)
    decreases i
  {
    if i > 0 {
      var cells, fields := data[1..], columns[1..];
      assert ConvertCell(data[0], columns[0], toFloat).Success?;
      forall k | 0 <= k < i - 1
        ensures ConvertCell(cells[k], fields[k], toFloat).Success?
      {
        assert cells[k] == data[k + 1] && fields[k] == columns[k + 1];
      }
      ConvertAllFirstFailure(cells, fields, toFloat, i - 1);
    }
  }

  /** When every cell converts, the conversions are the result, in order. */
  lemma ConvertAllSucceeds(data: seq<string>, columns: seq<Field>, toFloat: string -> real, values: seq<Value>)
    requires |data| <= |columns| && |values| == |data|
    requires forall k :: 0 <= k < |data| ==> ConvertCell(data[k], columns[k], toFloat) == Success(values[k])
    ensures ConvertAll(data, columns, toFloat) == Success(values)
  {
    var r := ConvertAll(data, columns, toFloat);
    assert r.Success?;
    assert r.value == values;
  }

  /** `dict(zip(keys, values))`: one entry per key, the last value given for a
      key winning. */
  function ZipMap(keys: seq<Field>, values: seq<Value>): (m: Item)
    requires |keys| == |values|
    ensures forall k :: k in m <==> k in keys
  {
    if keys == [] then map[]
    else ZipMap(keys[..|keys| - 1], values[..|values| - 1])[keys[|keys| - 1] := values[|values| - 1]]
  }

  /** The value zipped for a key is the one at its last position. */
  lemma {:induction false} ZipMapLast(keys: seq<Field>, values: seq<Value>, i: nat)
    requires |keys| == |values| && i < |keys|
    requires forall j :: i < j < |keys| ==> keys[j] != keys[i]
    ensures ZipMap(keys, values)[keys[i]] == values[i]
  {
    if i < |keys| - 1 {
      ZipMapLast(keys[..|keys| - 1], values[..|values| - 1], i);
    }
  }

  /** The value `create_item_dict` returns or raises. */
  function ItemDict(data: seq<string>, columns: seq<Field>, toFloat: string -> real): Result<Item, Error>
    requires |data| <= |columns|
  {
    var values :- ConvertAll(data, columns, toFloat);
    Success(ZipMap(columns[..|data|], values))
  }

  /** `create_item_dict`: converts `data` cell by cell in place, then zips it
      with the column names. */
  method CreateItemDict(data: seq<string>, columns: seq<Field>, toFloat: string -> real) returns (r: Result<Item, Error>)
    requires |data| <= |columns|
    ensures r == ItemDict(data, columns, toFloat)
  {
    var converted: seq<Value> := [];
    for i := 0 to |data|
      invariant |converted| == i
      invariant forall k :: 0 <= k < i ==> ConvertCell(data[k], columns[k], toFloat) == Success(converted[k])
    {
      var cell := ConvertCell(data[i], columns[i], toFloat);
      if cell.Failure? {
        ConvertAllFirstFailure(data, columns, toFloat, i);
        return Failure(cell.error);
      }
      converted := converted + [cell.value];
    }
    ConvertAllSucceeds(data, columns, toFloat, converted);
    var item: Item := map[];
    for i := 0 to |data|
      invariant item == ZipMap(columns[..i], converted[..i])
    {
      Seqs.TakeNext(columns, i);
      Seqs.TakeNext(converted, i);
      item := item[columns[i] := converted[i]];
    }
    assert columns[..|data|] == columns[..|data|][..|data|];
    assert converted[..|data|] == converted;
    r := Success(item);
  }

  /** The time column is the first column of the schema and only the first. */
  lemma TimeColumnFirstOnly()
    ensures Columns[0] == FieldTime
    ensures forall j :: 0 < j < |Columns| ==> Columns[j] != FieldTime
  {
    assert Columns[1..] == [FieldOpen, FieldHigh, FieldLow, FieldClose, FieldVolume, FieldTurnover, FieldTurnRate];
    assert FieldTime !in Columns[1..];
    assert forall j :: 0 < j < |Columns| ==> Columns[j] == Columns[1..][j - 1];
  }

  /** On the fixed schema the time column is always in the dictionary, holding
      the parsed first cell. */
  lemma ItemDictTime(data: seq<string>, toFloat: string -> real)
    requires |data| == |Columns| && ItemDict(data, Columns, toFloat).Success?
    ensures FieldTime in ItemDict(data, Columns, toFloat).value
    ensures ItemDict(data, Columns, toFloat).value[FieldTime] == TimeValue(ParseTimeColumn(data[0]).value)
  {
    var values := ConvertAll(data, Columns, toFloat).value;
    assert values[0] == ConvertCell(data[0], Columns[0], toFloat).value;
    TimeColumnFirstOnly();
    assert Columns[..|data|] == Columns;
    ZipMapLast(Columns, values, 0);
  }

  // ---------------------------------------------------------------------------
  // CSV_API

  /** A `begin_date` / `end_date` argument: absent, a string, or a time. */
  datatype BoundArg = Absent | Text(text: string) | Given(time: CTime)

  /** A bound as the constructor stores it. A falsy string is not parsed and is
      kept as text. */
  datatype Bound = Unbounded | At(time: CTime) | KeptText(text: string)

  /** `if date: date = parse_time_column(date) if isinstance(date, str) else date`. */
  function ParseBound(arg: BoundArg): (r: Result<Bound, Error>)
    ensures r.Success? && r.value.KeptText? <==> arg == Text("")
    ensures r.Success? && r.value.Unbounded? <==> arg.Absent?
    ensures arg.Given? ==> r == Success(At(arg.time))
    ensures arg.Text? && arg.text != "" ==>
      r == match ParseTimeColumn(arg.text) case Success(t) => Success(At(t)) case Failure(e) => Failure(e)
    ensures r.Failure? ==> arg.Text? && ParseTimeColumn(arg.text) == Failure(r.error)
  {
    match arg
    case Absent => Success(Unbounded)
    case Given(t) => Success(At(t))
    case Text(text) =>
      if text == "" then Success(KeptText(text))
      else
        var t :- ParseTimeColumn(text);
        Success(At(t))
  }

  /** A constructed `CSV_API`: the code, the level name, the stored bounds and
      the header flag (always set). The column schema is `Columns`. */
  datatype CsvSource = CsvSource(code: string, kTypeName: string, beginDate: Bound, endDate: Bound, headersExist: bool)

  /** `CSV_API.__init__`: the begin bound is parsed first, then the end bound;
      the first one that fails is raised. */
  function NewCsvSource(code: string, kTypeName: string, beginArg: BoundArg, endArg: BoundArg): (r: Result<CsvSource, Error>)
    ensures r.Success? <==> ParseBound(beginArg).Success? && ParseBound(endArg).Success?
    ensures r.Success? ==> r.value == CsvSource(code, kTypeName, ParseBound(beginArg).value, ParseBound(endArg).value, true)
    ensures ParseBound(beginArg).Failure? ==> r == Failure(ParseBound(beginArg).error)
  {
    var begin :- ParseBound(beginArg);
    var end :- ParseBound(endArg);
    Success(CsvSource(code, kTypeName, begin, end, true))
  }

  /** A string bound whose length no format has fails construction, naming the
      string and its length. */
  lemma BadBoundRejected(code: string, kTypeName: string, text: string, endArg: BoundArg)
    requires text != "" && !KnownTimeLength(|text|)
    ensures NewCsvSource(code, kTypeName, Text(text), endArg) == Failure(UnknownTimeFormat(text, |text|))
    ensures NewCsvSource(code, kTypeName, Absent, Text(text)) == Failure(UnknownTimeFormat(text, |text|))
  {
  }

  /** `t` lies inside the inclusive range of the stored bounds. */
  predicate Within(src: CsvSource, t: CTime) {
    (src.beginDate.At? ==> !Before(t, src.beginDate.time)) &&
    (src.endDate.At? ==> !Before(src.endDate.time, t)) &&
    !src.beginDate.KeptText? && !src.endDate.KeptText?
  }

  /** The range filter of `get_kl_data`: the begin bound is checked first; a
      bound kept as text cannot be compared with a time and raises. */
  function Admit(src: CsvSource, t: CTime): (r: Result<bool, Error>)
    ensures r.Success? ==> (r.value <==> Within(src, t))
    ensures r.Failure? <==>
      src.beginDate.KeptText? || (src.endDate.KeptText? && !(src.beginDate.At? && Before(t, src.beginDate.time)))
  {
    var afterBegin :-
      match src.beginDate
      case Unbounded => Success(true)
      case At(b) => Success(!Before(t, b))
      case KeptText(text) => Failure(IncomparableBound(text));
    if !afterBegin then Success(false)
    else
      match src.endDate
      case Unbounded => Success(true)
      case At(e) => Success(!Before(e, t))
      case KeptText(text) => Failure(IncomparableBound(text))
  }

  /** One data line: newlines stripped, split on commas, the column count
      checked, then the cells converted. */
  function ParseRow(path: string, line: string, toFloat: string -> real): (r: Result<Item, Error>)
    ensures r.Success? ==> FieldTime in r.value && r.value[FieldTime].TimeValue?
    ensures |Split(StripChar(line, '\n'), ',')| != |Columns| ==> r == Failure(FileFormat(path))
  {
    var data := Split(StripChar(line, '\n'), ',');
    if |data| != |Columns| then Failure(FileFormat(path))
    else
      var item :- ItemDict(data, Columns, toFloat);
      ItemDictTime(data, toFloat);
      Success(item)
  }

  /** A blank line splits into a single field, so it is a format error. */
  lemma BlankLineIsFormatError(path: string, toFloat: string -> real)
    ensures ParseRow(path, "", toFloat) == Failure(FileFormat(path))
    ensures ParseRow(path, "\n", toFloat) == Failure(FileFormat(path))
  {
    assert StripChar("\n", '\n') == "";
  }

  function TimeOf(item: Item): CTime
    requires FieldTime in item && item[FieldTime].TimeValue?
  {
    item[FieldTime].time
  }

  /** What one data line contributes: the item to yield, nothing, or an error.
      The column check and the time parse come before the range filter. */
  function RowOutcome(src: CsvSource, path: string, line: string, toFloat: string -> real): Result<Option<Item>, Error> {
    var item :- ParseRow(path, line, toFloat);
    var keep :- Admit(src, TimeOf(item));
    Success(if keep then Some(item) else None)
  }

  /** The items `get_kl_data` yields from `lines`, and the error that ended the
      iteration, if any. Line 0 is skipped when the file has a header. */
  function Scan(src: CsvSource, path: string, lines: seq<string>, toFloat: string -> real): (out: (seq<Item>, Option<Error>))
    ensures |out.0| <= |lines|
    ensures forall k :: 0 <= k < |out.0| ==>
      FieldTime in out.0[k] && out.0[k][FieldTime].TimeValue? && Within(src, TimeOf(out.0[k]))
    decreases |lines|
  {
    if lines == [] then ([], None)
    else
      var prev := Scan(src, path, lines[..|lines| - 1], toFloat);
      if prev.1.Some? || (src.headersExist && |lines| == 1) then prev
      else
        match RowOutcome(src, path, lines[|lines| - 1], toFloat)
        case Failure(e) => (prev.0, Some(e))
        case Success(None) => prev
        case Success(Some(item)) => (prev.0 + [item], None)
  }

  /** Scanning one more line. */
  lemma ScanExtend(src: CsvSource, path: string, lines: seq<string>, line: string, toFloat: string -> real)
    ensures Scan(src, path, lines + [line], toFloat) ==
      var prev := Scan(src, path, lines, toFloat);
      if prev.1.Some? || (src.headersExist && lines == []) then prev
      else
        match RowOutcome(src, path, line, toFloat)
        case Failure(e) => (prev.0, Some(e))
        case Success(None) => prev
        case Success(Some(item)) => (prev.0 + [item], None)
  {
    Seqs.InitOfSnoc(lines, line);
  }

  /** Once an error has stopped the iteration, later lines change nothing. */
  lemma {:induction false} ScanStopsAtError(src: CsvSource, path: string, lines: seq<string>, k: nat, toFloat: string -> real)
    requires k <= |lines| && Scan(src, path, lines[..k], toFloat).1.Some?
    ensures Scan(src, path, lines, toFloat) == Scan(src, path, lines[..k], toFloat)
    decreases |lines| - k
  {
    if k < |lines| {
      Seqs.TakeNext(lines, k);
      ScanExtend(src, path, lines[..k], lines[k], toFloat);
      ScanStopsAtError(src, path, lines, k + 1, toFloat);
    } else {
      Seqs.TakeAll(lines);
    }
  }

  /** The body of the `get_kl_data` loop for one data line. */
  method ReadRow(src: CsvSource, path: string, line: string, toFloat: string -> real)
    returns (outcome: Result<Option<Item>, Error>)
    ensures outcome == RowOutcome(src, path, line, toFloat)
  {
    var data := Split(StripChar(line, '\n'), ',');
    if |data| != |Columns| {
      return Failure(FileFormat(path));
    }
    var itemDict := CreateItemDict(data, Columns, toFloat);
    if itemDict.Failure? {
      return Failure(itemDict.error);
    }
    ItemDictTime(data, toFloat);
    assert ParseRow(path, line, toFloat) == itemDict;
    var parsedTime := itemDict.value[FieldTime].time;
    var keep := Admit(src, parsedTime);
    if keep.Failure? {
      return Failure(keep.error);
    }
    outcome := Success(if keep.value then Some(itemDict.value) else None);
  }

  /** `CSV_API.get_kl_data`: the file `{code}_{freq}.csv` is looked up in
      `files` (name to lines); a missing file raises before any row is read. The
      generator is modelled by the items it yields and the error that stopped
      it. */
  method GetKlData(src: CsvSource, files: map<string, seq<string>>, toFloat: string -> real)
    returns (items: seq<Item>, err: Option<Error>)
    ensures var path := FileName(src.code, src.kTypeName);
      if path !in files then items == [] && err == Some(FileNotFound(path))
      else (items, err) == Scan(src, path, files[path], toFloat)
  {
    var path := FileName(src.code, src.kTypeName);
    if path !in files {
      return [], Some(FileNotFound(path));
    }
    var lines := files[path];
    items, err := [], None;
    for n := 0 to |lines|
      invariant (items, None) == Scan(src, path, lines[..n], toFloat)
    {
      Seqs.TakeNext(lines, n);
      ScanExtend(src, path, lines[..n], lines[n], toFloat);
      if src.headersExist && n == 0 {
        continue;
      }
      var outcome := ReadRow(src, path, lines[n], toFloat);
      match outcome
      case Failure(e) =>
        ScanStopsAtError(src, path, lines, n + 1, toFloat);
        return items, Some(e);
      case Success(None) =>
      case Success(Some(item)) =>
        items := items + [item];
    }
    Seqs.TakeAll(lines);
  }

  // ---------------------------------------------------------------------------
  // What the stream yields

  /** The lines that are data rows: all but line 0 when the file has a header. */
  function DataLines(src: CsvSource, lines: seq<string>): seq<string> {
    if src.headersExist && lines != [] then lines[1..] else lines
  }

  /** What each of `rows` contributes, in order. */
  function Outcomes(src: CsvSource, path: string, rows: seq<string>, toFloat: string -> real): (r: seq<Result<Option<Item>, Error>>)
    ensures |r| == |rows|
    ensures forall i :: 0 <= i < |rows| ==> r[i] == RowOutcome(src, path, rows[i], toFloat)
  {
    seq(|rows|, i requires 0 <= i < |rows| => RowOutcome(src, path, rows[i], toFloat))
  }

  lemma OutcomesAppend(src: CsvSource, path: string, rows: seq<string>, line: string, toFloat: string -> real)
    ensures Outcomes(src, path, rows + [line], toFloat) == Outcomes(src, path, rows, toFloat) + [RowOutcome(src, path, line, toFloat)]
  {
  }

  predicate AllRead(outcomes: seq<Result<Option<Item>, Error>>) {
    forall i :: 0 <= i < |outcomes| ==> outcomes[i].Success?
  }

  /** Every data row parses and its range test can be decided. */
  predicate RowsReadable(src: CsvSource, path: string, rows: seq<string>, toFloat: string -> real) {
    AllRead(Outcomes(src, path, rows, toFloat))
  }

  /** The item a readable row contributes: itself when in range, nothing otherwise. */
  function Picked(kept: Option<Item>): seq<Item> {
    match kept
    case Some(item) => [item]
    case None => []
  }

  /** The items kept by a run of successful outcomes, read from the front. */
  function Kept(outcomes: seq<Result<Option<Item>, Error>>): seq<Item>
    requires AllRead(outcomes)
  {
    if outcomes == [] then []
    else Picked(outcomes[0].value) + Kept(outcomes[1..])
  }

  /** The items of the in-range rows, in file order: a reference definition of
      the stream's output, read from the front. */
  function Selected(src: CsvSource, path: string, rows: seq<string>, toFloat: string -> real): seq<Item>
    requires RowsReadable(src, path, rows, toFloat)
  {
    Kept(Outcomes(src, path, rows, toFloat))
  }

  lemma AllReadAppend(outcomes: seq<Result<Option<Item>, Error>>, last: Result<Option<Item>, Error>)
    ensures AllRead(outcomes + [last]) <==> AllRead(outcomes) && last.Success?
  {
    assert forall i :: 0 <= i < |outcomes| ==> (outcomes + [last])[i] == outcomes[i];
    assert (outcomes + [last])[|outcomes|] == last;
  }

  lemma {:induction false} KeptAppend(outcomes: seq<Result<Option<Item>, Error>>, last: Result<Option<Item>, Error>)
    requires AllRead(outcomes) && last.Success?
    ensures AllRead(outcomes + [last])
    ensures Kept(outcomes + [last]) == Kept(outcomes) + Picked(last.value)
    decreases |outcomes|
  {
    AllReadAppend(outcomes, last);
    if outcomes != [] {
      assert (outcomes + [last])[1..] == outcomes[1..] + [last];
      AllReadAppend(outcomes[1..], last);
      KeptAppend(outcomes[1..], last);
    }
  }

  /** A line after the header, or any line of a file without one, is a data
      line. */
  lemma DataLinesSnoc(src: CsvSource, lines: seq<string>, line: string)
    requires !(src.headersExist && lines == [])
    ensures DataLines(src, lines + [line]) == DataLines(src, lines) + [line]
  {
    if src.headersExist {
      assert (lines + [line])[1..] == lines[1..] + [line];
    }
  }

  /** The stream ends without an error exactly when every data row parses and
      can be checked against the range; it then yields the in-range rows in
      file order, not re-sorted. */
  lemma {:induction false} ScanYieldsSelected(src: CsvSource, path: string, lines: seq<string>, toFloat: string -> real)
    ensures Scan(src, path, lines, toFloat).1.None? <==> RowsReadable(src, path, DataLines(src, lines), toFloat)
    ensures RowsReadable(src, path, DataLines(src, lines), toFloat) ==>
      Scan(src, path, lines, toFloat).0 == Selected(src, path, DataLines(src, lines), toFloat)
    decreases |lines|
  {
    if lines != [] {
      var init := lines[..|lines| - 1];
      var line := lines[|lines| - 1];
      Seqs.InitLast(lines);
      ScanExtend(src, path, init, line, toFloat);
      ScanYieldsSelected(src, path, init, toFloat);
      if !(src.headersExist && init == []) {
        var rows := DataLines(src, init);
        DataLinesSnoc(src, init, line);
        OutcomesAppend(src, path, rows, line, toFloat);
        var outcomes := Outcomes(src, path, rows, toFloat);
        AllReadAppend(outcomes, RowOutcome(src, path, line, toFloat));
        if AllRead(outcomes) && RowOutcome(src, path, line, toFloat).Success? {
          KeptAppend(outcomes, RowOutcome(src, path, line, toFloat));
        }
      }
    }
  }

  /** The header line is never parsed: any text there gives the same stream. */
  lemma {:induction false} HeaderNeverRead(src: CsvSource, path: string, header: string, other: string, rows: seq<string>, toFloat: string -> real)
    requires src.headersExist
    ensures Scan(src, path, [header] + rows, toFloat) == Scan(src, path, [other] + rows, toFloat)
    decreases |rows|
  {
    if rows == [] {
    } else {
      var init := rows[..|rows| - 1];
      var line := rows[|rows| - 1];
      assert [header] + rows == ([header] + init) + [line];
      assert [other] + rows == ([other] + init) + [line];
      ScanExtend(src, path, [header] + init, line, toFloat);
      ScanExtend(src, path, [other] + init, line, toFloat);
      HeaderNeverRead(src, path, header, other, init, toFloat);
    }
  }

  /** Both ends of the range are inclusive: of the five days January 1 to 5,
      the range from January 2 to January 4 keeps exactly the 2nd, 3rd and
      4th, dropping the day before the begin bound and the day after the end
      bound. */
  lemma InclusiveRangeExample(code: string, kTypeName: string)
    ensures var src := CsvSource(code, kTypeName, At(CTime(2024, 1, 2, 0, 0)), At(CTime(2024, 1, 4, 0, 0)), true);
      !Within(src, CTime(2024, 1, 1, 0, 0)) &&
      Within(src, CTime(2024, 1, 2, 0, 0)) && Within(src, CTime(2024, 1, 3, 0, 0)) &&
      Within(src, CTime(2024, 1, 4, 0, 0)) && !Within(src, CTime(2024, 1, 5, 0, 0))
  {
  }
}
