/** Dates as text. The source reads and writes dates with `strptime` and
    `strftime` using the directives `%Y`, `%m` and `%d`; this module models
    them on ASCII digit strings:
    - `strftime` prints a field zero padded to a fixed width;
    - `strptime` turns the format into a regular expression in which each
      directive is an alternation, tried left to right with backtracking,
      takes the FIRST overall match, and fails ("unconverted data remains")
      unless that match covers the whole string; the numbers must then form a
      valid date.
    It also models the separator stripping applied to the production start
    date (`.replace("/", "").replace("-", "").replace(" ", "")`). */
module DateText {
  import opened Wrappers
  import opened Calendar

  predicate IsDigit(c: char) {
    '0' <= c <= '9'
  }

  predicate AllDigits(s: string) {
    forall i :: 0 <= i < |s| ==> IsDigit(s[i])
  }

  function DigitValue(c: char): int
    requires IsDigit(c)
  {
    c as int - '0' as int
  }

  function DigitChar(n: int): (c: char)
    requires 0 <= n <= 9
    ensures IsDigit(c) && DigitValue(c) == n
  {
    ('0' as int + n) as char
  }

  function Pow10(n: nat): (p: nat)
    ensures p >= 1
  {
    if n == 0 then 1 else 10 * Pow10(n - 1)
  }

  /** The number a string of decimal digits denotes (Python's `int(s)`). */
  function DigitsValue(s: string): (v: int)
    requires AllDigits(s)
    ensures 0 <= v < Pow10(|s|)
  {
    if |s| == 0 then 0 else DigitsValue(s[..|s| - 1]) * 10 + DigitValue(s[|s| - 1])
  }

  /** `n` printed in decimal, zero padded on the left to `width` characters. */
  function Pad(n: int, width: nat): (s: string)
    requires 0 <= n < Pow10(width)
    ensures |s| == width && AllDigits(s)
    ensures DigitsValue(s) == n
  {
    if width == 0 then ""
    else
      var s := Pad(n / 10, width - 1) + [DigitChar(n % 10)];
      assert s[..|s| - 1] == Pad(n / 10, width - 1);
      s
  }

  /** `strftime("%Y%m%d")`: eight digits, year first. */
  function FormatYmd(d: Date): (s: string)
    requires ValidDate(d)
    ensures |s| == 8 && AllDigits(s)
  {
    Pad(d.year, 4) + Pad(d.month, 2) + Pad(d.day, 2)
  }

  /** The same date written day first, as `%d%m%Y` expects it. */
  function FormatDmy(d: Date): (s: string)
    requires ValidDate(d)
    ensures |s| == 8 && AllDigits(s)
  {
    Pad(d.day, 2) + Pad(d.month, 2) + Pad(d.year, 4)
  }

  // ---------------------------------------------------------------------------
  // strptime

  /** `str(y)` is the four digits `%Y` reads; any other year makes
      `strptime(str(y) + ..., "%Y...")` raise ValueError. */
  predicate FourDigitYear(y: int) {
    1000 <= y <= 9999
  }

  /** `str(n)` for a natural number: its decimal digits, no leading zero. */
  function DecimalText(n: nat): (s: string)
    ensures 1 <= |s| && AllDigits(s) && DigitsValue(s) == n
    ensures |s| > 1 ==> s[0] != '0'
    ensures (n < 10 <==> |s| == 1) && (n < 100 <==> |s| <= 2)
    ensures (n < 1000 <==> |s| <= 3) && (n < 10000 <==> |s| <= 4)
  {
    if n < 10 then [DigitChar(n)]
    else
      var s := DecimalText(n / 10) + [DigitChar(n % 10)];
      assert s[..|s| - 1] == DecimalText(n / 10);
      s
  }

  /** `str(n)` for any integer: a minus sign before the digits of a negative one. */
  function IntText(n: int): (s: string)
    ensures n >= 0 ==> s == DecimalText(n)
    ensures n < 0 ==> |s| >= 2 && s[0] == '-' && s[1..] == DecimalText(-n)
  {
    if n < 0 then "-" + DecimalText(-n) else DecimalText(n)
  }

  /** The directives the source uses: `%d`, `%m` and `%Y`. */
  datatype Directive = DayOfMonth | MonthOfYear | Year

  /** One way a directive's pattern can match at a position: the number of
      characters it consumes and the number it denotes. */
  datatype Piece = Piece(len: nat, value: int)

  const NonZeroDigits: string := "123456789"
  const Digits: string := "0123456789"

  /** Two characters at `i`, the first from `a` and the second from `b`. */
  predicate Lead(s: string, i: nat, a: string, b: string) {
    i + 1 < |s| && s[i] in a && s[i + 1] in b
  }

  function TwoDigits(s: string, i: nat): int
    requires i + 1 < |s| && IsDigit(s[i]) && IsDigit(s[i + 1])
  {
    DigitValue(s[i]) * 10 + DigitValue(s[i + 1])
  }

  /** The matches of a directive's alternation at position `i`, in the order
      the regular expression engine tries them:
      `%d` is `3[01]|[12]\d|0[1-9]|[1-9]| [1-9]`,
      `%m` is `1[0-2]|0[1-9]|[1-9]`,
      `%Y` is `\d\d\d\d`. */
  function Alternatives(k: Directive, s: string, i: nat): (r: seq<Piece>)
    requires i <= |s|
    ensures forall j :: 0 <= j < |r| ==> 1 <= r[j].len && i + r[j].len <= |s|
  {
    match k
    case DayOfMonth =>
      (if Lead(s, i, "3", "01") then [Piece(2, TwoDigits(s, i))] else [])
      + (if Lead(s, i, "12", Digits) then [Piece(2, TwoDigits(s, i))] else [])
      + (if Lead(s, i, "0", NonZeroDigits) then [Piece(2, TwoDigits(s, i))] else [])
      + (if i < |s| && s[i] in NonZeroDigits then [Piece(1, DigitValue(s[i]))] else [])
      + (if Lead(s, i, " ", NonZeroDigits) then [Piece(2, DigitValue(s[i + 1]))] else [])
    case MonthOfYear =>
      (if Lead(s, i, "1", "012") then [Piece(2, TwoDigits(s, i))] else [])
      + (if Lead(s, i, "0", NonZeroDigits) then [Piece(2, TwoDigits(s, i))] else [])
      + (if i < |s| && s[i] in NonZeroDigits then [Piece(1, DigitValue(s[i]))] else [])
    case Year =>
      if i + 4 <= |s| && AllDigits(s[i..i + 4]) then [Piece(4, DigitsValue(s[i..i + 4]))] else []
  }

  /** The first match, in backtracking order, of the directives `ds` starting
      at position `i`: the numbers they denote and where the match ends. */
  function Match(s: string, i: nat, ds: seq<Directive>): (r: Option<(seq<int>, nat)>)
    requires i <= |s|
    ensures r.Some? ==> |r.value.0| == |ds| && i <= r.value.1 <= |s|
    decreases |ds|, 1, 0
  {
    if ds == [] then Some(([], i))
    else FirstMatch(s, i, Alternatives(ds[0], s, i), ds[1..])
  }

  /** Tries the alternatives `alts` for one directive in order, each followed
      by a match of the remaining directives `rest`. */
  function FirstMatch(s: string, i: nat, alts: seq<Piece>, rest: seq<Directive>): (r: Option<(seq<int>, nat)>)
    requires i <= |s|
    requires forall j :: 0 <= j < |alts| ==> 1 <= alts[j].len && i + alts[j].len <= |s|
    ensures r.Some? ==> |r.value.0| == |rest| + 1 && i < r.value.1 <= |s|
    decreases |rest| + 1, 0, |alts|
  {
    if alts == [] then None
    else
      match Match(s, i + alts[0].len, rest)
      case Some((vs, end)) => Some(([alts[0].value] + vs, end))
      case None => FirstMatch(s, i, alts[1..], rest)
  }

  /** `strptime`'s matching step: the numbers of the first match, which must
      cover the whole string. */
  function Strptime(s: string, ds: seq<Directive>): (r: Option<seq<int>>)
    ensures r.Some? ==> |r.value| == |ds|
  {
    match Match(s, 0, ds)
    case None => None
    case Some((vs, end)) => if end == |s| then Some(vs) else None
  }

  /** A format of one directive: the string parses exactly when the preferred
      alternative at its start covers all of it. */
  lemma SingleDirective(s: string, k: Directive)
    ensures
      var alts := Alternatives(k, s, 0);
      Strptime(s, [k]) == if |alts| > 0 && alts[0].len == |s| then Some([alts[0].value]) else None
  {
    var alts := Alternatives(k, s, 0);
    assert [k][1..] == [];
    assert Match(s, 0, [k]) == FirstMatch(s, 0, alts, []);
    if |alts| > 0 {
      assert Match(s, alts[0].len, []) == Some(([], alts[0].len));
      assert [alts[0].value] + [] == [alts[0].value];
      assert Match(s, 0, [k]) == Some(([alts[0].value], alts[0].len));
    }
  }

  /** `%d` at the start of a two-digit text without a leading zero: the
      preferred alternative takes both digits exactly when they make a day
      number 10..31. */
  lemma TwoDigitDayAlternatives(s: string)
    requires |s| == 2 && AllDigits(s) && s[0] != '0'
    ensures
      var alts := Alternatives(DayOfMonth, s, 0);
      && |alts| > 0
      && (alts[0].len == 2 <==> TwoDigits(s, 0) <= 31)
      && (alts[0].len == 2 ==> alts[0].value == TwoDigits(s, 0))
  {
    assert IsDigit(s[0]) && IsDigit(s[1]);
    if s[0] == '3' {
      assert Lead(s, 0, "3", "01") <==> s[1] == '0' || s[1] == '1';
    } else if s[0] == '1' || s[0] == '2' {
      assert s[1] in Digits;
      assert Lead(s, 0, "12", Digits);
    } else {
      assert s[0] in NonZeroDigits;
      assert !Lead(s, 0, "3", "01") && !Lead(s, 0, "12", Digits) && !Lead(s, 0, "0", NonZeroDigits);
    }
  }

  /** `%d` at the start of `str(day)` for a day below 10. */
  lemma ShortDayAlternatives(day: int)
    requires day < 10
    ensures Alternatives(DayOfMonth, IntText(day), 0) == if 1 <= day then [Piece(1, day)] else []
  {
    var s := IntText(day);
    if day < 0 {
      assert s[0] == '-';
    } else {
      assert |s| == 1 && s[0] == DigitChar(day);
      assert s[0] in NonZeroDigits <==> day != 0;
    }
  }

  /** `%d` at the start of `str(day)` for a two-digit day. */
  lemma TwoDigitDayText(day: int)
    requires 10 <= day < 100
    ensures
      var s, alts := IntText(day), Alternatives(DayOfMonth, IntText(day), 0);
      |alts| > 0 && (alts[0].len == |s| <==> day <= 31) && (day <= 31 ==> alts[0].value == day)
  {
    var s := IntText(day);
    assert |s| == 2;
    assert TwoDigits(s, 0) == day by {
      assert s[..1][..0] == [];
      assert DigitsValue(s[..1]) == DigitValue(s[0]);
    }
    TwoDigitDayAlternatives(s);
  }

  /** `str(day)` matches `%d` exactly for the days 1..31. */
  lemma DayText(day: int)
    ensures Strptime(IntText(day), [DayOfMonth]) == if 1 <= day <= 31 then Some([day]) else None
  {
    SingleDirective(IntText(day), DayOfMonth);
    if day < 10 {
      ShortDayAlternatives(day);
    } else if day < 100 {
      TwoDigitDayText(day);
    } else {
      var alts := Alternatives(DayOfMonth, IntText(day), 0);
      assert forall j :: 0 <= j < |alts| ==> alts[j].len <= 2;
    }
  }

  /** `str(year)` matches `%Y` exactly for the four-digit years. */
  lemma YearText(year: int)
    ensures Strptime(IntText(year), [Year]) == if FourDigitYear(year) then Some([year]) else None
  {
    var s := IntText(year);
    SingleDirective(s, Year);
    if year < 0 {
      assert !IsDigit(s[0]);
      assert |s| >= 4 ==> !AllDigits(s[0..4]) by {
        if |s| >= 4 {
          assert s[0..4][0] == s[0];
        }
      }
    } else if FourDigitYear(year) {
      assert s[0..4] == s;
    }
  }

  /** `datetime.strptime(s, "%Y%m%d").date()`, `None` where Python raises ValueError. */
  function ParseYmd(s: string): (r: Option<Date>)
    ensures r.Some? ==> ValidDate(r.value)
  {
    match Strptime(s, [Year, MonthOfYear, DayOfMonth])
    case None => None
    case Some(vs) =>
      var d := Date(vs[0], vs[1], vs[2]);
      if ValidDate(d) then Some(d) else None
  }

  /** `datetime.strptime(s, "%d%m%Y")`, `None` where Python raises ValueError. */
  function ParseDmy(s: string): (r: Option<Date>)
    ensures r.Some? ==> ValidDate(r.value)
  {
    match Strptime(s, [DayOfMonth, MonthOfYear, Year])
    case None => None
    case Some(vs) =>
      var d := Date(vs[2], vs[1], vs[0]);
      if ValidDate(d) then Some(d) else None
  }

  // ---------------------------------------------------------------------------
  // Round trips

  function Width(k: Directive): nat {
    match k
    case Year => 4
    case _ => 2
  }

  /** The values `strftime` prints for a directive of a valid date. */
  predicate InRange(k: Directive, v: int) {
    match k
    case DayOfMonth => 1 <= v <= 31
    case MonthOfYear => 1 <= v <= 12
    case Year => 0 <= v <= 9999
  }

  /** The zero-padded text of the values `vs` for the directives `ds`. */
  function Canonical(ds: seq<Directive>, vs: seq<int>): string
    requires |ds| == |vs|
    requires forall j :: 0 <= j < |ds| ==> InRange(ds[j], vs[j])
  {
    if ds == [] then ""
    else
      assert InRange(ds[0], vs[0]);
      InRangeFits(ds[0], vs[0]);
      Pad(vs[0], Width(ds[0])) + Canonical(ds[1..], vs[1..])
  }

  /** The values of a directive fit its printed width. */
  lemma InRangeFits(k: Directive, v: int)
    requires InRange(k, v)
    ensures 0 <= v < Pow10(Width(k))
  {
    assert Pow10(2) == 100 && Pow10(4) == 10000;
  }

  lemma PadTwo(v: int)
    requires 0 <= v < 100
    ensures Pad(v, 2) == [DigitChar(v / 10), DigitChar(v % 10)]
  {
    assert v / 10 / 10 == 0 && v / 10 % 10 == v / 10;
    assert Pad(v / 10, 1) == Pad(0, 0) + [DigitChar(v / 10)];
  }

  /** The digits of a day number 1..31 at `i`: `%d` prefers the two-digit alternative. */
  lemma DayCanonical(s: string, i: nat, v: int)
    requires 1 <= v <= 31 && i + 1 < |s|
    requires s[i] == DigitChar(v / 10) && s[i + 1] == DigitChar(v % 10)
    ensures |Alternatives(DayOfMonth, s, i)| > 0 && Alternatives(DayOfMonth, s, i)[0] == Piece(2, v)
  {
    assert TwoDigits(s, i) == v;
    if v / 10 == 3 {
      assert s[i] == '3' && (s[i + 1] == '0' || s[i + 1] == '1');
      assert Lead(s, i, "3", "01");
    } else if v / 10 >= 1 {
      assert s[i] == '1' || s[i] == '2';
      assert Lead(s, i, "12", Digits);
      assert !Lead(s, i, "3", "01");
    } else {
      assert s[i] == '0' && s[i + 1] in NonZeroDigits;
      assert Lead(s, i, "0", NonZeroDigits);
      assert !Lead(s, i, "3", "01") && !Lead(s, i, "12", Digits);
    }
  }

  /** The digits of a month number 1..12 at `i`: `%m` prefers the two-digit alternative. */
  lemma MonthCanonical(s: string, i: nat, v: int)
    requires 1 <= v <= 12 && i + 1 < |s|
    requires s[i] == DigitChar(v / 10) && s[i + 1] == DigitChar(v % 10)
    ensures |Alternatives(MonthOfYear, s, i)| > 0 && Alternatives(MonthOfYear, s, i)[0] == Piece(2, v)
  {
    assert TwoDigits(s, i) == v;
    if v / 10 == 1 {
      assert s[i] == '1' && (s[i + 1] == '0' || s[i + 1] == '1' || s[i + 1] == '2');
      assert Lead(s, i, "1", "012");
    } else {
      assert s[i] == '0' && s[i + 1] in NonZeroDigits;
      assert Lead(s, i, "0", NonZeroDigits);
      assert !Lead(s, i, "1", "012");
    }
  }

  /** On zero-padded text the preferred alternative is the full-width one. */
  lemma FirstAlternativeIsCanonical(k: Directive, s: string, i: nat, v: int)
    requires InRange(k, v) && 0 <= v < Pow10(Width(k)) && i + Width(k) <= |s|
    requires s[i..i + Width(k)] == Pad(v, Width(k))
    ensures |Alternatives(k, s, i)| > 0 && Alternatives(k, s, i)[0] == Piece(Width(k), v)
  {
    if k == Year {
      assert s[i..i + 4] == Pad(v, 4);
    } else {
      PadTwo(v);
      assert s[i] == s[i..i + 2][0] && s[i + 1] == s[i..i + 2][1];
      if k == DayOfMonth {
        DayCanonical(s, i, v);
      } else {
        MonthCanonical(s, i, v);
      }
    }
  }

  /** Every directive after the first keeps its value's range. */
  lemma InRangeTail(ds: seq<Directive>, vs: seq<int>)
    requires |ds| == |vs| && ds != []
    requires forall j :: 0 <= j < |ds| ==> InRange(ds[j], vs[j])
    ensures forall j :: 0 <= j < |ds[1..]| ==> InRange(ds[1..][j], vs[1..][j])
  {
    forall j | 0 <= j < |ds[1..]|
      ensures InRange(ds[1..][j], vs[1..][j])
    {
      assert ds[1..][j] == ds[j + 1] && vs[1..][j] == vs[j + 1];
    }
  }

  /** Zero-padded text splits after the first directive's width. */
  lemma CanonicalSplit(s: string, i: nat, ds: seq<Directive>, vs: seq<int>)
    requires i <= |s| && |ds| == |vs| && ds != []
    requires forall j :: 0 <= j < |ds| ==> InRange(ds[j], vs[j])
    requires s[i..] == Canonical(ds, vs)
    ensures InRange(ds[0], vs[0]) && 0 <= vs[0] < Pow10(Width(ds[0]))
    ensures i + Width(ds[0]) <= |s|
    ensures s[i..i + Width(ds[0])] == Pad(vs[0], Width(ds[0]))
    ensures s[i + Width(ds[0])..] == Canonical(ds[1..], vs[1..])
  {
    var w := Width(ds[0]);
    assert InRange(ds[0], vs[0]);
    InRangeFits(ds[0], vs[0]);
    var head, tail := Pad(vs[0], w), Canonical(ds[1..], vs[1..]);
    assert s[i..] == head + tail;
    assert |head| == w;
    assert s[i..i + w] == head by {
      assert s[i..i + w] == s[i..][..w];
    }
    assert s[i + w..] == tail by {
      assert s[i + w..] == s[i..][w..];
    }
  }

  /** The zero-padded text of values matches its directives with exactly
      those values, consuming all of it. */
  lemma {:induction false} MatchCanonical(s: string, i: nat, ds: seq<Directive>, vs: seq<int>)
    requires i <= |s| && |ds| == |vs|
    requires forall j :: 0 <= j < |ds| ==> InRange(ds[j], vs[j])
    requires s[i..] == Canonical(ds, vs)
    ensures Match(s, i, ds) == Some((vs, |s|))
    decreases |ds|
  {
    if ds == [] {
      assert s[i..] == "";
    } else {
      var w := Width(ds[0]);
      CanonicalSplit(s, i, ds, vs);
      InRangeTail(ds, vs);
      FirstAlternativeIsCanonical(ds[0], s, i, vs[0]);
      MatchCanonical(s, i + w, ds[1..], vs[1..]);
      MatchPreferred(s, i, ds, vs[0], vs[1..]);
      assert [vs[0]] + vs[1..] == vs;
    }
  }

  /** When the preferred alternative of the first directive is followed by a
      match of the rest up to the end, that is the match. */
  lemma MatchPreferred(s: string, i: nat, ds: seq<Directive>, v: int, tail: seq<int>)
    requires i <= |s| && ds != []
    requires |Alternatives(ds[0], s, i)| > 0 && Alternatives(ds[0], s, i)[0] == Piece(Width(ds[0]), v)
    requires Match(s, i + Width(ds[0]), ds[1..]) == Some((tail, |s|))
    ensures Match(s, i, ds) == Some(([v] + tail, |s|))
  {
    var alts := Alternatives(ds[0], s, i);
    assert Match(s, i, ds) == FirstMatch(s, i, alts, ds[1..]);
  }

  /** `strftime("%Y%m%d")` is the zero-padded text of year, month and day. */
  lemma CanonicalYmd(d: Date)
    requires ValidDate(d)
    ensures Canonical([Year, MonthOfYear, DayOfMonth], [d.year, d.month, d.day]) == FormatYmd(d)
  {
    var ds, vs := [Year, MonthOfYear, DayOfMonth], [d.year, d.month, d.day];
    assert ds[1..][1..] == ds[2..] && vs[1..][1..] == vs[2..];
    assert ds[2..][1..] == [] && vs[2..][1..] == [];
    var day, month, year := Pad(d.day, 2), Pad(d.month, 2), Pad(d.year, 4);
    assert Canonical(ds[2..], vs[2..]) == day + "";
    assert Canonical(ds[1..], vs[1..]) == month + (day + "");
    assert Canonical(ds, vs) == year + (month + (day + ""));
    assert year + (month + (day + "")) == year + month + day;
  }

  /** The eight-digit text `strftime("%Y%m%d")` prints parses back to the same date. */
  lemma YmdRoundTrip(d: Date)
    requires ValidDate(d)
    ensures ParseYmd(FormatYmd(d)) == Some(d)
  {
    var s := FormatYmd(d);
    var ds, vs := [Year, MonthOfYear, DayOfMonth], [d.year, d.month, d.day];
    CanonicalYmd(d);
    assert s[0..] == s;
    MatchCanonical(s, 0, ds, vs);
    assert Strptime(s, ds) == Some(vs);
  }

  /** The DDMMYYYY text is the zero-padded text of day, month and year. */
  lemma CanonicalDmy(d: Date)
    requires ValidDate(d)
    ensures Canonical([DayOfMonth, MonthOfYear, Year], [d.day, d.month, d.year]) == FormatDmy(d)
  {
    var ds, vs := [DayOfMonth, MonthOfYear, Year], [d.day, d.month, d.year];
    assert ds[1..][1..] == ds[2..] && vs[1..][1..] == vs[2..];
    assert ds[2..][1..] == [] && vs[2..][1..] == [];
    var day, month, year := Pad(d.day, 2), Pad(d.month, 2), Pad(d.year, 4);
    assert Canonical(ds[2..], vs[2..]) == year + "";
    assert Canonical(ds[1..], vs[1..]) == month + (year + "");
    assert Canonical(ds, vs) == day + (month + (year + ""));
    assert day + (month + (year + "")) == day + month + year;
  }

  /** A date written as zero-padded DDMMYYYY parses with `%d%m%Y` to that date. */
  lemma DmyRoundTrip(d: Date)
    requires ValidDate(d)
    ensures ParseDmy(FormatDmy(d)) == Some(d)
  {
    var s := FormatDmy(d);
    var ds, vs := [DayOfMonth, MonthOfYear, Year], [d.day, d.month, d.year];
    CanonicalDmy(d);
    assert s[0..] == s;
    MatchCanonical(s, 0, ds, vs);
    assert Strptime(s, ds) == Some(vs);
  }

  // ---------------------------------------------------------------------------
  // Separators

  /** The characters the source deletes from a production start date. */
  const Separators: string := "/- "

  /** `s.replace(c, "")`. */
  function RemoveAll(s: string, c: char): (r: string)
    ensures forall x :: x in r <==> x in s && x != c
    ensures c !in s ==> r == s
  {
    if s == [] then []
    else (if s[0] == c then [] else [s[0]]) + RemoveAll(s[1..], c)
  }

  /** `s.replace("/", "").replace("-", "").replace(" ", "")`. */
  function StripSeparators(s: string): (r: string)
    ensures forall x :: x in r <==> x in s && x !in Separators
  {
    RemoveAll(RemoveAll(RemoveAll(s, '/'), '-'), ' ')
  }

  /** One left-to-right pass keeping every character that is not a separator:
      an independent definition of what the three chained replacements do. */
  function KeepNonSeparators(s: string): string {
    if s == [] then []
    else (if s[0] in Separators then [] else [s[0]]) + KeepNonSeparators(s[1..])
  }

  lemma {:induction false} RemoveAllAppend(a: string, b: string, c: char)
    ensures RemoveAll(a + b, c) == RemoveAll(a, c) + RemoveAll(b, c)
  {
    if a == [] {
      assert a + b == b;
    } else {
      assert (a + b)[0] == a[0] && (a + b)[1..] == a[1..] + b;
      RemoveAllAppend(a[1..], b, c);
    }
  }

  /** The chained replacements keep exactly the non-separator characters, in order. */
  lemma {:induction false} StripSeparatorsKeepsOrder(s: string)
    ensures StripSeparators(s) == KeepNonSeparators(s)
  {
    if s != [] {
      var h, t := [s[0]], s[1..];
      assert s == h + t;
      RemoveAllAppend(h, t, '/');
      RemoveAllAppend(RemoveAll(h, '/'), RemoveAll(t, '/'), '-');
      RemoveAllAppend(RemoveAll(RemoveAll(h, '/'), '-'), RemoveAll(RemoveAll(t, '/'), '-'), ' ');
      StripSeparatorsKeepsOrder(t);
    }
  }

  /** Stripping twice is stripping once. */
  lemma StripSeparatorsIdempotent(s: string)
    ensures StripSeparators(StripSeparators(s)) == StripSeparators(s)
  {
    var r := StripSeparators(s);
    assert '/' !in r && '-' !in r && ' ' !in r;
  }
}
