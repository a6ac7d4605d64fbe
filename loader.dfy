/** The row normalisation of the report loader (data_loader.py): `parse_date`, and the
    per-row date, amount, sign and skipping rules of `converter_dataframe`. */
module Loader {
  import opened Records
  import opened Digits

  // ------------------------------------------------------------------
  // Cells and the library calls the loader makes
  // ------------------------------------------------------------------

  /** A cell of the report table as pandas hands it over: missing (NaN, None, NaT),
      a string, a number, or a timestamp. */
  datatype Cell = Missing | Text(s: string) | Number(x: real) | Moment(stamp: Stamp)

  /** The library calls the row rules make, as parameters:
      - `strptime`: the loop over the twelve `datetime.strptime` formats applied to the
        cut date text, giving the first format that parses, or None;
      - `toFloat`: `float()` of a cleaned, non-empty amount string, falling back on the
        first match of `[-+]?\d*[.,]?\d+`; None when neither converts;
      - `showNumber`, `showStamp`: `str()` of a number and of a timestamp. */
  datatype Library = Library(
    strptime: string -> Option<Stamp>,
    toFloat: string -> Option<real>,
    showNumber: real -> string,
    showStamp: Stamp -> string)

  /** `str(cell)`; a missing cell prints as pandas' NaN does. */
  function Str(c: Cell, lib: Library): string
  {
    match c
    case Missing => "nan"
    case Text(s) => s
    case Number(x) => lib.showNumber(x)
    case Moment(st) => lib.showStamp(st)
  }

  // ------------------------------------------------------------------
  // `str.strip()` and `split(' ')[0]`
  // ------------------------------------------------------------------

  /** `c.isspace()`: the characters Python's `str.strip()` removes. */
  predicate IsSpace(c: char)
  {
    || c == ' ' || '\t' <= c <= '\r' || '\U{1c}' <= c <= '\U{1f}'
    || c == '\U{85}' || c == '\U{a0}' || c == '\U{1680}' || '\U{2000}' <= c <= '\U{200a}'
    || c == '\U{2028}' || c == '\U{2029}' || c == '\U{202f}' || c == '\U{205f}' || c == '\U{3000}'
  }

  predicate NoSpace(s: string)
  {
    forall i :: 0 <= i < |s| ==> !IsSpace(s[i])
  }

  function StripStart(s: string): (r: string)
    ensures |r| <= |s| && r == s[|s| - |r|..]
    ensures r != [] ==> !IsSpace(r[0])
  {
    if s != [] && IsSpace(s[0]) then StripStart(s[1..]) else s
  }

  function StripEnd(s: string): (r: string)
    ensures |r| <= |s| && r == s[..|r|]
    ensures r != [] ==> !IsSpace(r[|r| - 1])
  {
    if s != [] && IsSpace(s[|s| - 1]) then StripEnd(s[..|s| - 1]) else s
  }

  /** `s.strip()`. */
  function Strip(s: string): string
  {
    StripEnd(StripStart(s))
  }

  /** `s.split(' ')[0]`: the text before the first space character. */
  function FirstField(s: string): (r: string)
    ensures ' ' !in r
  {
    if s == [] || s[0] == ' ' then [] else [s[0]] + FirstField(s[1..])
  }

  /** Stripping text without white space changes nothing. */
  lemma {:induction false} StripNoSpace(s: string)
    requires NoSpace(s)
    ensures Strip(s) == s
  {
  }

  /** Trailing white space after a non-space character is stripped after it. */
  lemma {:induction false} StripEndAfter(a: string, t: string)
    requires a != [] && !IsSpace(a[|a| - 1])
    ensures StripEnd(a + t) == a + StripEnd(t)
    decreases |t|
  {
    if t != [] && IsSpace(t[|t| - 1]) {
      assert (a + t)[..|a + t| - 1] == a + t[..|t| - 1];
      StripEndAfter(a, t[..|t| - 1]);
    }
  }

  /** The first field of a text that goes on with a space, or stops, is the part before. */
  lemma {:induction false} FirstFieldOf(a: string, t: string)
    requires ' ' !in a && (t == [] || t[0] == ' ')
    ensures FirstField(a + t) == a
    decreases |a|
  {
    if a != [] {
      assert (a + t)[1..] == a[1..] + t;
      FirstFieldOf(a[1..], t);
    }
  }

  // ------------------------------------------------------------------
  // `re.findall(r'\d+', s)`
  // ------------------------------------------------------------------

  /** The length of the run of digits at the front of `s`. */
  function DigitPrefix(s: string): (n: nat)
    ensures n <= |s| && AllDigits(s[..n]) && (n < |s| ==> !IsDigit(s[n]))
  {
    if s != [] && IsDigit(s[0]) then 1 + DigitPrefix(s[1..]) else 0
  }

  /** `re.findall(r'\d+', s)`: the maximal runs of digits, left to right. */
  function DigitRuns(s: string): seq<string>
    decreases |s|
  {
    if s == [] then []
    else if !IsDigit(s[0]) then DigitRuns(s[1..])
    else
      var n := DigitPrefix(s);
      [s[..n]] + DigitRuns(s[n..])
  }

  /** Every run is a non-empty string of digits. */
  lemma {:induction false} DigitRunsShape(s: string)
    ensures forall k :: 0 <= k < |DigitRuns(s)| ==> DigitRuns(s)[k] != [] && AllDigits(DigitRuns(s)[k])
    decreases |s|
  {
    if s != [] {
      if !IsDigit(s[0]) {
        DigitRunsShape(s[1..]);
      } else {
        DigitRunsShape(s[DigitPrefix(s)..]);
      }
    }
  }

  /** A run that ends at a non-digit ends there even when more text follows. */
  lemma {:induction false} DigitPrefixStops(a: string, c: char, b: string)
    requires !IsDigit(c)
    ensures DigitPrefix(a + [c] + b) == DigitPrefix(a)
    decreases |a|
  {
    if a != [] {
      assert (a + [c] + b)[1..] == a[1..] + [c] + b;
      DigitPrefixStops(a[1..], c, b);
    }
  }

  /** A non-digit separates the runs before it from the runs after it. */
  lemma {:induction false} DigitRunsSplit(a: string, c: char, b: string)
    requires !IsDigit(c)
    ensures DigitRuns(a + [c] + b) == DigitRuns(a) + DigitRuns(b)
    decreases |a|
  {
    var s := a + [c] + b;
    if a == [] {
      assert s[1..] == b;
    } else if !IsDigit(a[0]) {
      assert s[1..] == a[1..] + [c] + b;
      DigitRunsSplit(a[1..], c, b);
    } else {
      var n := DigitPrefix(a);
      DigitPrefixStops(a, c, b);
      assert s[..n] == a[..n];
      assert s[n..] == a[n..] + [c] + b;
      DigitRunsSplit(a[n..], c, b);
    }
  }

  /** A non-empty string of digits is one run. */
  lemma DigitRunsOne(a: string)
    requires a != [] && AllDigits(a)
    ensures DigitRuns(a) == [a]
  {
    assert a[..DigitPrefix(a)] == a;
  }

  // ------------------------------------------------------------------
  // The numeric fallback of `parse_date`
  // ------------------------------------------------------------------

  predicate LeapYear(y: nat)
  {
    y % 4 == 0 && (y % 100 != 0 || y % 400 == 0)
  }

  function DaysInMonth(y: nat, m: nat): nat
    requires 1 <= m <= 12
  {
    if m == 2 then (if LeapYear(y) then 29 else 28)
    else if m == 4 || m == 6 || m == 9 || m == 11 then 30
    else 31
  }

  /** `datetime(year, month, day)` does not raise: a day of the Gregorian calendar. */
  predicate CalendarDate(d: Date)
  {
    1 <= d.year <= 9999 && 1 <= d.month <= 12 && 1 <= d.day <= DaysInMonth(d.year, d.month)
  }

  /** Lines 203-204: a year below 100 is read as 20yy below 50 and as 19yy from 50. */
  function PivotYear(y: nat): (r: nat)
    ensures y < 100 ==> r % 100 == y && 1950 <= r <= 2049
    ensures y >= 100 ==> r == y
  {
    if y < 100 then (if y < 50 then y + 2000 else y + 1900) else y
  }

  /** Lines 196-213: the first three digit runs as day, month and year; a date at
      midnight only when the fields are in range and name a calendar day (the error
      `datetime` raises otherwise is caught). */
  function NumericFallback(s: string): (r: Option<Stamp>)
    ensures r.Some? ==>
      var d := r.value.date;
      && 1 <= d.day <= 31 && 1 <= d.month <= 12 && 1900 <= d.year <= 2100
      && CalendarDate(d) && r.value.secondOfDay == 0
    ensures |DigitRuns(s)| < 3 ==> r.None?
  {
    var numbers := DigitRuns(s);
    if |numbers| < 3 then None
    else
      var d := Date(PivotYear(DigitsValue(numbers[2])), DigitsValue(numbers[1]), DigitsValue(numbers[0]));
      if 1 <= d.day <= 31 && 1 <= d.month <= 12 && 1900 <= d.year <= 2100 && CalendarDate(d) then
        Some(Stamp(d, 0))
      else None
  }

  /** Three runs of digits joined by any two non-digits are read as day, month and year. */
  lemma ThreeFields(x: string, p: char, y: string, q: char, z: string)
    requires x != [] && y != [] && z != [] && AllDigits(x) && AllDigits(y) && AllDigits(z)
    requires !IsDigit(p) && !IsDigit(q)
    ensures DigitRuns(x + [p] + y + [q] + z) == [x, y, z]
  {
    var tail := y + [q] + z;
    DigitRunsSplit(y, q, z);
    DigitRunsOne(y);
    DigitRunsOne(z);
    assert DigitRuns(tail) == [y, z];
    DigitRunsSplit(x, p, tail);
    DigitRunsOne(x);
    assert DigitRuns(x + [p] + tail) == [x] + [y, z];
    assert x + [p] + y + [q] + z == x + [p] + tail;
  }

  /** A date written day, month, four-digit year, with any non-digit separators
      (`dd/mm/yyyy`, `dd-mm-yyyy`, `dd.mm.yyyy`), is read back as that date. */
  lemma FallbackReadsFullYear(d: Date, p: char, q: char)
    requires CalendarDate(d) && 1900 <= d.year <= 2100 && !IsDigit(p) && !IsDigit(q)
    ensures NumericFallback(TwoDigits(d.day) + [p] + TwoDigits(d.month) + [q] + Decimal(d.year)) == Some(Stamp(d, 0))
  {
    TwoDigitsRoundTrip(d.day);
    TwoDigitsRoundTrip(d.month);
    DecimalRoundTrip(d.year);
    ThreeFields(TwoDigits(d.day), p, TwoDigits(d.month), q, Decimal(d.year));
  }

  /** A two-digit year `yy` is read through the pivot: 20yy below 50, 19yy from 50. */
  lemma FallbackReadsShortYear(day: nat, month: nat, yy: nat, p: char, q: char)
    requires yy < 100 && CalendarDate(Date(PivotYear(yy), month, day))
    requires !IsDigit(p) && !IsDigit(q)
    ensures NumericFallback(TwoDigits(day) + [p] + TwoDigits(month) + [q] + TwoDigits(yy))
      == Some(Stamp(Date(if yy < 50 then 2000 + yy else 1900 + yy, month, day), 0))
  {
    TwoDigitsRoundTrip(day);
    TwoDigitsRoundTrip(month);
    TwoDigitsRoundTrip(yy);
    ThreeFields(TwoDigits(day), p, TwoDigits(month), q, TwoDigits(yy));
  }

  /** The range checks are not enough: fields in range that name no calendar day, such
      as 31/02/2024, give None. */
  lemma FallbackRejectsNonCalendar(d: Date, p: char, q: char)
    requires 1 <= d.day <= 31 && 1 <= d.month <= 12 && 1900 <= d.year <= 2100 && !CalendarDate(d)
    requires !IsDigit(p) && !IsDigit(q)
    ensures NumericFallback(TwoDigits(d.day) + [p] + TwoDigits(d.month) + [q] + Decimal(d.year)) == None
  {
    TwoDigitsRoundTrip(d.day);
    TwoDigitsRoundTrip(d.month);
    DecimalRoundTrip(d.year);
    ThreeFields(TwoDigits(d.day), p, TwoDigits(d.month), q, Decimal(d.year));
  }

  // ------------------------------------------------------------------
  // `parse_date`
  // ------------------------------------------------------------------

  /** Lines 177-213 on a text: strip, cut at the first space, the `strptime` formats,
      then the numeric fallback. */
  function ParseText(s: string, lib: Library): Option<Stamp>
  {
    var t := FirstField(Strip(s));
    match lib.strptime(t)
    case Some(st) => Some(st)
    case None => NumericFallback(t)
  }

  /** `parse_date(cell)` (lines 164-216): None for a missing cell or `''`; a timestamp
      unchanged; any other value through its text. */
  function ParseDate(c: Cell, lib: Library): (r: Option<Stamp>)
    ensures c.Missing? || c == Text("") ==> r.None?
    ensures c.Moment? ==> r == Some(c.stamp)
  {
    match c
    case Missing => None
    case Moment(st) => Some(st)
    case Text(s) => if s == "" then None else ParseText(s, lib)
    case Number(x) => ParseText(lib.showNumber(x), lib)
  }

  /** Only the text before the first space counts: a time of day after the date, or
      anything else after a space, does not change the result. */
  lemma TimeOfDayIgnored(a: string, b: string, lib: Library)
    requires a != [] && NoSpace(a)
    ensures ParseText(a + " " + b, lib) == ParseText(a, lib)
  {
    var t := " " + b;
    assert a + " " + b == a + t;
    assert (a + t)[0] == a[0];
    assert StripStart(a + t) == a + t;
    StripEndAfter(a, t);
    var e := StripEnd(t);
    assert e == [] || e[0] == ' ';
    assert ' ' !in a by {
      forall i | 0 <= i < |a| ensures a[i] != ' ' {
        assert !IsSpace(a[i]);
      }
    }
    FirstFieldOf(a, e);
    StripNoSpace(a);
    FirstFieldOf(a, []);
    assert a + [] == a;
  }

  // ------------------------------------------------------------------
  // Amount strings (lines 286-297, 324-331, 349-356)
  // ------------------------------------------------------------------

  /** The characters `re.sub(r'[^\d.,+-]', '', s)` keeps. */
  predicate AmountChar(c: char)
  {
    IsDigit(c) || c == '.' || c == ',' || c == '+' || c == '-'
  }

  function KeepAmountChars(s: string): (r: string)
    ensures forall i :: 0 <= i < |r| ==> AmountChar(r[i])
  {
    if s == [] then []
    else (if AmountChar(s[0]) then [s[0]] else []) + KeepAmountChars(s[1..])
  }

  /** `.replace('.', '')`. */
  function DropDots(s: string): (r: string)
    ensures forall i :: 0 <= i < |r| ==> r[i] != '.'
  {
    if s == [] then []
    else (if s[0] == '.' then [] else [s[0]]) + DropDots(s[1..])
  }

  /** `.replace(',', '.')`. */
  function CommasToDots(s: string): (r: string)
    ensures |r| == |s|
    ensures forall i :: 0 <= i < |s| ==> r[i] == if s[i] == ',' then '.' else s[i]
  {
    seq(|s|, i requires 0 <= i < |s| => if s[i] == ',' then '.' else s[i])
  }

  /** `re.sub(r'[^\d.,+-]', '', s).replace('.', '').replace(',', '.').strip()`: the
      Brazilian notation "1.234,56" becomes "1234.56". */
  function CleanAmount(s: string): string
  {
    Strip(CommasToDots(DropDots(KeepAmountChars(s))))
  }

  /** The digits of `s`, in order. */
  function DigitsOf(s: string): (r: string)
  {
    if s == [] then [] else (if IsDigit(s[0]) then [s[0]] else []) + DigitsOf(s[1..])
  }

  lemma {:induction false} KeepAmountCharsCounts(s: string)
    ensures multiset(KeepAmountChars(s))[','] == multiset(s)[',']
    ensures DigitsOf(KeepAmountChars(s)) == DigitsOf(s)
    decreases |s|
  {
    if s != [] {
      KeepAmountCharsCounts(s[1..]);
      assert s == [s[0]] + s[1..];
      var head := if AmountChar(s[0]) then [s[0]] else [];
      DigitsOfAppend(head, KeepAmountChars(s[1..]));
    }
  }

  lemma {:induction false} DropDotsCounts(s: string)
    ensures multiset(DropDots(s))[','] == multiset(s)[',']
    ensures DigitsOf(DropDots(s)) == DigitsOf(s)
    decreases |s|
  {
    if s != [] {
      DropDotsCounts(s[1..]);
      assert s == [s[0]] + s[1..];
      var head := if s[0] == '.' then [] else [s[0]];
      DigitsOfAppend(head, DropDots(s[1..]));
    }
  }

  lemma {:induction false} CommasToDotsCounts(s: string)
    requires forall i :: 0 <= i < |s| ==> s[i] != '.'
    ensures multiset(CommasToDots(s))['.'] == multiset(s)[',']
    ensures ',' !in CommasToDots(s)
    ensures DigitsOf(CommasToDots(s)) == DigitsOf(s)
    decreases |s|
  {
    var r := CommasToDots(s);
    if s != [] {
      CommasToDotsCounts(s[1..]);
      assert s == [s[0]] + s[1..];
      assert r == [r[0]] + CommasToDots(s[1..]);
      DigitsOfAppend([r[0]], CommasToDots(s[1..]));
      DigitsOfAppend([s[0]], s[1..]);
    }
  }

  lemma {:induction false} DigitsOfAppend(a: string, b: string)
    ensures DigitsOf(a + b) == DigitsOf(a) + DigitsOf(b)
    decreases |a|
  {
    if a != [] {
      var head := if IsDigit(a[0]) then [a[0]] else [];
      assert (a + b)[0] == a[0];
      assert (a + b)[1..] == a[1..] + b;
      DigitsOfAppend(a[1..], b);
      assert DigitsOf(a + b) == head + DigitsOf(a[1..] + b);
      assert DigitsOf(a) == head + DigitsOf(a[1..]);
    } else {
      assert a + b == b;
    }
  }

  /** The characters left after the cleanup: digits, the decimal point and signs. */
  predicate CleanChar(c: char)
  {
    IsDigit(c) || c == '.' || c == '+' || c == '-'
  }

  /** The cleaned amount holds only digits, `.`, `+` and `-`, and no `,`; it has one
      `.` per `,` of the input (the decimal comma), and the input's digits in order. */
  lemma CleanAmountShape(s: string)
    ensures var r := CleanAmount(s);
      && (forall i :: 0 <= i < |r| ==> CleanChar(r[i]))
      && ',' !in r
      && multiset(r)['.'] == multiset(s)[',']
      && DigitsOf(r) == DigitsOf(s)
  {
    var k := KeepAmountChars(s);
    var d := DropDots(k);
    var c := CommasToDots(d);
    KeepAmountCharsCounts(s);
    DropDotsCounts(k);
    CommasToDotsCounts(d);
    assert forall i :: 0 <= i < |d| ==> AmountChar(d[i]) by {
      DropDotsKeeps(k);
    }
    assert forall i :: 0 <= i < |c| ==> CleanChar(c[i]);
    assert NoSpace(c);
    StripNoSpace(c);
    assert CleanAmount(s) == c;
  }

  /** `.replace('.', '')` keeps only characters that were there. */
  lemma {:induction false} DropDotsKeeps(s: string)
    requires forall i :: 0 <= i < |s| ==> AmountChar(s[i])
    ensures forall i :: 0 <= i < |DropDots(s)| ==> AmountChar(DropDots(s)[i])
    decreases |s|
  {
    if s != [] {
      DropDotsKeeps(s[1..]);
    }
  }

  /** A string amount: cleaned, then 0 when nothing is left, else `float()` with its
      regex fallback; None when neither converts. */
  function TextAmount(s: string, lib: Library): Option<real>
  {
    var t := CleanAmount(s);
    if t == "" then Some(0.0) else lib.toFloat(t)
  }

  // ------------------------------------------------------------------
  // The natureza (debit/credit) column
  // ------------------------------------------------------------------

  /** `str.upper()` on the letters that can spell a natureza word: ASCII, the Latin-1
      lower-case letters, dotless i and long s. */
  function UpperChar(c: char): char
  {
    if 'a' <= c <= 'z' || ('\U{e0}' <= c <= '\U{fe}' && c != '\U{f7}') then (c as int - 32) as char
    else if c == '\U{131}' then 'I'
    else if c == '\U{17f}' then 'S'
    else c
  }

  function Upper(s: string): (r: string)
    ensures |r| == |s|
  {
    seq(|s|, i requires 0 <= i < |s| => UpperChar(s[i]))
  }

  /** `str(row[natureza]).strip().upper()`. */
  function NatureWord(c: Cell, lib: Library): string
  {
    Upper(Strip(Str(c, lib)))
  }

  const DebitWords: seq<string> := ["D", "DEBITO", "DÉBITO", "DEBIT", "SAIDA", "SAÍDA", "-"]
  const CreditWords: seq<string> := ["C", "CREDITO", "CRÉDITO", "CREDIT", "ENTRADA", "+"]

  /** Lines 308-312: a debit word forces the amount negative, a credit word positive,
      anything else keeps its sign. */
  function SignedByNature(nature: string, v: real): real
  {
    if nature in DebitWords then -Abs(v)
    else if nature in CreditWords then Abs(v)
    else v
  }

  /** The sign rule keeps the magnitude and sets the sign from the word. */
  lemma SignRule(nature: string, v: real)
    ensures Abs(SignedByNature(nature, v)) == Abs(v)
    ensures nature in DebitWords ==> SignedByNature(nature, v) <= 0.0
    ensures nature in CreditWords ==> SignedByNature(nature, v) >= 0.0
    ensures nature !in DebitWords && nature !in CreditWords ==> SignedByNature(nature, v) == v
  {
    assert nature in DebitWords ==> nature !in CreditWords;
  }

  /** Case does not matter: "débito" is read as the debit word "DÉBITO". */
  lemma LowerCaseDebito()
    ensures Upper("débito") == "DÉBITO"
  {
  }

  // ------------------------------------------------------------------
  // Receita, despesa and the net amount
  // ------------------------------------------------------------------

  /** 'valor', 'receita' and 'despesa' of one loaded record. */
  datatype Amounts = Amounts(net: real, income: real, expense: real)

  /** Lines 314-315: a net amount split into its positive and negative parts. */
  function SplitNet(v: real): (r: Amounts)
  {
    Amounts(v, if v > 0.0 then v else 0.0, if v < 0.0 then Abs(v) else 0.0)
  }

  /** Both parts are non-negative, at most one is non-zero, and their difference is the amount. */
  lemma SplitNetParts(v: real)
    ensures var r := SplitNet(v);
      && r.income >= 0.0 && r.expense >= 0.0
      && (r.income == 0.0 || r.expense == 0.0)
      && r.net == r.income - r.expense == v
  {
  }

  /** One receita or despesa cell (lines 320-341, 345-366): 0 when its column is not
      there, the cell is missing or `''`, or nothing converts; then made non-negative. */
  function ColumnAmount(present: bool, c: Cell, lib: Library): (r: real)
    ensures r >= 0.0
    ensures !present || c.Missing? || c == Text("") || c.Moment? ==> r == 0.0
    ensures present && c.Number? ==> r == Abs(c.x)
    ensures present && c.Text? && c.s != "" ==>
      r == (match TextAmount(c.s, lib) case Some(v) => Abs(v) case None => 0.0)
  {
    if !present then 0.0
    else
      var x := match c
        case Missing => 0.0
        case Text(s) =>
          if s == "" then 0.0
          else (match TextAmount(s, lib) case Some(v) => v case None => 0.0)
        case Number(v) => v
        case Moment(_) => 0.0;
      Abs(x)
  }

  /** Lines 316-369: receita and despesa from their own columns, net = receita - despesa. */
  function SeparateAmounts(row: SheetRow, cols: Columns, lib: Library): (r: Amounts)
    ensures r.income == ColumnAmount(cols.income, row.income, lib)
    ensures r.expense == ColumnAmount(cols.expense, row.expense, lib)
    ensures r.income >= 0.0 && r.expense >= 0.0 && r.net == r.income - r.expense
  {
    var income := ColumnAmount(cols.income, row.income, lib);
    var expense := ColumnAmount(cols.expense, row.expense, lib);
    Amounts(income - expense, income, expense)
  }

  // ------------------------------------------------------------------
  // One row of `converter_dataframe`
  // ------------------------------------------------------------------

  /** Which mapped columns exist in the table. */
  datatype Columns = Columns(date: bool, amount: bool, nature: bool, income: bool, expense: bool, desc: bool, account: bool)

  /** `tipo_relatorio`: one amount column with a natureza column, or separate receita
      and despesa columns. */
  datatype Layout = NatureColumn | SeparateColumns

  /** The cells of one table row under each mapped column. */
  datatype SheetRow = SheetRow(date: Cell, amount: Cell, nature: Cell, income: Cell, expense: Cell, desc: Cell, account: Cell)

  /** Lines 278-304: the amount of a natureza-mode row; None skips the row (a missing
      cell, a string nothing converts, or a value `float()` refuses). */
  function NatureAmount(c: Cell, lib: Library): Option<real>
  {
    match c
    case Missing => None
    case Text(s) => TextAmount(s, lib)
    case Number(x) => Some(x)
    case Moment(_) => None
  }

  /** The amounts of one row, or None when the row is skipped for its amount. */
  function RowAmounts(row: SheetRow, cols: Columns, layout: Layout, lib: Library): Option<Amounts>
  {
    match layout
    case NatureColumn =>
      if !cols.amount || !cols.nature then None
      else
        (match NatureAmount(row.amount, lib)
         case None => None
         case Some(v) => Some(SplitNet(SignedByNature(NatureWord(row.nature, lib), v))))
    case SeparateColumns => Some(SeparateAmounts(row, cols, lib))
  }

  /** Lines 372-373: `str(cell)` when the column is there and the cell is not missing, else `''`. */
  function TextOf(present: bool, c: Cell, lib: Library): string
  {
    if present && !c.Missing? then Str(c, lib) else ""
  }

  /** The body of the row loop (lines 252-383): the record appended for one row, or
      None when the row is skipped. */
  function ConvertRow(row: SheetRow, cols: Columns, layout: Layout, lib: Library): Option<Txn>
  {
    if !cols.date then None
    else
      match ParseDate(row.date, lib)
      case None => None
      case Some(when) =>
        match RowAmounts(row, cols, layout, lib)
        case None => None
        case Some(a) =>
          Some(Txn(Some(when), a.net, TextOf(cols.desc, row.desc, lib),
                   Some(LedgerFields(TextOf(cols.account, row.account, lib), a.income, a.expense))))
  }

  /** A row is skipped exactly when the date column is missing, its date does not
      parse, or, in natureza mode, the amount or natureza column is missing or the
      amount does not convert. */
  lemma ConvertRowSkips(row: SheetRow, cols: Columns, layout: Layout, lib: Library)
    ensures ConvertRow(row, cols, layout, lib).None? <==>
      || !cols.date
      || ParseDate(row.date, lib).None?
      || (layout.NatureColumn? && (!cols.amount || !cols.nature || NatureAmount(row.amount, lib).None?))
  {
    if cols.date && ParseDate(row.date, lib).Some? {
      assert ConvertRow(row, cols, layout, lib).None? <==> RowAmounts(row, cols, layout, lib).None?;
    }
  }

  /** A kept row is dated by its date cell, its receita and despesa are non-negative
      and its amount is their difference. */
  lemma ConvertRowKept(row: SheetRow, cols: Columns, layout: Layout, lib: Library)
    requires ConvertRow(row, cols, layout, lib).Some?
    ensures var t := ConvertRow(row, cols, layout, lib).value;
      && t.when == ParseDate(row.date, lib)
      && t.ledger.Some? && t.ledger.value.income >= 0.0 && t.ledger.value.expense >= 0.0
      && t.amount == t.ledger.value.income - t.ledger.value.expense
  {
    var a := RowAmounts(row, cols, layout, lib).value;
    if layout.NatureColumn? {
      SplitNetParts(SignedByNature(NatureWord(row.nature, lib), NatureAmount(row.amount, lib).value));
    }
    assert ConvertRow(row, cols, layout, lib).value.ledger.value.income == a.income;
  }

  /** In natureza mode a kept row's amount is the converted amount with its sign set by
      the natureza word, and at most one of receita and despesa is non-zero. */
  lemma NatureRowAmount(row: SheetRow, cols: Columns, lib: Library)
    requires ConvertRow(row, cols, NatureColumn, lib).Some?
    ensures var t := ConvertRow(row, cols, NatureColumn, lib).value;
      var v := NatureAmount(row.amount, lib).value;
      var w := NatureWord(row.nature, lib);
      && Abs(t.amount) == Abs(v)
      && (w in DebitWords ==> t.amount <= 0.0)
      && (w in CreditWords ==> t.amount >= 0.0)
      && (t.ledger.value.income == 0.0 || t.ledger.value.expense == 0.0)
  {
    var v := NatureAmount(row.amount, lib).value;
    var w := NatureWord(row.nature, lib);
    SignRule(w, v);
    SplitNetParts(SignedByNature(w, v));
  }

  /** With separate columns a row is kept exactly when its date parses; its receita
      and despesa are the absolute values of their cells, 0 for a column that is not
      there, and its amount is receita minus despesa. */
  lemma SeparateRowAmounts(row: SheetRow, cols: Columns, lib: Library)
    ensures ConvertRow(row, cols, SeparateColumns, lib).Some? <==> cols.date && ParseDate(row.date, lib).Some?
    ensures ConvertRow(row, cols, SeparateColumns, lib).Some? ==>
      var t := ConvertRow(row, cols, SeparateColumns, lib).value;
      && t.ledger.Some?
      && t.ledger.value.income == ColumnAmount(cols.income, row.income, lib)
      && t.ledger.value.expense == ColumnAmount(cols.expense, row.expense, lib)
      && t.amount == t.ledger.value.income - t.ledger.value.expense
  {
  }

  // ------------------------------------------------------------------
  // The row loop
  // ------------------------------------------------------------------

  /** Line 247: with a non-empty account filter and an account column, only the rows
      whose account cell is that string are kept. */
  function Filtered(rows: seq<SheetRow>, cols: Columns, filter: string): (r: seq<SheetRow>)
    ensures |r| <= |rows|
  {
    if filter == "" || !cols.account || rows == [] then rows
    else
      var rest := Filtered(rows[..|rows| - 1], cols, filter);
      if rows[|rows| - 1].account == Text(filter) then rest + [rows[|rows| - 1]] else rest
  }

  /** With the filter on, a row is kept exactly when its account cell is the filter
      string; with it off (no filter, or no account column), every row is kept. */
  lemma {:induction false} FilteredRows(rows: seq<SheetRow>, cols: Columns, filter: string)
    ensures filter == "" || !cols.account ==> Filtered(rows, cols, filter) == rows
    ensures filter != "" && cols.account ==>
      forall r :: r in Filtered(rows, cols, filter) <==> r in rows && r.account == Text(filter)
  {
    if rows != [] && filter != "" && cols.account {
      var p := rows[..|rows| - 1];
      FilteredRows(p, cols, filter);
      assert rows == p + [rows[|rows| - 1]];
    }
  }

  /** The values of the present entries, in order. */
  function Somes<T>(xs: seq<Option<T>>): seq<T>
  {
    if xs == [] then []
    else Somes(xs[..|xs| - 1]) + (if xs[|xs| - 1].Some? then [xs[|xs| - 1].value] else [])
  }

  /** The positions of the present entries, in increasing order. */
  function Present<T>(xs: seq<Option<T>>): seq<nat>
  {
    if xs == [] then []
    else Present(xs[..|xs| - 1]) + (if xs[|xs| - 1].Some? then [|xs| - 1] else [])
  }

  /** The k-th value comes from the k-th present position. */
  lemma {:induction false} SomesAtPresent<T>(xs: seq<Option<T>>)
    ensures |Somes(xs)| == |Present(xs)|
    ensures forall k :: 0 <= k < |Present(xs)| ==> Present(xs)[k] < |xs| && xs[Present(xs)[k]] == Some(Somes(xs)[k])
  {
    if xs != [] {
      var p := xs[..|xs| - 1];
      SomesAtPresent(p);
      forall k | 0 <= k < |Present(p)|
        ensures Present(xs)[k] < |xs| && xs[Present(xs)[k]] == Some(Somes(xs)[k])
      {
        assert Present(xs)[k] == Present(p)[k] && xs[Present(p)[k]] == p[Present(p)[k]];
      }
    }
  }

  /** The present positions increase and are exactly the entries that are present. */
  lemma {:induction false} PresentExact<T>(xs: seq<Option<T>>)
    ensures forall k :: 0 <= k < |Present(xs)| ==> Present(xs)[k] < |xs|
    ensures forall k, m :: 0 <= k < m < |Present(xs)| ==> Present(xs)[k] < Present(xs)[m]
    ensures forall i :: 0 <= i < |xs| ==> (i in Present(xs) <==> xs[i].Some?)
  {
    if xs != [] {
      var p := xs[..|xs| - 1];
      PresentExact(p);
      assert |xs| - 1 !in Present(p);
      forall i | 0 <= i < |p|
        ensures i in Present(xs) <==> xs[i].Some?
      {
        assert xs[i] == p[i];
      }
    }
  }

  /** The outcome of the loop body for each row. */
  function Outcomes(rows: seq<SheetRow>, cols: Columns, layout: Layout, lib: Library): (r: seq<Option<Txn>>)
    ensures |r| == |rows|
    ensures forall i :: 0 <= i < |rows| ==> r[i] == ConvertRow(rows[i], cols, layout, lib)
  {
    seq(|rows|, i requires 0 <= i < |rows| => ConvertRow(rows[i], cols, layout, lib))
  }

  /** What the row loop appends: the records of the rows that are not skipped. */
  function Converted(rows: seq<SheetRow>, cols: Columns, layout: Layout, lib: Library): seq<Txn>
  {
    Somes(Outcomes(rows, cols, layout, lib))
  }

  /** The loop keeps the input order: the k-th record comes from the k-th row that is
      not skipped, those positions increase, and every other row is skipped. */
  lemma ConvertedInOrder(rows: seq<SheetRow>, cols: Columns, layout: Layout, lib: Library)
    ensures var out := Converted(rows, cols, layout, lib);
      var kept := Present(Outcomes(rows, cols, layout, lib));
      && |out| == |kept|
      && (forall k :: 0 <= k < |kept| ==> kept[k] < |rows| && ConvertRow(rows[kept[k]], cols, layout, lib) == Some(out[k]))
      && (forall k, m :: 0 <= k < m < |kept| ==> kept[k] < kept[m])
      && (forall i :: 0 <= i < |rows| ==> (i in kept <==> ConvertRow(rows[i], cols, layout, lib).Some?))
  {
    SomesAtPresent(Outcomes(rows, cols, layout, lib));
    PresentExact(Outcomes(rows, cols, layout, lib));
  }

  /** Every loaded record is dated, with non-negative receita and despesa whose
      difference is its amount. */
  lemma ConvertedWellFormed(rows: seq<SheetRow>, cols: Columns, layout: Layout, lib: Library)
    ensures forall t :: t in Converted(rows, cols, layout, lib) ==>
      && t.when.Some? && t.ledger.Some?
      && t.ledger.value.income >= 0.0 && t.ledger.value.expense >= 0.0
      && t.amount == t.ledger.value.income - t.ledger.value.expense
  {
    var outcomes := Outcomes(rows, cols, layout, lib);
    var out := Converted(rows, cols, layout, lib);
    SomesAtPresent(outcomes);
    forall t | t in out
      ensures && t.when.Some? && t.ledger.Some?
        && t.ledger.value.income >= 0.0 && t.ledger.value.expense >= 0.0
        && t.amount == t.ledger.value.income - t.ledger.value.expense
    {
      var k :| 0 <= k < |out| && out[k] == t;
      var row := rows[Present(outcomes)[k]];
      ConvertRowKept(row, cols, layout, lib);
      assert ParseDate(row.date, lib).Some?;
    }
  }

  /** `converter_dataframe`'s filter and row loop: each row either is skipped or appends
      one record. */
  method ConvertDataFrame(rows: seq<SheetRow>, cols: Columns, layout: Layout, filter: string, lib: Library)
      returns (transacoes: seq<Txn>)
    ensures transacoes == Converted(Filtered(rows, cols, filter), cols, layout, lib)
  {
    transacoes := [];
    var df := Filtered(rows, cols, filter);
    ghost var outcomes := Outcomes(df, cols, layout, lib);
    var i := 0;
    while i < |df|
      invariant 0 <= i <= |df|
      invariant transacoes == Somes(outcomes[..i])
    {
      assert outcomes[..i + 1][..i] == outcomes[..i];
      var t := ConvertRow(df[i], cols, layout, lib);
      if t.None? {
        i := i + 1;
        continue;
      }
      transacoes := transacoes + [t.value];
      i := i + 1;
    }
    assert outcomes[..i] == outcomes;
  }
}
