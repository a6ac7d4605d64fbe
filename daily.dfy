/** The per-day summary of `Conciliador.agrupar_por_dia` (reconciliation.py):
    day keys, the statement and report totals per key, the balance test, and
    Python's string ordering of the keys. */
module DailySummary {
  import opened Records
  import opened Digits

  /** The per-day balance tolerance `diff < 0.01`. */
  const DayTolerance: real := 0.01

  // ------------------------------------------------------------------
  // Day keys: `strftime('%d/%m/%Y')`
  // ------------------------------------------------------------------

  /** The key `date_str`: "dd/mm/yyyy". The year is printed as the C library's
      `strftime` prints `%Y`, without padding. */
  function DayKey(d: Date): string
  {
    TwoDigits(d.day) + "/" + TwoDigits(d.month) + "/" + Decimal(d.year)
  }

  /** Distinct dates (day and month below 100) get distinct keys, so grouping by
      key is grouping by calendar date. */
  lemma DayKeyInjective(a: Date, b: Date)
    requires a.day < 100 && a.month < 100 && b.day < 100 && b.month < 100
    requires DayKey(a) == DayKey(b)
    ensures a == b
  {
    TwoDigitsRoundTrip(a.day);
    TwoDigitsRoundTrip(a.month);
    TwoDigitsRoundTrip(b.day);
    TwoDigitsRoundTrip(b.month);
    DecimalRoundTrip(a.year);
    DecimalRoundTrip(b.year);
    var ka := DayKey(a);
    var kb := DayKey(b);
    assert ka[..2] == TwoDigits(a.day) && kb[..2] == TwoDigits(b.day);
    assert ka[3..5] == TwoDigits(a.month) && kb[3..5] == TwoDigits(b.month);
    assert ka[6..] == Decimal(a.year) && kb[6..] == Decimal(b.year);
  }

  // ------------------------------------------------------------------
  // Python's string order
  // ------------------------------------------------------------------

  /** `a < b` on Python strings: lexicographic on code points, a proper prefix first. */
  predicate StrLess(a: string, b: string)
    decreases |a|
  {
    if a == [] then b != []
    else if b == [] then false
    else if a[0] != b[0] then a[0] < b[0]
    else StrLess(a[1..], b[1..])
  }

  lemma {:induction false} StrLessIrreflexive(a: string)
    ensures !StrLess(a, a)
    decreases |a|
  {
    if a != [] {
      StrLessIrreflexive(a[1..]);
    }
  }

  lemma {:induction false} StrLessTransitive(a: string, b: string, c: string)
    requires StrLess(a, b) && StrLess(b, c)
    ensures StrLess(a, c)
    decreases |a|
  {
    if a != [] && b != [] && c != [] && a[0] == b[0] && b[0] == c[0] {
      StrLessTransitive(a[1..], b[1..], c[1..]);
    }
  }

  lemma {:induction false} StrLessTotal(a: string, b: string)
    requires a != b
    ensures StrLess(a, b) || StrLess(b, a)
    decreases |a|
  {
    if a != [] && b != [] && a[0] == b[0] {
      assert a == [a[0]] + a[1..] && b == [b[0]] + b[1..];
      StrLessTotal(a[1..], b[1..]);
    }
  }

  predicate Ascending(s: seq<string>)
  {
    forall i, j :: 0 <= i < j < |s| ==> StrLess(s[i], s[j])
  }

  /** Inserts a new key before the first larger one. */
  function InsertKey(x: string, s: seq<string>): (r: seq<string>)
    ensures |r| == |s| + 1
    ensures forall y :: y in r <==> y == x || y in s
  {
    if s == [] || StrLess(x, s[0]) then [x] + s
    else [s[0]] + InsertKey(x, s[1..])
  }

  lemma {:induction false} InsertKeyAscending(x: string, s: seq<string>)
    requires Ascending(s) && x !in s
    ensures Ascending(InsertKey(x, s))
    decreases |s|
  {
    var r := InsertKey(x, s);
    if s == [] || StrLess(x, s[0]) {
      forall i, j | 0 <= i < j < |r| ensures StrLess(r[i], r[j]) {
        if i == 0 {
          if j > 1 {
            StrLessTransitive(x, s[0], s[j - 1]);
          }
        } else {
          assert r[i] == s[i - 1] && r[j] == s[j - 1];
        }
      }
    } else {
      StrLessTotal(x, s[0]);
      InsertKeyAscending(x, s[1..]);
      var rest := InsertKey(x, s[1..]);
      forall j | 0 <= j < |rest| ensures StrLess(s[0], rest[j]) {
        if rest[j] != x {
          assert rest[j] in s[1..];
          var k :| 0 <= k < |s[1..]| && s[1..][k] == rest[j];
          assert s[k + 1] == rest[j];
        }
      }
      forall i, j | 0 <= i < j < |r| ensures StrLess(r[i], r[j]) {
        assert r[j] == rest[j - 1];
        if i > 0 {
          assert r[i] == rest[i - 1];
        }
      }
    }
  }

  /** `sorted(...)` over the distinct keys of a dict. */
  function SortKeys(s: seq<string>): (r: seq<string>)
    ensures |r| == |s|
    ensures forall y :: y in r <==> y in s
  {
    if s == [] then [] else InsertKey(s[|s| - 1], SortKeys(s[..|s| - 1]))
  }

  predicate Distinct(s: seq<string>)
  {
    forall i, j :: 0 <= i < j < |s| ==> s[i] != s[j]
  }

  /** Sorting distinct keys puts them in ascending order. */
  lemma {:induction false} SortKeysAscending(s: seq<string>)
    requires Distinct(s)
    ensures Ascending(SortKeys(s))
    decreases |s|
  {
    if s != [] {
      var init := s[..|s| - 1];
      SortKeysAscending(init);
      assert s[|s| - 1] !in init;
      InsertKeyAscending(s[|s| - 1], SortKeys(init));
    }
  }

  /** Keys sort by day first, then month, then year: a later date can come first. */
  lemma KeyOrderIsNotChronological()
    ensures StrLess(DayKey(Date(2024, 1, 1)), DayKey(Date(2023, 1, 2)))
  {
    assert DayKey(Date(2024, 1, 1)) == "01/01/2024";
    assert DayKey(Date(2023, 1, 2)) == "02/01/2023";
  }

  // ------------------------------------------------------------------
  // Lines and totals
  // ------------------------------------------------------------------

  /** Lower-cases ASCII letters. No other character lower-cases to one of the
      letters of "saldo", so the test below decides as `str.lower()` would. */
  function LowerAscii(s: string): (r: string)
    ensures |r| == |s|
  {
    seq(|s|, i requires 0 <= i < |s| => if 'A' <= s[i] <= 'Z' then (s[i] as int + 32) as char else s[i])
  }

  /** `w in s` on strings: `w` occurs in `s` as a contiguous piece. */
  predicate Contains(s: string, w: string)
    decreases |s|
  {
    |w| <= |s| && (s[..|w|] == w || Contains(s[1..], w))
  }

  /** `"saldo" in trans["descricao"].lower()`: a balance line, left out of the totals. */
  predicate IsBalanceLine(x: Txn)
  {
    Contains(LowerAscii(x.desc), "saldo")
  }

  /** A statement line that enters the statement totals (it must be dated). */
  predicate StatementCounts(x: Txn)
  {
    !IsBalanceLine(x)
  }

  /** A result row that enters the report totals: it has a report side and a
      "Conciliado" or "Conciliado (Soma)" status. */
  predicate ReportCounts(r: Row)
  {
    r.rel.Some? && (r.status == Reconciled || r.status == ReconciledBySum)
  }

  /** `strftime` on a missing date raises: a counted statement line without a date. */
  predicate StatementUndated(ofx: seq<Txn>)
  {
    exists i :: 0 <= i < |ofx| && StatementCounts(ofx[i]) && ofx[i].when.None?
  }

  /** A counted result row whose report record has no date. */
  predicate ReportUndated(rows: seq<Row>)
  {
    exists i :: 0 <= i < |rows| && ReportCounts(rows[i]) && rows[i].rel.value.when.None?
  }

  /** The day key of a dated statement line, if it counts. */
  function StatementKey(x: Txn): Option<string>
  {
    if StatementCounts(x) && x.when.Some? then Some(DayKey(x.when.value.date)) else None
  }

  /** The day key of a counted row's report record, if dated. */
  function ReportKey(r: Row): Option<string>
  {
    if ReportCounts(r) && r.rel.value.when.Some? then Some(DayKey(r.rel.value.when.value.date)) else None
  }

  /** `extrato_total` of day `key`. */
  function StatementTotal(ofx: seq<Txn>, key: string): real
  {
    if ofx == [] then 0.0
    else
      var x := ofx[|ofx| - 1];
      StatementTotal(ofx[..|ofx| - 1], key) + (if StatementKey(x) == Some(key) then x.amount else 0.0)
  }

  /** `relatorio_total` of day `key`: the report amount of every counted row, once per row. */
  function ReportTotal(rows: seq<Row>, key: string): real
  {
    if rows == [] then 0.0
    else
      var r := rows[|rows| - 1];
      ReportTotal(rows[..|rows| - 1], key) + (if ReportKey(r) == Some(key) then r.rel.value.amount else 0.0)
  }

  /** The keys of `rows_by_date` that come from the statement. */
  function StatementKeys(ofx: seq<Txn>): set<string>
  {
    set i | 0 <= i < |ofx| && StatementKey(ofx[i]).Some? :: StatementKey(ofx[i]).value
  }

  /** The keys of `rows_by_date` that come from the result rows. */
  function ReportKeys(rows: seq<Row>): set<string>
  {
    set i | 0 <= i < |rows| && ReportKey(rows[i]).Some? :: ReportKey(rows[i]).value
  }

  /** Appending a statement line adds its amount to its own day only. */
  lemma StatementTotalAppend(s: seq<Txn>, x: Txn, k: string)
    ensures StatementTotal(s + [x], k) == StatementTotal(s, k) + (if StatementKey(x) == Some(k) then x.amount else 0.0)
  {
    assert (s + [x])[..|s|] == s;
  }

  /** Appending a statement line adds its key, if it has one. */
  lemma StatementKeysAppend(s: seq<Txn>, x: Txn)
    ensures StatementKeys(s + [x]) == StatementKeys(s) + (if StatementKey(x).Some? then {StatementKey(x).value} else {})
  {
    var t := s + [x];
    assert forall i :: 0 <= i < |s| ==> t[i] == s[i];
    if StatementKey(x).Some? {
      assert StatementKey(t[|s|]).value in StatementKeys(t);
    }
  }

  /** Appending a statement line makes the summary fail exactly when that line counts
      and has no date. */
  lemma StatementUndatedAppend(s: seq<Txn>, x: Txn)
    ensures StatementUndated(s + [x]) <==> StatementUndated(s) || (StatementCounts(x) && x.when.None?)
  {
    var t := s + [x];
    assert forall i :: 0 <= i < |s| ==> t[i] == s[i];
    if StatementCounts(x) && x.when.None? {
      assert t[|s|] == x;
    }
    if StatementUndated(t) && !StatementUndated(s) {
      var i :| 0 <= i < |t| && StatementCounts(t[i]) && t[i].when.None?;
      assert i == |s|;
    }
  }

  /** A day with no counted statement line has a statement total of zero. */
  lemma {:induction false} StatementTotalAbsent(s: seq<Txn>, k: string)
    requires k !in StatementKeys(s)
    ensures StatementTotal(s, k) == 0.0
  {
    if s != [] {
      var p := s[..|s| - 1];
      assert p + [s[|s| - 1]] == s;
      StatementKeysAppend(p, s[|s| - 1]);
      StatementTotalAbsent(p, k);
    }
  }

  /** Appending a result row adds its report amount to its record's day only. */
  lemma ReportTotalAppend(rows: seq<Row>, r: Row, k: string)
    ensures ReportTotal(rows + [r], k) == ReportTotal(rows, k) + (if ReportKey(r) == Some(k) then r.rel.value.amount else 0.0)
  {
    assert (rows + [r])[..|rows|] == rows;
  }

  /** Appending a result row adds its record's key, if it counts and is dated. */
  lemma ReportKeysAppend(rows: seq<Row>, r: Row)
    ensures ReportKeys(rows + [r]) == ReportKeys(rows) + (if ReportKey(r).Some? then {ReportKey(r).value} else {})
  {
    var t := rows + [r];
    assert forall i :: 0 <= i < |rows| ==> t[i] == rows[i];
    if ReportKey(r).Some? {
      assert ReportKey(t[|rows|]).value in ReportKeys(t);
    }
  }

  /** Appending a result row makes the summary fail exactly when that row counts and
      its report record has no date. */
  lemma ReportUndatedAppend(rows: seq<Row>, r: Row)
    ensures ReportUndated(rows + [r]) <==> ReportUndated(rows) || (ReportCounts(r) && r.rel.value.when.None?)
  {
    var t := rows + [r];
    assert forall i :: 0 <= i < |rows| ==> t[i] == rows[i];
    if ReportCounts(r) && r.rel.value.when.None? {
      assert t[|rows|] == r;
    }
    if ReportUndated(t) && !ReportUndated(rows) {
      var i :| 0 <= i < |t| && ReportCounts(t[i]) && t[i].rel.value.when.None?;
      assert i == |rows|;
    }
  }

  /** A day with no counted, dated result row has a report total of zero. */
  lemma {:induction false} ReportTotalAbsent(rows: seq<Row>, k: string)
    requires k !in ReportKeys(rows)
    ensures ReportTotal(rows, k) == 0.0
  {
    if rows != [] {
      var p := rows[..|rows| - 1];
      assert p + [rows[|rows| - 1]] == rows;
      ReportKeysAppend(p, rows[|rows| - 1]);
      ReportTotalAbsent(p, k);
    }
  }

  /** The two running totals of one entry of `rows_by_date`. */
  datatype DayTotals = DayTotals(statement: real, report: real)

  /** `t` with `amount` added to one of the two totals of day `k`'s entry, which is
      created at zero when `k` is not yet a key. */
  function AddTo(t: map<string, DayTotals>, k: string, amount: real, toStatement: bool): (r: map<string, DayTotals>)
    ensures r.Keys == t.Keys + {k}
    ensures forall j :: j in t && j != k ==> r[j] == t[j]
  {
    var e := if k in t then t[k] else DayTotals(0.0, 0.0);
    if toStatement then t[k := e.(statement := e.statement + amount)]
    else t[k := e.(report := e.report + amount)]
  }

  /** One statement line's effect on `rows_by_date`. */
  function StatementStep(t: map<string, DayTotals>, x: Txn): map<string, DayTotals>
  {
    match StatementKey(x)
    case None => t
    case Some(k) => AddTo(t, k, x.amount, true)
  }

  /** One result row's effect on `rows_by_date`. */
  function ReportStep(t: map<string, DayTotals>, r: Row): map<string, DayTotals>
  {
    match ReportKey(r)
    case None => t
    case Some(k) => AddTo(t, k, r.rel.value.amount, false)
  }

  /** `rows_by_date` after the statement loop. */
  function StatementTable(ofx: seq<Txn>): map<string, DayTotals>
  {
    if ofx == [] then map[]
    else StatementStep(StatementTable(ofx[..|ofx| - 1]), ofx[|ofx| - 1])
  }

  /** `rows_by_date` after the result-row loop, from the table `t0` the statement loop left. */
  function ReportTable(t0: map<string, DayTotals>, rows: seq<Row>): map<string, DayTotals>
  {
    if rows == [] then t0
    else ReportStep(ReportTable(t0, rows[..|rows| - 1]), rows[|rows| - 1])
  }

  /** One more statement line is one more step. */
  lemma StatementTableAppend(s: seq<Txn>, x: Txn)
    ensures StatementTable(s + [x]) == StatementStep(StatementTable(s), x)
  {
    assert (s + [x])[..|s|] == s;
  }

  /** One more result row is one more step. */
  lemma ReportTableAppend(t0: map<string, DayTotals>, rows: seq<Row>, r: Row)
    ensures ReportTable(t0, rows + [r]) == ReportStep(ReportTable(t0, rows), r)
  {
    assert (rows + [r])[..|rows|] == rows;
  }

  /** The statement table holds exactly the statement days, each with its day's total. */
  lemma {:induction false} StatementTableFacts(ofx: seq<Txn>)
    ensures StatementTable(ofx).Keys == StatementKeys(ofx)
    ensures forall k :: k in StatementTable(ofx) ==> StatementTable(ofx)[k] == DayTotals(StatementTotal(ofx, k), 0.0)
  {
    if ofx != [] {
      var p := ofx[..|ofx| - 1];
      var x := ofx[|ofx| - 1];
      assert p + [x] == ofx;
      StatementTableFacts(p);
      StatementKeysAppend(p, x);
      var t := StatementTable(p);
      forall k | k in StatementTable(ofx)
        ensures StatementTable(ofx)[k] == DayTotals(StatementTotal(ofx, k), 0.0)
      {
        StatementTotalAppend(p, x, k);
        if k !in t {
          StatementTotalAbsent(p, k);
        }
      }
    }
  }

  /** After both loops the table holds exactly the days of the statement and of the
      counted rows, each with both of its totals. */
  lemma {:induction false} ReportTableFacts(ofx: seq<Txn>, rows: seq<Row>)
    ensures ReportTable(StatementTable(ofx), rows).Keys == StatementKeys(ofx) + ReportKeys(rows)
    ensures forall k :: k in ReportTable(StatementTable(ofx), rows) ==>
      ReportTable(StatementTable(ofx), rows)[k] == DayTotals(StatementTotal(ofx, k), ReportTotal(rows, k))
  {
    if rows == [] {
      StatementTableFacts(ofx);
    } else {
      var p := rows[..|rows| - 1];
      var r := rows[|rows| - 1];
      assert p + [r] == rows;
      ReportTableFacts(ofx, p);
      ReportKeysAppend(p, r);
      var t := ReportTable(StatementTable(ofx), p);
      forall k | k in ReportTable(StatementTable(ofx), rows)
        ensures ReportTable(StatementTable(ofx), rows)[k] == DayTotals(StatementTotal(ofx, k), ReportTotal(rows, k))
      {
        ReportTotalAppend(p, r, k);
        if k !in t {
          StatementTotalAbsent(ofx, k);
          ReportTotalAbsent(p, k);
        }
      }
    }
  }

  /** One aggregated row: its key, both totals, and whether it balances (tag "match"). */
  datatype DayRow = DayRow(day: string, statementTotal: real, reportTotal: real, balanced: bool)

  /** The row of day `key` as the summary computes it. */
  function DayRowOf(ofx: seq<Txn>, rows: seq<Row>, key: string): (r: DayRow)
    ensures r.day == key
    ensures r.balanced <==> Abs(r.statementTotal - r.reportTotal) < DayTolerance
  {
    var s := StatementTotal(ofx, key);
    var t := ReportTotal(rows, key);
    DayRow(key, s, t, Abs(s - t) < DayTolerance)
  }

  /** `a + a + ... + a`, `n` times. */
  function Repeated(n: nat, a: real): real
  {
    if n == 0 then 0.0 else Repeated(n - 1, a) + a
  }

  /** `n` copies of `a` add up to `n * a`. */
  lemma {:induction false} RepeatedIsProduct(n: nat, a: real)
    ensures Repeated(n, a) == (n as real) * a
  {
    if n != 0 {
      RepeatedIsProduct(n - 1, a);
      var m := (n - 1) as real;
      assert (m + 1.0) * a == m * a + a;
    }
  }

  /** Rows that all add the same amount `a` to day `k` total `|rows|` copies of `a` there. */
  lemma {:induction false} SameAmountTotal(rows: seq<Row>, k: string, a: real)
    requires forall i :: 0 <= i < |rows| ==> ReportKey(rows[i]) == Some(k) && rows[i].rel.value.amount == a
    ensures ReportTotal(rows, k) == Repeated(|rows|, a)
  {
    if rows != [] {
      var p := rows[..|rows| - 1];
      var r := rows[|rows| - 1];
      assert ReportKey(r) == Some(k) && r.rel.value.amount == a;
      SameAmountTotal(p, k, a);
      assert ReportTotal(rows, k) == ReportTotal(p, k) + a;
      assert Repeated(|rows|, a) == Repeated(|p|, a) + a;
    }
  }

  /** A report record referenced by several counted rows is added once per row: a
      reverse match of `k` statement records adds its report amount `k` times. */
  lemma RepeatedRecordCountsPerRow(rows: seq<Row>, x: Txn)
    requires x.when.Some?
    requires forall i :: 0 <= i < |rows| ==> rows[i].rel == Some(x) && ReportCounts(rows[i])
    ensures ReportTotal(rows, DayKey(x.when.value.date)) == Repeated(|rows|, x.amount)
  {
    var k := DayKey(x.when.value.date);
    forall i | 0 <= i < |rows| ensures ReportKey(rows[i]) == Some(k) && rows[i].rel.value.amount == x.amount {
      assert rows[i].rel == Some(x);
    }
    SameAmountTotal(rows, k, x.amount);
  }
}
