/** The `Conciliador` class of reconciliation.py: its two mutable lists and the
    methods that search, remove and append, each proved to leave the state that
    the functions of module Matching describe. */
module Reconciliation {
  import opened Records
  import opened Lists
  import opened Combinations
  import opened Matching
  import opened MatchingProperties
  import opened DailySummary

  class Conciliador {
    /** `trans_ofx`: the bank statement records. */
    const transOfx: seq<Txn>
    /** `trans_rel`: a copy of the report records. */
    const transRel: seq<Txn>
    /** `resultado`: the result rows, appended to. */
    var resultado: seq<Row>
    /** `nao_conciliadas_rel`: the report records not yet matched, shrunk by `remove`. */
    var naoConciliadasRel: seq<Txn>
    /** The report records removed so far, in removal order (not kept by the source). */
    ghost var consumed: seq<Txn>

    ghost function Snapshot(): State
      reads this
    {
      State(resultado, naoConciliadasRel, consumed)
    }

    /** Every report record is either still unmatched or was removed exactly once. */
    ghost predicate Valid()
      reads this
    {
      Accounts(Snapshot(), transRel)
    }

    /** `__init__`: both lists are copies of the report records; no rows yet. */
    constructor(ofx: seq<Txn>, rel: seq<Txn>)
      ensures transOfx == ofx && transRel == rel
      ensures resultado == [] && naoConciliadasRel == rel && consumed == []
      ensures Valid()
    {
      transOfx := ofx;
      transRel := rel;
      resultado := [];
      naoConciliadasRel := rel;
      consumed := [];
    }

    /** `_achar_match_exato(data, valor)`. */
    method FindExact(d: Option<Date>, v: real) returns (r: Option<Txn>)
      requires Valid()
      modifies this
      ensures var t := TakeExact(old(Snapshot()), d, v); r == t.result && Snapshot() == t.after
      ensures Valid()
    {
      ghost var st := Snapshot();
      ghost var t := TakeExact(st, d, v);
      var i := 0;
      while i < |naoConciliadasRel|
        invariant 0 <= i <= |naoConciliadasRel|
        invariant naoConciliadasRel == st.pool && resultado == st.rows && consumed == st.taken
        invariant forall j :: 0 <= j < i ==> !ExactFits(st.pool[j], d, v)
      {
        var x := naoConciliadasRel[i];
        if x.when.Some? && d == Some(x.when.value.date) {
          if Abs(x.amount - v) < Tolerance {
            assert FirstExact(st.pool, d, v) == Some(i);
            assert t.after == st.(pool := RemoveFirst(st.pool, x), taken := st.taken + [x]);
            naoConciliadasRel := RemoveFirst(naoConciliadasRel, x);
            consumed := consumed + [x];
            TakeExactAccounts(st, d, v, transRel);
            return Some(x);
          }
        }
        i := i + 1;
      }
      assert FirstExact(st.pool, d, v) == None;
      return None;
    }

    /** `_achar_match_duplo(data, valor)`: the search, then one `remove` per chosen record. */
    method FindCombination(d: Option<Date>, v: real) returns (r: Option<seq<Txn>>)
      requires Valid()
      modifies this
      ensures var t := TakeCombination(old(Snapshot()), d, v); r == t.result && Snapshot() == t.after
      ensures Valid()
    {
      ghost var st := Snapshot();
      r := SearchCombination(naoConciliadasRel, d, v);
      TakeCombinationCases(st, d, v);
      if r.Some? {
        var rest := RemoveAll(naoConciliadasRel, r.value);
        TakeCombinationAccounts(st, d, v, transRel);
        naoConciliadasRel, consumed := rest, consumed + r.value;
      }
    }

    /** `_achar_match_inverso(ofx_item)`: the search, then one row per partner and the
        removal of the report record. */
    method FindReverse(anchor: Txn) returns (r: Option<Txn>)
      requires Valid()
      modifies this
      ensures var t := TakeReverse(transOfx, old(Snapshot()), anchor); r == t.result && Snapshot() == t.after
      ensures Valid()
    {
      ghost var st := Snapshot();
      var hit := SearchReverse(transOfx, resultado, naoConciliadasRel, anchor);
      TakeReverseCases(transOfx, st, anchor);
      if hit.None? {
        return None;
      }
      var relItem := naoConciliadasRel[hit.value.relIndex];
      var outros := Without(hit.value.group, anchor);
      resultado := AppendPartners(resultado, outros, relItem);
      naoConciliadasRel := RemoveFirst(naoConciliadasRel, relItem);
      consumed := consumed + [relItem];
      TakeReverseAccounts(transOfx, st, anchor, transRel);
      return Some(relItem);
    }

    /** `_encontrar_melhor_match(ofx_item)`. */
    method FindBestMatch(item: Txn) returns (m: Option<Found>)
      requires Valid()
      modifies this
      ensures var t := BestMatch(transOfx, old(Snapshot()), item); m == t.result && Snapshot() == t.after
      ensures Valid()
    {
      var data := if item.when.Some? then Some(item.when.value.date) else None;
      var valor := item.amount;
      var exato := FindExact(data, valor);
      if exato.Some? {
        return Some(Found(Single(exato.value), Reconciled));
      }
      var duplo := FindCombination(data, valor);
      if duplo.Some? {
        return Some(Found(Several(duplo.value), ReconciledBySum));
      }
      var inverso := FindReverse(item);
      if inverso.Some? {
        return Some(Found(Single(inverso.value), ReconciledBySum));
      }
      return None;
    }

    /** `_registrar_match(ofx_item, match)`. */
    method RegisterMatch(item: Txn, f: Found)
      modifies this
      ensures resultado == old(resultado) + RegisterRows(item, Reported(f.matched), f.status)
      ensures naoConciliadasRel == old(naoConciliadasRel) && consumed == old(consumed)
    {
      var itensRel := if f.matched.Several? then f.matched.rels else [f.matched.rel];
      var idx := 0;
      while idx < |itensRel|
        invariant 0 <= idx <= |itensRel|
        invariant resultado == old(resultado) + RegisterRows(item, itensRel[..idx], f.status)
        invariant naoConciliadasRel == old(naoConciliadasRel) && consumed == old(consumed)
      {
        assert itensRel[..idx + 1][..idx] == itensRel[..idx];
        resultado := resultado + [Row(Some(item), Some(itensRel[idx]), if idx == 0 then f.status else ReconciledBySum)];
        idx := idx + 1;
      }
      assert itensRel[..idx] == itensRel;
    }

    /** The matching loop of `_processar_conciliacoes_com_feedback`: the worklist is
        taken once, before the loop. */
    method ProcessMatches()
      requires Valid()
      modifies this
      ensures Snapshot() == Run(transOfx, old(Snapshot()), Worklist(transOfx, old(resultado)))
      ensures Valid()
    {
      var naoConciliadasOfx := Worklist(transOfx, resultado);
      ghost var goal := Run(transOfx, Snapshot(), naoConciliadasOfx);
      var i := 0;
      while i < |naoConciliadasOfx|
        invariant 0 <= i <= |naoConciliadasOfx|
        invariant Valid()
        invariant Run(transOfx, Snapshot(), naoConciliadasOfx[i..]) == goal
      {
        var ofxItem := naoConciliadasOfx[i];
        var found := FindBestMatch(ofxItem);
        if found.Some? {
          RegisterMatch(ofxItem, found.value);
        }
        assert naoConciliadasOfx[i..][1..] == naoConciliadasOfx[i + 1..];
        i := i + 1;
      }
    }

    /** `_processar_nao_conciliados`. */
    method ProcessUnmatched()
      modifies this
      ensures resultado == StatementResidues(transOfx, old(resultado)) + ReportResidues(naoConciliadasRel)
      ensures naoConciliadasRel == old(naoConciliadasRel) && consumed == old(consumed)
    {
      var i := 0;
      while i < |transOfx|
        invariant 0 <= i <= |transOfx|
        invariant resultado == StatementResidues(transOfx[..i], old(resultado))
        invariant naoConciliadasRel == old(naoConciliadasRel) && consumed == old(consumed)
      {
        var ofxItem := transOfx[i];
        assert transOfx[..i + 1][..i] == transOfx[..i];
        if !Appears(resultado, ofxItem) {
          resultado := resultado + [Row(Some(ofxItem), None, Unreconciled)];
        }
        i := i + 1;
      }
      assert transOfx[..i] == transOfx;
      ghost var afterStatement := resultado;
      var k := 0;
      while k < |naoConciliadasRel|
        invariant 0 <= k <= |naoConciliadasRel|
        invariant resultado == afterStatement + ReportResidues(naoConciliadasRel[..k])
        invariant naoConciliadasRel == old(naoConciliadasRel) && consumed == old(consumed)
      {
        assert naoConciliadasRel[..k + 1][..k] == naoConciliadasRel[..k];
        resultado := resultado + [Row(None, Some(naoConciliadasRel[k]), Unreconciled)];
        k := k + 1;
      }
      assert naoConciliadasRel[..k] == naoConciliadasRel;
    }

    /** The steps of `executar` that compute rows: matching, then residues. */
    method Execute()
      requires Valid()
      modifies this
      ensures var s := Run(transOfx, old(Snapshot()), Worklist(transOfx, old(resultado)));
        resultado == StatementResidues(transOfx, s.rows) + ReportResidues(s.pool)
        && naoConciliadasRel == s.pool
      ensures Valid()
    {
      ProcessMatches();
      ProcessUnmatched();
    }

    /** `agrupar_por_dia`: the per-day totals, sorted by key. It reads the fields and
        changes nothing. None stands for the exception `strftime` raises on a counted
        line without a date. */
    method GroupByDay() returns (r: Option<seq<DayRow>>)
      ensures r.None? <==> StatementUndated(transOfx) || ReportUndated(resultado)
      ensures r.Some? ==> forall i :: 0 <= i < |r.value| ==> r.value[i] == DayRowOf(transOfx, resultado, r.value[i].day)
      ensures r.Some? ==> forall k :: (exists i :: 0 <= i < |r.value| && r.value[i].day == k) <==>
                                       k in StatementKeys(transOfx) + ReportKeys(resultado)
      ensures r.Some? ==> forall i, j :: 0 <= i < j < |r.value| ==> StrLess(r.value[i].day, r.value[j].day)
    {
      var ok, rowsByDate := TallyStatement(transOfx);
      if !ok {
        return None;
      }
      ok, rowsByDate := TallyReport(resultado, rowsByDate);
      if !ok {
        return None;
      }
      ReportTableFacts(transOfx, resultado);
      var keys := ListKeys(rowsByDate.Keys);
      var ordered := SortKeys(keys);
      SortKeysAscending(keys);
      var aggregated := BuildDayRows(transOfx, resultado, rowsByDate, ordered);
      return Some(aggregated);
    }
  }

  /** The statement loop of `agrupar_por_dia`: every statement line that is not a balance
      line adds its amount to its day's entry, created on first sight. `ok` is false
      when such a line has no date. */
  method TallyStatement(ofx: seq<Txn>) returns (ok: bool, byDay: map<string, DayTotals>)
    ensures ok <==> !StatementUndated(ofx)
    ensures ok ==> byDay == StatementTable(ofx)
  {
    byDay := map[];
    var i := 0;
    while i < |ofx|
      invariant 0 <= i <= |ofx|
      invariant !StatementUndated(ofx[..i])
      invariant byDay == StatementTable(ofx[..i])
    {
      var trans := ofx[i];
      assert ofx[..i + 1] == ofx[..i] + [trans];
      StatementUndatedAppend(ofx[..i], trans);
      StatementTableAppend(ofx[..i], trans);
      var dated;
      dated, byDay := TallyLine(byDay, trans);
      if !dated {
        assert StatementCounts(ofx[i]) && ofx[i].when.None?;
        return false, byDay;
      }
      i := i + 1;
    }
    assert ofx[..i] == ofx;
    return true, byDay;
  }

  /** The result-row loop of `agrupar_por_dia`: every row with a report record and a
      "Conciliado" or "Conciliado (Soma)" status adds that record's amount to its day's
      entry, created on first sight. `ok` is false when such a record has no date. */
  method TallyReport(rows: seq<Row>, byDay0: map<string, DayTotals>) returns (ok: bool, byDay: map<string, DayTotals>)
    ensures ok <==> !ReportUndated(rows)
    ensures ok ==> byDay == ReportTable(byDay0, rows)
  {
    byDay := byDay0;
    var j := 0;
    while j < |rows|
      invariant 0 <= j <= |rows|
      invariant !ReportUndated(rows[..j])
      invariant byDay == ReportTable(byDay0, rows[..j])
    {
      var item := rows[j];
      assert rows[..j + 1] == rows[..j] + [item];
      ReportUndatedAppend(rows[..j], item);
      ReportTableAppend(byDay0, rows[..j], item);
      var dated;
      dated, byDay := TallyRow(byDay, item);
      if !dated {
        assert ReportCounts(rows[j]) && rows[j].rel.value.when.None?;
        return false, byDay;
      }
      j := j + 1;
    }
    assert rows[..j] == rows;
    return true, byDay;
  }

  /** One pass of the statement loop: a balance line is skipped; any other line adds
      its amount to its day's entry. `dated` is false when that line has no date. */
  method TallyLine(byDay0: map<string, DayTotals>, trans: Txn) returns (dated: bool, byDay: map<string, DayTotals>)
    ensures dated <==> !(StatementCounts(trans) && trans.when.None?)
    ensures dated ==> byDay == StatementStep(byDay0, trans)
  {
    byDay := byDay0;
    if IsBalanceLine(trans) {
      return true, byDay;
    }
    if trans.when.None? {
      return false, byDay;
    }
    var dateStr := DayKey(trans.when.value.date);
    if dateStr !in byDay {
      byDay := byDay[dateStr := DayTotals(0.0, 0.0)];
    }
    byDay := byDay[dateStr := byDay[dateStr].(statement := byDay[dateStr].statement + trans.amount)];
    return true, byDay;
  }

  /** One pass of the result-row loop: a row that counts adds its report record's
      amount to that record's day. `dated` is false when that record has no date. */
  method TallyRow(byDay0: map<string, DayTotals>, item: Row) returns (dated: bool, byDay: map<string, DayTotals>)
    ensures dated <==> !(ReportCounts(item) && item.rel.value.when.None?)
    ensures dated ==> byDay == ReportStep(byDay0, item)
  {
    byDay := byDay0;
    if item.rel.Some? && (item.status == Reconciled || item.status == ReconciledBySum) {
      var relItem := item.rel.value;
      if relItem.when.None? {
        return false, byDay;
      }
      var dateStr := DayKey(relItem.when.value.date);
      if dateStr !in byDay {
        byDay := byDay[dateStr := DayTotals(0.0, 0.0)];
      }
      byDay := byDay[dateStr := byDay[dateStr].(report := byDay[dateStr].report + relItem.amount)];
    }
    return true, byDay;
  }

  /** `rows_by_date.keys()`: the keys of the table, once each, in some order. */
  method ListKeys(ks: set<string>) returns (keys: seq<string>)
    ensures Distinct(keys)
    ensures forall k :: k in keys <==> k in ks
  {
    keys := [];
    var rest := ks;
    while rest != {}
      invariant rest <= ks
      invariant Distinct(keys)
      invariant forall k :: k in keys <==> k in ks && k !in rest
      decreases rest
    {
      var k :| k in rest;
      keys := keys + [k];
      rest := rest - {k};
    }
  }

  /** The aggregation loop of `agrupar_por_dia`: one row per key, in the given order,
      tagged "match" when the two totals differ by less than 0.01. */
  method BuildDayRows(ghost ofx: seq<Txn>, ghost rows: seq<Row>, byDay: map<string, DayTotals>, ordered: seq<string>)
      returns (aggregated: seq<DayRow>)
    requires forall k :: k in ordered ==> k in byDay && byDay[k] == DayTotals(StatementTotal(ofx, k), ReportTotal(rows, k))
    ensures |aggregated| == |ordered|
    ensures forall m :: 0 <= m < |ordered| ==> aggregated[m] == DayRowOf(ofx, rows, ordered[m])
  {
    aggregated := [];
    var n := 0;
    while n < |ordered|
      invariant 0 <= n <= |ordered|
      invariant |aggregated| == n
      invariant forall m :: 0 <= m < n ==> aggregated[m] == DayRowOf(ofx, rows, ordered[m])
    {
      var dateStr := ordered[n];
      var data := byDay[dateStr];
      var diff := Abs(data.statement - data.report);
      aggregated := aggregated + [DayRow(dateStr, data.statement, data.report, diff < DayTolerance)];
      n := n + 1;
    }
  }

  /** The search loops of `_achar_match_duplo`: the first combination of the capped,
      sign-filtered same-day candidates whose sum is within tolerance, sizes 2 to 4,
      giving up after 1000 sums. */
  method SearchCombination(pool: seq<Txn>, d: Option<Date>, v: real) returns (r: Option<seq<Txn>>)
    ensures r == ComboFind(pool, d, v)
  {
    var candidatas := SameDay(pool, d);
    if |candidatas| > MaxCandidates {
      candidatas := SortByDistance(candidatas, v)[..MaxCandidates];
    }
    candidatas := SignFilter(candidatas, v);
    assert candidatas == ComboCandidates(pool, d, v);
    r := ScanSizes(candidatas, v);
  }

  /** The loop of `_achar_match_duplo` over the sizes 2 to `min(4, len(candidatas))`. */
  method ScanSizes(candidatas: seq<Txn>, v: real) returns (r: Option<seq<Txn>>)
    ensures r == ScanSums(ComboBlocks(candidatas, 2, Min(MaxComboSize, |candidatas|)), v, 0)
  {
    ghost var goal := ScanSums(ComboBlocks(candidatas, 2, Min(MaxComboSize, |candidatas|)), v, 0);
    var checked: nat := 0;
    var top := Min(MaxComboSize, |candidatas|);
    var n: int := 2;
    while n <= top
      invariant 2 <= n
      invariant ScanSums(ComboBlocks(candidatas, n, top), v, checked) == goal
      decreases top + 1 - n
    {
      var found, stop, counted := ScanSize(candidatas, n, top, v, checked);
      if stop {
        return found;
      }
      checked := counted;
      n := n + 1;
    }
    assert ComboBlocks(candidatas, n, top) == [];
    return None;
  }

  /** One size `n` of `_achar_match_duplo`'s loop: skipped when `math.comb` exceeds
      10000, otherwise its combinations in order. `stop` and `counted` as for
      `ScanCombos`. */
  method ScanSize(candidatas: seq<Txn>, n: nat, ghost top: nat, v: real, checked: nat)
      returns (found: Option<seq<Txn>>, stop: bool, counted: nat)
    requires n <= top
    ensures stop ==> found == ScanSums(ComboBlocks(candidatas, n, top), v, checked)
    ensures !stop ==> found.None? && ScanSums(ComboBlocks(candidatas, n, top), v, checked) == ScanSums(ComboBlocks(candidatas, n + 1, top), v, counted)
  {
    ComboBlocksStep(candidatas, n, top);
    if Binomial(|candidatas|, n) > MaxEstimate {
      return None, false, checked;
    }
    var combos := Combos(candidatas, n);
    found, stop, counted := ScanCombos(combos, ComboBlocks(candidatas, n + 1, top), v, checked);
  }

  /** The inner loop of `_achar_match_duplo` over the combinations of one size. `stop`
      says the search ended here, with `found` or with the 1000-sum budget spent;
      otherwise `counted` is the number of missed sums so far and the search goes on
      with `tail`, the larger sizes. */
  method ScanCombos(combos: seq<seq<Txn>>, ghost tail: seq<seq<Txn>>, v: real, checked: nat)
      returns (found: Option<seq<Txn>>, stop: bool, counted: nat)
    ensures stop ==> found == ScanSums(combos + tail, v, checked)
    ensures !stop ==> found.None? && ScanSums(combos + tail, v, checked) == ScanSums(tail, v, counted)
  {
    counted := checked;
    var j := 0;
    while j < |combos|
      invariant 0 <= j <= |combos|
      invariant ScanSums(combos[j..] + tail, v, counted) == ScanSums(combos + tail, v, checked)
    {
      var rest := combos[j..] + tail;
      assert rest[0] == combos[j] && rest[1..] == combos[j + 1..] + tail;
      if counted >= MaxCombinations {
        return None, true, counted;
      }
      var combo := combos[j];
      if !OneSign(combo) {
        j := j + 1;
        continue;
      }
      if Abs(Sum(combo) - v) < Tolerance {
        return Some(combo), true, counted;
      }
      counted := counted + 1;
      j := j + 1;
    }
    assert combos[j..] + tail == tail;
    return None, false, counted;
  }

  /** The removal loop of `_achar_match_duplo`: `remove` each chosen record in turn. */
  method RemoveAll(pool: seq<Txn>, xs: seq<Txn>) returns (r: seq<Txn>)
    requires multiset(xs) <= multiset(pool)
    ensures r == RemoveEach(pool, xs)
  {
    r := pool;
    var k := 0;
    while k < |xs|
      invariant 0 <= k <= |xs|
      invariant multiset(xs[k..]) <= multiset(r)
      invariant RemoveEach(r, xs[k..]) == RemoveEach(pool, xs)
    {
      RemoveEachStep(r, xs[k..]);
      assert xs[k..][1..] == xs[k + 1..];
      r := RemoveFirst(r, xs[k]);
      k := k + 1;
    }
  }

  /** The row loop of `_achar_match_inverso`: one "Conciliado (Soma)" row per partner,
      each paired with the matched report record. */
  method AppendPartners(rows: seq<Row>, partners: seq<Txn>, rel: Txn) returns (r: seq<Row>)
    ensures r == rows + PartnerRows(partners, rel)
  {
    r := rows;
    var m := 0;
    while m < |partners|
      invariant 0 <= m <= |partners|
      invariant r == rows + PartnerRows(partners[..m], rel)
    {
      assert partners[..m + 1][..m] == partners[..m];
      r := r + [Row(Some(partners[m]), Some(rel), ReconciledBySum)];
      m := m + 1;
    }
    assert partners[..m] == partners;
  }

  /** The search loops of `_achar_match_inverso`: the first group, by size and then in
      combination order, that holds the anchor, has one sign, and whose sum some
      same-day, same-sign report record matches within tolerance; with that record's
      position. None when the anchor has no date. */
  method SearchReverse(ofx: seq<Txn>, rows: seq<Row>, pool: seq<Txn>, anchor: Txn) returns (h: Option<ReverseHit>)
    ensures h == ReverseFind(ofx, rows, pool, anchor)
  {
    if anchor.when.None? {
      return None;
    }
    var d := anchor.when.value.date;
    var todos := [anchor] + Partners(ofx, rows, anchor, d);
    h := ScanReverseSizes(todos, anchor, pool, d);
  }

  /** The loop of `_achar_match_inverso` over the group sizes 2 to `min(5, len(todos))`. */
  method ScanReverseSizes(todos: seq<Txn>, anchor: Txn, pool: seq<Txn>, d: Date) returns (h: Option<ReverseHit>)
    ensures h == ScanGroups(SizeBlocks(todos, 2, Min(MaxReverseSize, |todos|)), anchor, pool, d)
  {
    ghost var goal := ScanGroups(SizeBlocks(todos, 2, Min(MaxReverseSize, |todos|)), anchor, pool, d);
    var top := Min(MaxReverseSize, |todos|);
    var n: int := 2;
    while n <= top
      invariant 2 <= n
      invariant ScanGroups(SizeBlocks(todos, n, top), anchor, pool, d) == goal
      decreases top + 1 - n
    {
      ghost var tail := SizeBlocks(todos, n + 1, top);
      var combos := Combos(todos, n);
      assert combos + tail == SizeBlocks(todos, n, top);
      h := ScanReverseCombos(combos, tail, anchor, pool, d);
      if h.Some? {
        return h;
      }
      n := n + 1;
    }
    assert SizeBlocks(todos, n, top) == [];
    return None;
  }

  /** The loop of `_achar_match_inverso` over the groups of one size: the first accepted
      group with its report record, or None when the search goes on with `tail`. */
  method ScanReverseCombos(combos: seq<seq<Txn>>, ghost tail: seq<seq<Txn>>, anchor: Txn, pool: seq<Txn>, d: Date)
      returns (h: Option<ReverseHit>)
    ensures h.Some? ==> h == ScanGroups(combos + tail, anchor, pool, d)
    ensures h.None? ==> ScanGroups(combos + tail, anchor, pool, d) == ScanGroups(tail, anchor, pool, d)
  {
    var j := 0;
    while j < |combos|
      invariant 0 <= j <= |combos|
      invariant ScanGroups(combos[j..] + tail, anchor, pool, d) == ScanGroups(combos + tail, anchor, pool, d)
    {
      var rest := combos[j..] + tail;
      assert rest[0] == combos[j] && rest[1..] == combos[j + 1..] + tail;
      var combo := combos[j];
      if anchor !in combo || !OneSign(combo) {
        j := j + 1;
        continue;
      }
      var k := FindSumFit(pool, d, Sum(combo));
      if k.Some? {
        return Some(ReverseHit(combo, k.value));
      }
      j := j + 1;
    }
    assert combos[j..] + tail == tail;
    return None;
  }

  /** The innermost loop of `_achar_match_inverso`: the first report record dated `d`,
      of the sign of `total` and within tolerance of it. */
  method FindSumFit(pool: seq<Txn>, d: Date, total: real) returns (k: Option<nat>)
    ensures k == FirstSumFit(pool, d, total)
  {
    var i := 0;
    while i < |pool|
      invariant 0 <= i <= |pool|
      invariant forall j :: 0 <= j < i ==> !SumFits(pool[j], d, total)
    {
      var relItem := pool[i];
      if relItem.when.Some? && relItem.when.value.date == d {
        if (total > 0.0 && relItem.amount > 0.0) || (total < 0.0 && relItem.amount < 0.0) {
          if Abs(relItem.amount - total) < Tolerance {
            return Some(i);
          }
        }
      }
      i := i + 1;
    }
    return None;
  }

}
