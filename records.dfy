/** The transaction records and result rows shared by the reconciliation engine
    (reconciliation.py) and the report loader (data_loader.py). */
module Records {

  datatype Option<+T> = None | Some(value: T)

  /** A calendar date: what `datetime.date()` keeps of a timestamp. */
  datatype Date = Date(year: nat, month: nat, day: nat)

  /** A Python `datetime`: its calendar date and its time of day in seconds.
      Matching compares only `date`; record equality compares both. */
  datatype Stamp = Stamp(date: Date, secondOfDay: nat)

  /** The keys the report loader adds to each report record ('conta', 'receita', 'despesa'). */
  datatype LedgerFields = LedgerFields(account: string, income: real, expense: real)

  /** One transaction dict: 'data' (possibly None), 'valor', 'descricao' and, on
      report records, the loader's extra keys. Two records are the same record
      exactly when they are equal values, as Python's dict `==` decides. */
  datatype Txn = Txn(when: Option<Stamp>, amount: real, desc: string, ledger: Option<LedgerFields>)

  /** The status strings of a result row: "Conciliado", "Conciliado (Soma)", "Não conciliado". */
  datatype Status = Reconciled | ReconciledBySum | Unreconciled

  /** One entry of `resultado`: the statement side, the report side (either may be None) and the status. */
  datatype Row = Row(ofx: Option<Txn>, rel: Option<Txn>, status: Status)

  /** The matchers' tolerance `tol=1e-4`. */
  const Tolerance: real := 0.0001

  function Abs(x: real): real
  {
    if x < 0.0 then -x else x
  }

  /** `abs(a - b) < tol`. */
  predicate Near(a: real, b: real)
  {
    Abs(a - b) < Tolerance
  }

  /** `x["data"] and x["data"].date() == d`: the record is dated, on day `d`
      (a missing `d` never compares equal to a date). */
  predicate OnDay(x: Txn, d: Option<Date>)
  {
    x.when.Some? && d == Some(x.when.value.date)
  }

  /** `x["data"].date() if x["data"] else None`. */
  function DayOf(x: Txn): Option<Date>
  {
    if x.when.Some? then Some(x.when.value.date) else None
  }

  /** `sum(item["valor"] for item in s)`. */
  function Sum(s: seq<Txn>): real
  {
    if s == [] then 0.0 else Sum(s[..|s| - 1]) + s[|s| - 1].amount
  }

  function Min(a: nat, b: nat): nat
  {
    if a <= b then a else b
  }
}
