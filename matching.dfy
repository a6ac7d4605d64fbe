/** The matching rules of `Conciliador` (reconciliation.py) as functions of the
    engine's state: what each matcher finds, and the state it leaves behind. The
    class in conciliador.dfy runs the same steps imperatively and is proved equal
    to these functions; the lemmas here state what the rules guarantee. */
module Matching {
  import opened Records
  import opened Lists
  import opened Combinations

  /** `max_candidatas`. */
  const MaxCandidates: nat := 15
  /** The upper bound of `max_combo_size = min(4, len(candidatas))`. */
  const MaxComboSize: nat := 4
  /** `max_combinations`. */
  const MaxCombinations: nat := 1000
  /** The `estimated_combinations > 10000` skip threshold. */
  const MaxEstimate: nat := 10000
  /** The upper bound of `max_combinacoes = min(5, len(todos_itens))`. */
  const MaxReverseSize: nat := 5

  /** The engine's working state: `resultado`, `nao_conciliadas_rel`, and the report
      records the matchers have taken out of `nao_conciliadas_rel` so far (an
      audit trail the source does not keep). */
  datatype State = State(rows: seq<Row>, pool: seq<Txn>, taken: seq<Txn>)

  /** What a matcher returns, with the state it leaves. */
  datatype Taken<T> = Taken(result: Option<T>, after: State)

  // ------------------------------------------------------------------
  // Exact match (_achar_match_exato)
  // ------------------------------------------------------------------

  /** A report record an exact match accepts: same day, amount within the tolerance. */
  predicate ExactFits(r: Txn, d: Option<Date>, v: real)
  {
    OnDay(r, d) && Near(r.amount, v)
  }

  /** The position of the first pool record an exact match accepts. */
  function FirstExact(pool: seq<Txn>, d: Option<Date>, v: real): (k: Option<nat>)
    ensures k.Some? ==> k.value < |pool| && ExactFits(pool[k.value], d, v)
    ensures k.Some? ==> forall j :: 0 <= j < k.value ==> !ExactFits(pool[j], d, v)
    ensures k.None? ==> forall j :: 0 <= j < |pool| ==> !ExactFits(pool[j], d, v)
  {
    if pool == [] then None
    else if ExactFits(pool[0], d, v) then Some(0)
    else match FirstExact(pool[1..], d, v)
      case None => None
      case Some(k) => Some(k + 1)
  }

  /** `_achar_match_exato(d, v)`: removes and returns the first fitting record. */
  function TakeExact(st: State, d: Option<Date>, v: real): Taken<Txn>
  {
    match FirstExact(st.pool, d, v)
    case None => Taken(None, st)
    case Some(k) =>
      var r := st.pool[k];
      Taken(Some(r), st.(pool := RemoveFirst(st.pool, r), taken := st.taken + [r]))
  }

  /** The exact matcher returns the first record, in pool order, with the statement's
      date and an amount within 1e-4, and removes exactly that position from the pool;
      when there is none it returns None and changes nothing. An undated statement
      never matches. */
  lemma TakeExactEffect(st: State, d: Option<Date>, v: real)
    ensures var t := TakeExact(st, d, v);
      && (t.result.None? <==> forall j :: 0 <= j < |st.pool| ==> !ExactFits(st.pool[j], d, v))
      && (t.result.None? ==> t.after == st)
      && (t.result.Some? ==>
            exists k :: 0 <= k < |st.pool| && st.pool[k] == t.result.value
              && ExactFits(st.pool[k], d, v)
              && (forall j :: 0 <= j < k ==> !ExactFits(st.pool[j], d, v))
              && t.after == st.(pool := st.pool[..k] + st.pool[k + 1..], taken := st.taken + [st.pool[k]]))
    ensures d.None? ==> TakeExact(st, d, v).result.None?
  {
    match FirstExact(st.pool, d, v)
    case None =>
    case Some(k) =>
      RemoveFirstAt(st.pool, k);
  }

  // ------------------------------------------------------------------
  // Many report records for one statement record (_achar_match_duplo)
  // ------------------------------------------------------------------

  /** The sign filter: strictly positive when the target is, strictly negative
      otherwise (a zero target takes the negative branch). */
  predicate SameSide(x: real, v: real)
  {
    if v > 0.0 then x > 0.0 else x < 0.0
  }

  /** `[r for r in pool if r["data"] and r["data"].date() == d]`. */
  function SameDay(pool: seq<Txn>, d: Option<Date>): (r: seq<Txn>)
    ensures |r| <= |pool|
    ensures multiset(r) <= multiset(pool)
    ensures forall x :: x in r ==> OnDay(x, d)
  {
    if pool == [] then []
    else
      assert pool == [pool[0]] + pool[1..];
      if OnDay(pool[0], d) then [pool[0]] + SameDay(pool[1..], d) else SameDay(pool[1..], d)
  }

  /** Every record of the day stays a candidate, as often as the pool holds it. */
  lemma {:induction false} SameDayComplete(pool: seq<Txn>, d: Option<Date>)
    ensures forall x :: OnDay(x, d) ==> multiset(SameDay(pool, d))[x] == multiset(pool)[x]
  {
    if pool != [] {
      assert pool == [pool[0]] + pool[1..];
      SameDayComplete(pool[1..], d);
    }
  }

  /** The sort key `abs(x["valor"] - v)`. */
  function Distance(x: Txn, v: real): real
  {
    Abs(x.amount - v)
  }

  predicate SortedByDistance(s: seq<Txn>, v: real)
  {
    forall i, j :: 0 <= i < j < |s| ==> Distance(s[i], v) <= Distance(s[j], v)
  }

  /** Inserts `x` before the first element that is at least as far from `v`. */
  function InsertByDistance(x: Txn, s: seq<Txn>, v: real): (r: seq<Txn>)
    ensures multiset(r) == multiset(s) + multiset{x}
    ensures |r| == |s| + 1
  {
    if s == [] || Distance(x, v) <= Distance(s[0], v) then [x] + s
    else
      assert s == [s[0]] + s[1..];
      [s[0]] + InsertByDistance(x, s[1..], v)
  }

  /** Putting an element no farther than all of a sorted list in front keeps it sorted. */
  lemma ConsSorted(y: Txn, s: seq<Txn>, v: real)
    requires SortedByDistance(s, v)
    requires forall j :: 0 <= j < |s| ==> Distance(y, v) <= Distance(s[j], v)
    ensures SortedByDistance([y] + s, v)
  {
    var r := [y] + s;
    forall i, j | 0 <= i < j < |r| ensures Distance(r[i], v) <= Distance(r[j], v) {
      assert r[j] == s[j - 1];
      if i > 0 {
        assert r[i] == s[i - 1];
      }
    }
  }

  /** When `x` goes past the head of a sorted list, everything after the head, `x`
      included, is at least as far as the head. */
  lemma InsertPastHead(x: Txn, s: seq<Txn>, v: real)
    requires s != [] && SortedByDistance(s, v) && Distance(s[0], v) < Distance(x, v)
    ensures forall j :: 0 <= j < |InsertByDistance(x, s[1..], v)| ==>
      Distance(s[0], v) <= Distance(InsertByDistance(x, s[1..], v)[j], v)
  {
    var rest := InsertByDistance(x, s[1..], v);
    forall j | 0 <= j < |rest| ensures Distance(s[0], v) <= Distance(rest[j], v) {
      var y := rest[j];
      assert y in multiset(rest);
      if y != x {
        assert y in multiset(s[1..]);
        var k :| 0 <= k < |s[1..]| && s[1..][k] == y;
        assert s[k + 1] == y;
      }
    }
  }

  /** Inserting into a list sorted by distance keeps it sorted. */
  lemma {:induction false} InsertSorted(x: Txn, s: seq<Txn>, v: real)
    requires SortedByDistance(s, v)
    ensures SortedByDistance(InsertByDistance(x, s, v), v)
    decreases |s|
  {
    if s == [] || Distance(x, v) <= Distance(s[0], v) {
      ConsSorted(x, s, v);
    } else {
      assert SortedByDistance(s[1..], v);
      InsertSorted(x, s[1..], v);
      InsertPastHead(x, s, v);
      ConsSorted(s[0], InsertByDistance(x, s[1..], v), v);
    }
  }

  /** `candidatas.sort(key=lambda x: abs(x["valor"] - v))`: Python's stable sort,
      written as an insertion sort that keeps earlier elements first among equals. */
  function SortByDistance(s: seq<Txn>, v: real): (r: seq<Txn>)
    ensures multiset(r) == multiset(s)
    ensures |r| == |s|
  {
    if s == [] then []
    else
      assert s == [s[0]] + s[1..];
      InsertByDistance(s[0], SortByDistance(s[1..], v), v)
  }

  /** The sort puts nearer records first. */
  lemma {:induction false} SortSorted(s: seq<Txn>, v: real)
    ensures SortedByDistance(SortByDistance(s, v), v)
    decreases |s|
  {
    if s != [] {
      SortSorted(s[1..], v);
      InsertSorted(s[0], SortByDistance(s[1..], v), v);
    }
  }

  /** The records of `s` at distance exactly `c` from `v`, in their order in `s`. */
  function AtDistance(s: seq<Txn>, v: real, c: real): seq<Txn>
  {
    if s == [] then []
    else (if Distance(s[0], v) == c then [s[0]] else []) + AtDistance(s[1..], v, c)
  }

  /** Insertion puts `x` before every element at its own distance and leaves the
      other distances' order alone. */
  lemma {:induction false} InsertAtDistance(x: Txn, s: seq<Txn>, v: real, c: real)
    ensures AtDistance(InsertByDistance(x, s, v), v, c) ==
      (if Distance(x, v) == c then [x] else []) + AtDistance(s, v, c)
    decreases |s|
  {
    if s == [] || Distance(x, v) <= Distance(s[0], v) {
      assert ([x] + s)[1..] == s;
    } else {
      InsertAtDistance(x, s[1..], v, c);
      assert ([s[0]] + InsertByDistance(x, s[1..], v))[1..] == InsertByDistance(x, s[1..], v);
    }
  }

  /** The sort is stable: records at the same distance keep their relative order. */
  lemma {:induction false} SortStable(s: seq<Txn>, v: real, c: real)
    ensures AtDistance(SortByDistance(s, v), v, c) == AtDistance(s, v, c)
    decreases |s|
  {
    if s != [] {
      SortStable(s[1..], v, c);
      InsertAtDistance(s[0], SortByDistance(s[1..], v), v, c);
    }
  }

  /** Lines 151-154: more than 15 candidates are cut to the 15 nearest to the target. */
  function Capped(c: seq<Txn>, v: real): seq<Txn>
  {
    if |c| > MaxCandidates then SortByDistance(c, v)[..MaxCandidates] else c
  }

  /** Lines 160-163: `[r for r in c if r["valor"] > 0]` for a positive target, else `< 0`. */
  function SignFilter(c: seq<Txn>, v: real): (r: seq<Txn>)
    ensures |r| <= |c|
    ensures multiset(r) <= multiset(c)
    ensures forall x :: x in r ==> SameSide(x.amount, v)
  {
    if c == [] then []
    else
      assert c == [c[0]] + c[1..];
      if SameSide(c[0].amount, v) then [c[0]] + SignFilter(c[1..], v) else SignFilter(c[1..], v)
  }

  /** Every record strictly on the target's side is kept, as often as the list holds it. */
  lemma {:induction false} SignFilterComplete(c: seq<Txn>, v: real)
    ensures forall x: Txn :: SameSide(x.amount, v) ==> multiset(SignFilter(c, v))[x] == multiset(c)[x]
  {
    if c != [] {
      assert c == [c[0]] + c[1..];
      SignFilterComplete(c[1..], v);
    }
  }

  /** The candidate list the combination search enumerates: same day, capped, then sign-filtered. */
  function ComboCandidates(pool: seq<Txn>, d: Option<Date>, v: real): seq<Txn>
  {
    SignFilter(Capped(SameDay(pool, d), v), v)
  }

  /** `len(set(sinais)) <= 1` with `sinais = [1 if x["valor"] > 0 else -1 ...]`. */
  predicate OneSign(c: seq<Txn>)
  {
    (forall i :: 0 <= i < |c| ==> c[i].amount > 0.0) || (forall i :: 0 <= i < |c| ==> !(c[i].amount > 0.0))
  }

  /** The combinations of sizes `n..top` in the order the loops visit them; a size
      whose `math.comb` estimate exceeds 10000 contributes nothing. */
  function ComboBlocks(c: seq<Txn>, n: nat, top: nat): seq<seq<Txn>>
    decreases top + 1 - n
  {
    if n > top then []
    else (if Binomial(|c|, n) > MaxEstimate then [] else Combos(c, n)) + ComboBlocks(c, n + 1, top)
  }

  /** One size of the combination loop, then the larger sizes. */
  lemma ComboBlocksStep(c: seq<Txn>, n: nat, top: nat)
    requires n <= top
    ensures Binomial(|c|, n) > MaxEstimate ==> ComboBlocks(c, n, top) == ComboBlocks(c, n + 1, top)
    ensures Binomial(|c|, n) <= MaxEstimate ==> ComboBlocks(c, n, top) == Combos(c, n) + ComboBlocks(c, n + 1, top)
  {
    if Binomial(|c|, n) > MaxEstimate {
      assert [] + ComboBlocks(c, n + 1, top) == ComboBlocks(c, n + 1, top);
    }
  }

  /** The combination loop with its counter: `checked` counts same-sign combinations
      whose sum missed; once it reaches 1000 the search gives up. */
  function ScanSums(groups: seq<seq<Txn>>, v: real, checked: nat): Option<seq<Txn>>
    decreases |groups|
  {
    if groups == [] then None
    else if checked >= MaxCombinations then None
    else if !OneSign(groups[0]) then ScanSums(groups[1..], v, checked)
    else if Near(Sum(groups[0]), v) then Some(groups[0])
    else ScanSums(groups[1..], v, checked + 1)
  }

  /** What `_achar_match_duplo(d, v)` returns. */
  function ComboFind(pool: seq<Txn>, d: Option<Date>, v: real): Option<seq<Txn>>
  {
    var c := ComboCandidates(pool, d, v);
    ScanSums(ComboBlocks(c, 2, Min(MaxComboSize, |c|)), v, 0)
  }

  /** The two outcomes of `TakeCombination`, spelled out. */
  lemma TakeCombinationCases(st: State, d: Option<Date>, v: real)
    ensures var f := ComboFind(st.pool, d, v);
      f.Some? ==> multiset(f.value) <= multiset(st.pool) &&
                  TakeCombination(st, d, v) == Taken(f, st.(pool := RemoveEach(st.pool, f.value), taken := st.taken + f.value))
    ensures ComboFind(st.pool, d, v).None? ==> TakeCombination(st, d, v) == Taken(None, st)
  {
    ComboFindSound(st.pool, d, v);
  }

  /** `_achar_match_duplo(d, v)`: on success the chosen records leave the pool one
      `remove` at a time. */
  function TakeCombination(st: State, d: Option<Date>, v: real): Taken<seq<Txn>>
  {
    var found := ComboFind(st.pool, d, v);
    if found.None? then Taken(None, st)
    else
      ComboFindSound(st.pool, d, v);
      Taken(found, st.(pool := RemoveEach(st.pool, found.value), taken := st.taken + found.value))
  }

  lemma PrefixMultiset<T>(s: seq<T>, k: nat)
    requires k <= |s|
    ensures multiset(s[..k]) <= multiset(s)
  {
    assert s == s[..k] + s[k..];
  }

  /** The capped list is drawn from the day's candidates. */
  lemma CappedWithin(c: seq<Txn>, v: real)
    ensures multiset(Capped(c, v)) <= multiset(c)
  {
    if |c| > MaxCandidates {
      PrefixMultiset(SortByDistance(c, v), MaxCandidates);
    }
  }

  /** Every enumerated combination has a size in `n..top` and is drawn from `c`. */
  lemma {:induction false} ComboBlocksShape(c: seq<Txn>, n: nat, top: nat, i: nat)
    requires i < |ComboBlocks(c, n, top)|
    ensures n <= |ComboBlocks(c, n, top)[i]| <= top
    ensures multiset(ComboBlocks(c, n, top)[i]) <= multiset(c)
    decreases top + 1 - n
  {
    var here := if Binomial(|c|, n) > MaxEstimate then [] else Combos(c, n);
    if i < |here| {
      CombosMembers(c, n, i);
    } else {
      ComboBlocksShape(c, n + 1, top, i - |here|);
    }
  }

  /** What the scan returns is one of the scanned combinations, of one sign, with the target sum. */
  lemma {:induction false} ScanSumsSound(groups: seq<seq<Txn>>, v: real, checked: nat)
    ensures var r := ScanSums(groups, v, checked);
      r.Some? ==> exists i :: 0 <= i < |groups| && groups[i] == r.value && OneSign(r.value) && Near(Sum(r.value), v)
    decreases |groups|
  {
    if groups != [] && checked < MaxCombinations && !(OneSign(groups[0]) && Near(Sum(groups[0]), v)) {
      var next := if OneSign(groups[0]) then checked + 1 else checked;
      ScanSumsSound(groups[1..], v, next);
      var r := ScanSums(groups, v, checked);
      if r.Some? {
        var i :| 0 <= i < |groups[1..]| && groups[1..][i] == r.value && OneSign(r.value) && Near(Sum(r.value), v);
        assert groups[i + 1] == r.value;
      }
    }
  }

  /** A successful combination match consists of 2 to 4 report records, all on the
      statement's day, all strictly positive for a positive target and strictly
      negative otherwise, summing to the target within 1e-4, and all taken from the pool. */
  lemma ComboFindSound(pool: seq<Txn>, d: Option<Date>, v: real)
    ensures var r := ComboFind(pool, d, v);
      r.Some? ==>
        && 2 <= |r.value| <= MaxComboSize
        && (forall x :: x in r.value ==> OnDay(x, d) && SameSide(x.amount, v))
        && Near(Sum(r.value), v)
        && multiset(r.value) <= multiset(pool)
  {
    var sameDay := SameDay(pool, d);
    var capped := Capped(sameDay, v);
    var c := ComboCandidates(pool, d, v);
    var groups := ComboBlocks(c, 2, Min(MaxComboSize, |c|));
    var r := ComboFind(pool, d, v);
    if r.Some? {
      ScanSumsSound(groups, v, 0);
      var i :| 0 <= i < |groups| && groups[i] == r.value && OneSign(r.value) && Near(Sum(r.value), v);
      ComboBlocksShape(c, 2, Min(MaxComboSize, |c|), i);
      CappedWithin(sameDay, v);
      forall x | x in r.value ensures OnDay(x, d) && SameSide(x.amount, v) {
        assert x in multiset(r.value);
        assert x in multiset(c);
        assert x in multiset(capped);
        assert x in multiset(sameDay);
      }
    }
  }

  // ------------------------------------------------------------------
  // Many statement records for one report record (_achar_match_inverso)
  // ------------------------------------------------------------------

  /** `(a > 0 and b > 0) or (a < 0 and b < 0)`. */
  predicate StrictSameSign(a: real, b: real)
  {
    (a > 0.0 && b > 0.0) || (a < 0.0 && b < 0.0)
  }

  /** A report record the reverse match accepts for a statement subtotal. */
  predicate SumFits(r: Txn, d: Date, total: real)
  {
    OnDay(r, Some(d)) && StrictSameSign(total, r.amount) && Near(r.amount, total)
  }

  /** The position of the first pool record the reverse match accepts. */
  function FirstSumFit(pool: seq<Txn>, d: Date, total: real): (k: Option<nat>)
    ensures k.Some? ==> k.value < |pool| && SumFits(pool[k.value], d, total)
    ensures k.Some? ==> forall j :: 0 <= j < k.value ==> !SumFits(pool[j], d, total)
    ensures k.None? ==> forall j :: 0 <= j < |pool| ==> !SumFits(pool[j], d, total)
  {
    if pool == [] then None
    else if SumFits(pool[0], d, total) then Some(0)
    else match FirstSumFit(pool[1..], d, total)
      case None => None
      case Some(k) => Some(k + 1)
  }

  /** `any(r["ofx"] == x for r in rows)`. */
  predicate Appears(rows: seq<Row>, x: Txn)
  {
    exists i :: 0 <= i < |rows| && rows[i].ofx == Some(x)
  }

  /** `itens_mesma_data`: the other statement records of day `d`, not yet in a row,
      different from the anchor and strictly of its sign. */
  function Partners(ofx: seq<Txn>, rows: seq<Row>, anchor: Txn, d: Date): (r: seq<Txn>)
    ensures multiset(r) <= multiset(ofx)
    ensures forall x :: x in r ==>
      OnDay(x, Some(d)) && !Appears(rows, x) && x != anchor && StrictSameSign(x.amount, anchor.amount)
  {
    if ofx == [] then []
    else
      assert ofx == [ofx[0]] + ofx[1..];
      var x := ofx[0];
      if OnDay(x, Some(d)) && !Appears(rows, x) && x != anchor && StrictSameSign(x.amount, anchor.amount)
      then [x] + Partners(ofx[1..], rows, anchor, d)
      else Partners(ofx[1..], rows, anchor, d)
  }

  /** Every statement record of the day that no row mentions, other than the anchor
      and strictly of its sign, is a partner, as often as the list holds it. */
  lemma {:induction false} PartnersComplete(ofx: seq<Txn>, rows: seq<Row>, anchor: Txn, d: Date)
    ensures forall x ::
      OnDay(x, Some(d)) && !Appears(rows, x) && x != anchor && StrictSameSign(x.amount, anchor.amount) ==>
        multiset(Partners(ofx, rows, anchor, d))[x] == multiset(ofx)[x]
  {
    if ofx != [] {
      assert ofx == [ofx[0]] + ofx[1..];
      PartnersComplete(ofx[1..], rows, anchor, d);
    }
  }

  /** The combinations of sizes `n..top` in the order the loops visit them. */
  function SizeBlocks(c: seq<Txn>, n: nat, top: nat): seq<seq<Txn>>
    decreases top + 1 - n
  {
    if n > top then [] else Combos(c, n) + SizeBlocks(c, n + 1, top)
  }

  /** The subset found, and the position in the pool of the report record it matches. */
  datatype ReverseHit = ReverseHit(group: seq<Txn>, relIndex: nat)

  /** The reverse loop: skip groups without the anchor or of mixed sign, and stop at
      the first group some pool record matches. */
  function ScanGroups(groups: seq<seq<Txn>>, anchor: Txn, pool: seq<Txn>, d: Date): (h: Option<ReverseHit>)
    ensures h.Some? ==> h.value.relIndex < |pool|
    decreases |groups|
  {
    if groups == [] then None
    else
      var g := groups[0];
      if anchor !in g || !OneSign(g) then ScanGroups(groups[1..], anchor, pool, d)
      else match FirstSumFit(pool, d, Sum(g))
        case Some(k) => Some(ReverseHit(g, k))
        case None => ScanGroups(groups[1..], anchor, pool, d)
  }

  /** What `_achar_match_inverso(anchor)` finds. */
  function ReverseFind(ofx: seq<Txn>, rows: seq<Row>, pool: seq<Txn>, anchor: Txn): (h: Option<ReverseHit>)
    ensures h.Some? ==> h.value.relIndex < |pool|
  {
    if anchor.when.None? then None
    else
      var d := anchor.when.value.date;
      var all := [anchor] + Partners(ofx, rows, anchor, d);
      ScanGroups(SizeBlocks(all, 2, Min(MaxReverseSize, |all|)), anchor, pool, d)
  }

  /** The "Conciliado (Soma)" rows the reverse match appends, one per partner, all
      paired with the same report record. */
  function PartnerRows(partners: seq<Txn>, rel: Txn): seq<Row>
  {
    if partners == [] then []
    else PartnerRows(partners[..|partners| - 1], rel) + [Row(Some(partners[|partners| - 1]), Some(rel), ReconciledBySum)]
  }

  /** `_achar_match_inverso(anchor)`: appends the partner rows, removes the report
      record and returns it. */
  function TakeReverse(ofx: seq<Txn>, st: State, anchor: Txn): Taken<Txn>
  {
    match ReverseFind(ofx, st.rows, st.pool, anchor)
    case None => Taken(None, st)
    case Some(h) =>
      var rel := st.pool[h.relIndex];
      Taken(Some(rel), State(st.rows + PartnerRows(Without(h.group, anchor), rel), RemoveFirst(st.pool, rel), st.taken + [rel]))
  }

  /** The two outcomes of `TakeReverse`, spelled out. */
  lemma TakeReverseCases(ofx: seq<Txn>, st: State, anchor: Txn)
    ensures var h := ReverseFind(ofx, st.rows, st.pool, anchor);
      h.Some? ==>
        var rel := st.pool[h.value.relIndex];
        TakeReverse(ofx, st, anchor) ==
          Taken(Some(rel), State(st.rows + PartnerRows(Without(h.value.group, anchor), rel), RemoveFirst(st.pool, rel), st.taken + [rel]))
    ensures ReverseFind(ofx, st.rows, st.pool, anchor).None? ==> TakeReverse(ofx, st, anchor) == Taken(None, st)
  {
  }

  // ------------------------------------------------------------------
  // Priority and recording (_encontrar_melhor_match, _registrar_match)
  // ------------------------------------------------------------------

  /** The first member of `_encontrar_melhor_match`'s pair: one record, or a list of them. */
  datatype Matched = Single(rel: Txn) | Several(rels: seq<Txn>)

  /** A match and its status. */
  datatype Found = Found(matched: Matched, status: Status)

  /** `itens_rel = match[0] if isinstance(match[0], list) else [match[0]]`. */
  function Reported(m: Matched): seq<Txn>
  {
    if m.Several? then m.rels else [m.rel]
  }

  /** `_encontrar_melhor_match(item)`: exact, then combination, then reverse; the first success wins. */
  function BestMatch(ofx: seq<Txn>, st: State, item: Txn): Taken<Found>
  {
    var d := DayOf(item);
    var exact := TakeExact(st, d, item.amount);
    if exact.result.Some? then Taken(Some(Found(Single(exact.result.value), Reconciled)), exact.after)
    else
      var combo := TakeCombination(exact.after, d, item.amount);
      if combo.result.Some? then Taken(Some(Found(Several(combo.result.value), ReconciledBySum)), combo.after)
      else
        var reverse := TakeReverse(ofx, combo.after, item);
        if reverse.result.Some? then Taken(Some(Found(Single(reverse.result.value), ReconciledBySum)), reverse.after)
        else Taken(None, reverse.after)
  }

  /** The rows `_registrar_match(item, (rels, status))` appends. */
  function RegisterRows(item: Txn, rels: seq<Txn>, status: Status): seq<Row>
  {
    if rels == [] then []
    else RegisterRows(item, rels[..|rels| - 1], status)
         + [Row(Some(item), Some(rels[|rels| - 1]), if |rels| == 1 then status else ReconciledBySum)]
  }

  /** One pass of the matching loop's body for statement record `item`. */
  function Step(ofx: seq<Txn>, st: State, item: Txn): State
  {
    var best := BestMatch(ofx, st, item);
    if best.result.None? then best.after
    else
      var f := best.result.value;
      best.after.(rows := best.after.rows + RegisterRows(item, Reported(f.matched), f.status))
  }

  /** `nao_conciliadas_ofx`: the statement records no row mentions yet. */
  function Worklist(ofx: seq<Txn>, rows: seq<Row>): seq<Txn>
  {
    if ofx == [] then []
    else if Appears(rows, ofx[0]) then Worklist(ofx[1..], rows)
    else [ofx[0]] + Worklist(ofx[1..], rows)
  }

  /** The matching loop over the worklist, in order. */
  function Run(ofx: seq<Txn>, st: State, work: seq<Txn>): State
    decreases |work|
  {
    if work == [] then st else Run(ofx, Step(ofx, st, work[0]), work[1..])
  }

  // ------------------------------------------------------------------
  // Residues (_processar_nao_conciliados)
  // ------------------------------------------------------------------

  /** The first loop: each statement record that no row mentions, checked against
      the rows appended so far, gets a "Não conciliado" row. */
  function StatementResidues(ofx: seq<Txn>, rows: seq<Row>): seq<Row>
  {
    if ofx == [] then rows
    else
      var before := StatementResidues(ofx[..|ofx| - 1], rows);
      var x := ofx[|ofx| - 1];
      if Appears(before, x) then before else before + [Row(Some(x), None, Unreconciled)]
  }

  /** The second loop: one "Não conciliado" row per record left in the pool. */
  function ReportResidues(pool: seq<Txn>): seq<Row>
  {
    if pool == [] then []
    else ReportResidues(pool[..|pool| - 1]) + [Row(None, Some(pool[|pool| - 1]), Unreconciled)]
  }

  /** The rows the whole run produces: matching, then both residue loops. */
  function Reconcile(ofx: seq<Txn>, rel: seq<Txn>): seq<Row>
  {
    var st := Run(ofx, State([], rel, []), Worklist(ofx, []));
    StatementResidues(ofx, st.rows) + ReportResidues(st.pool)
  }
}
