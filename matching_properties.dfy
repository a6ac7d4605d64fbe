/** What the matching rules of reconciliation.py guarantee: the bounds of the
    combination search, the shape of a reverse match, the priority between the
    matchers, conservation of the report records, and the residue rows. */
module MatchingProperties {
  import opened Records
  import opened Lists
  import opened Combinations
  import opened Matching

  // ------------------------------------------------------------------
  // Combination search
  // ------------------------------------------------------------------

  /** A combination search that failed leaves the state as it was. */
  lemma TakeCombinationEffect(st: State, d: Option<Date>, v: real)
    ensures var t := TakeCombination(st, d, v);
      && (t.result.None? ==> t.after == st)
      && (t.result.Some? ==>
            && multiset(t.result.value) <= multiset(st.pool)
            && multiset(t.after.pool) == multiset(st.pool) - multiset(t.result.value)
            && |t.after.pool| == |st.pool| - |t.result.value|
            && t.after.taken == st.taken + t.result.value
            && t.after.rows == st.rows)
  {
    ComboFindSound(st.pool, d, v);
  }

  /** The cap keeps `min(15, n)` candidates, all from the day's list; below the cap
      it changes nothing. */
  lemma CappedSize(c: seq<Txn>, v: real)
    ensures |Capped(c, v)| == Min(MaxCandidates, |c|)
    ensures multiset(Capped(c, v)) <= multiset(c)
    ensures |c| <= MaxCandidates ==> Capped(c, v) == c
  {
    CappedWithin(c, v);
  }

  /** Above the cap, every kept candidate is at least as near to the target as
      every dropped one. */
  lemma CappedNearest(c: seq<Txn>, v: real)
    ensures forall x, y :: x in Capped(c, v) && y in multiset(c) - multiset(Capped(c, v)) ==>
      Distance(x, v) <= Distance(y, v)
  {
    if |c| > MaxCandidates {
      var sorted := SortByDistance(c, v);
      SortSorted(c, v);
      var kept := sorted[..MaxCandidates];
      var dropped := sorted[MaxCandidates..];
      assert sorted == kept + dropped;
      assert multiset(c) == multiset(kept) + multiset(dropped);
      forall x, y | x in kept && y in multiset(c) - multiset(kept)
        ensures Distance(x, v) <= Distance(y, v)
      {
        assert y in multiset(dropped);
        KeptNearer(sorted, MaxCandidates, v, x, y);
      }
    }
  }

  /** In a list sorted by distance, an element before position `k` is no farther than one from `k` on. */
  lemma KeptNearer(sorted: seq<Txn>, k: nat, v: real, x: Txn, y: Txn)
    requires k <= |sorted| && SortedByDistance(sorted, v)
    requires x in sorted[..k] && y in multiset(sorted[k..])
    ensures Distance(x, v) <= Distance(y, v)
  {
    var i :| 0 <= i < k && sorted[..k][i] == x;
    assert y in sorted[k..];
    var j :| 0 <= j < |sorted| - k && sorted[k..][j] == y;
    assert sorted[i] == x && sorted[k + j] == y;
  }

  /** The candidates the search enumerates: at most 15, on the statement's day, on
      the target's side, all from the pool. */
  lemma ComboCandidatesFacts(pool: seq<Txn>, d: Option<Date>, v: real)
    ensures var c := ComboCandidates(pool, d, v);
      && |c| <= MaxCandidates
      && multiset(c) <= multiset(pool)
      && (forall x :: x in c ==> OnDay(x, d) && SameSide(x.amount, v))
      && (|SameDay(pool, d)| <= MaxCandidates ==>
            forall x: Txn :: OnDay(x, d) && SameSide(x.amount, v) ==> multiset(c)[x] == multiset(pool)[x])
  {
    var sameDay := SameDay(pool, d);
    var capped := Capped(sameDay, v);
    var c := ComboCandidates(pool, d, v);
    CappedSize(sameDay, v);
    SameDayComplete(pool, d);
    SignFilterComplete(capped, v);
    forall x | x in c ensures OnDay(x, d) {
      assert x in multiset(c);
      assert x in multiset(capped);
      assert x in multiset(sameDay);
    }
  }

  /** With at most 15 candidates and sizes 2 to 4, `comb(len, n) > 10000` never
      holds, so the search visits every combination of every size. */
  lemma {:induction false} EstimateNeverSkips(c: seq<Txn>, n: nat, top: nat)
    requires |c| <= MaxCandidates && 2 <= n && top <= MaxComboSize
    ensures ComboBlocks(c, n, top) == SizeBlocks(c, n, top)
    decreases top + 1 - n
  {
    if n <= top {
      EstimateAtMost1365(|c|, n);
      EstimateNeverSkips(c, n + 1, top);
    }
  }

  /** The position of the first combination whose sum is within the tolerance of `v`. */
  function FirstNear(groups: seq<seq<Txn>>, v: real): (k: Option<nat>)
    ensures k.Some? ==> k.value < |groups| && Near(Sum(groups[k.value]), v)
    ensures k.Some? ==> forall j :: 0 <= j < k.value ==> !Near(Sum(groups[j]), v)
    ensures k.None? ==> forall j :: 0 <= j < |groups| ==> !Near(Sum(groups[j]), v)
  {
    if groups == [] then None
    else if Near(Sum(groups[0]), v) then Some(0)
    else match FirstNear(groups[1..], v)
      case None => None
      case Some(k) => Some(k + 1)
  }

  /** When every combination has one sign, the counted scan finds the first
      combination with the target sum if it lies among the first `1000 - checked`,
      and gives up otherwise. */
  lemma {:induction false} ScanBudget(groups: seq<seq<Txn>>, v: real, checked: nat)
    requires checked <= MaxCombinations
    requires forall i :: 0 <= i < |groups| ==> OneSign(groups[i])
    ensures var k := FirstNear(groups, v);
      ScanSums(groups, v, checked) ==
        if k.Some? && k.value < MaxCombinations - checked then Some(groups[k.value]) else None
    decreases |groups|
  {
    if groups != [] && checked < MaxCombinations && !Near(Sum(groups[0]), v) {
      assert OneSign(groups[0]);
      ScanBudget(groups[1..], v, checked + 1);
      var k' := FirstNear(groups[1..], v);
      if k'.Some? {
        assert groups[1..][k'.value] == groups[k'.value + 1];
      }
    }
  }

  /** A combination drawn from same-side candidates has one sign. */
  lemma SameSideOneSign(g: seq<Txn>, c: seq<Txn>, v: real)
    requires multiset(g) <= multiset(c)
    requires forall x :: x in c ==> SameSide(x.amount, v)
    ensures OneSign(g)
  {
    forall i | 0 <= i < |g| ensures SameSide(g[i].amount, v) {
      assert g[i] in multiset(g);
      assert g[i] in multiset(c);
    }
  }

  /** The whole combination search: among the combinations of the candidates of
      sizes 2, 3, ... up to min(4, count), in `itertools.combinations` order, it
      returns the first whose sum is within 1e-4 of the target, provided it is among
      the first 1000; otherwise it returns None. */
  lemma ComboSearchOrder(pool: seq<Txn>, d: Option<Date>, v: real)
    ensures var c := ComboCandidates(pool, d, v);
      var all := SizeBlocks(c, 2, Min(MaxComboSize, |c|));
      var k := FirstNear(all, v);
      ComboFind(pool, d, v) == if k.Some? && k.value < MaxCombinations then Some(all[k.value]) else None
  {
    var c := ComboCandidates(pool, d, v);
    var top := Min(MaxComboSize, |c|);
    var all := SizeBlocks(c, 2, top);
    ComboCandidatesFacts(pool, d, v);
    EstimateNeverSkips(c, 2, top);
    forall i | 0 <= i < |all| ensures OneSign(all[i]) {
      ComboBlocksShape(c, 2, top, i);
      SameSideOneSign(all[i], c, v);
    }
    ScanBudget(all, v, 0);
  }

  // ------------------------------------------------------------------
  // Reverse match
  // ------------------------------------------------------------------

  /** The reverse scan returns the first group, in enumeration order, that holds the
      anchor, has one sign and has a fitting pool record, with the first such record. */
  lemma {:induction false} ScanGroupsSound(groups: seq<seq<Txn>>, anchor: Txn, pool: seq<Txn>, d: Date)
    ensures var h := ScanGroups(groups, anchor, pool, d);
      h.Some? ==>
        exists i ::
          && 0 <= i < |groups| && groups[i] == h.value.group
          && anchor in h.value.group && OneSign(h.value.group)
          && FirstSumFit(pool, d, Sum(h.value.group)) == Some(h.value.relIndex)
          && forall j :: 0 <= j < i ==>
               !(anchor in groups[j] && OneSign(groups[j]) && FirstSumFit(pool, d, Sum(groups[j])).Some?)
    decreases |groups|
  {
    if groups != [] {
      var g := groups[0];
      var h := ScanGroups(groups, anchor, pool, d);
      if anchor !in g || !OneSign(g) || FirstSumFit(pool, d, Sum(g)).None? {
        ScanGroupsSound(groups[1..], anchor, pool, d);
        if h.Some? {
          var i :| 0 <= i < |groups[1..]| && groups[1..][i] == h.value.group
            && anchor in h.value.group && OneSign(h.value.group)
            && FirstSumFit(pool, d, Sum(h.value.group)) == Some(h.value.relIndex)
            && forall j :: 0 <= j < i ==>
                 !(anchor in groups[1..][j] && OneSign(groups[1..][j]) && FirstSumFit(pool, d, Sum(groups[1..][j])).Some?);
          assert groups[i + 1] == h.value.group;
          forall j | 0 <= j < i + 1
            ensures !(anchor in groups[j] && OneSign(groups[j]) && FirstSumFit(pool, d, Sum(groups[j])).Some?)
          {
            if j > 0 {
              assert groups[j] == groups[1..][j - 1];
            }
          }
        }
      }
    }
  }

  /** The reverse scan comes back empty only when no group holds the anchor, has one
      sign and has a fitting pool record. */
  lemma {:induction false} ScanGroupsComplete(groups: seq<seq<Txn>>, anchor: Txn, pool: seq<Txn>, d: Date)
    ensures ScanGroups(groups, anchor, pool, d).None? ==>
      forall g :: g in groups ==> !(anchor in g && OneSign(g) && FirstSumFit(pool, d, Sum(g)).Some?)
    decreases |groups|
  {
    if groups != [] {
      ScanGroupsComplete(groups[1..], anchor, pool, d);
      assert forall g :: g in groups ==> g == groups[0] || g in groups[1..];
    }
  }

  /** Every group of sizes `n..top` has such a size and is drawn from `c`. */
  lemma {:induction false} SizeBlocksShape(c: seq<Txn>, n: nat, top: nat, i: nat)
    requires i < |SizeBlocks(c, n, top)|
    ensures n <= |SizeBlocks(c, n, top)[i]| <= top
    ensures multiset(SizeBlocks(c, n, top)[i]) <= multiset(c)
    decreases top + 1 - n
  {
    if i < |Combos(c, n)| {
      CombosMembers(c, n, i);
    } else {
      SizeBlocksShape(c, n + 1, top, i - |Combos(c, n)|);
    }
  }

  /** A reverse match needs a dated anchor. On success the group holds the anchor
      exactly once, has 2 to min(5, 1 + partners) members of one sign, every other
      member is an unmatched statement record of that day and of the anchor's strict
      sign, and the report record found is the first pool record of that day, of the
      sum's strict sign, within 1e-4 of the sum. */
  lemma ReverseFindSound(ofx: seq<Txn>, rows: seq<Row>, pool: seq<Txn>, anchor: Txn)
    ensures anchor.when.None? ==> ReverseFind(ofx, rows, pool, anchor).None?
    ensures var h := ReverseFind(ofx, rows, pool, anchor);
      h.Some? ==> (anchor.when.Some? &&
        var d := anchor.when.value.date;
        var g := h.value.group;
        && multiset(g)[anchor] == 1
        && 2 <= |g| <= Min(MaxReverseSize, 1 + |Partners(ofx, rows, anchor, d)|)
        && OneSign(g)
        && (forall x :: x in g && x != anchor ==>
              x in ofx && OnDay(x, Some(d)) && !Appears(rows, x) && StrictSameSign(x.amount, anchor.amount))
        && SumFits(pool[h.value.relIndex], d, Sum(g))
        && (forall j :: 0 <= j < h.value.relIndex ==> !SumFits(pool[j], d, Sum(g))))
  {
    var h := ReverseFind(ofx, rows, pool, anchor);
    if h.Some? {
      var d := anchor.when.value.date;
      var partners := Partners(ofx, rows, anchor, d);
      var all := [anchor] + partners;
      var top := Min(MaxReverseSize, |all|);
      var groups := SizeBlocks(all, 2, top);
      var g := h.value.group;
      ScanGroupsSound(groups, anchor, pool, d);
      var i :| 0 <= i < |groups| && groups[i] == g && anchor in g && OneSign(g)
        && FirstSumFit(pool, d, Sum(g)) == Some(h.value.relIndex);
      SizeBlocksShape(all, 2, top, i);
      assert anchor !in multiset(partners);
      assert multiset(all)[anchor] == 1;
      assert anchor in multiset(g);
      forall x | x in g && x != anchor
        ensures x in ofx && OnDay(x, Some(d)) && !Appears(rows, x) && StrictSameSign(x.amount, anchor.amount)
      {
        assert x in multiset(g);
        assert x in multiset(all);
        assert x in partners;
        assert x in multiset(ofx);
      }
    }
  }

  /** A dated anchor finds no reverse match only when no group of the anchor and its
      partners, of 2 to min(5, 1 + partners) members in `combinations` order, holding
      the anchor and of one sign, has a pool record of that day, of the sum's strict
      sign, within 1e-4 of the sum. */
  lemma ReverseFindComplete(ofx: seq<Txn>, rows: seq<Row>, pool: seq<Txn>, anchor: Txn)
    ensures anchor.when.Some? && ReverseFind(ofx, rows, pool, anchor).None? ==>
      var d := anchor.when.value.date;
      var all := [anchor] + Partners(ofx, rows, anchor, d);
      forall g, j :: g in SizeBlocks(all, 2, Min(MaxReverseSize, |all|)) && anchor in g && OneSign(g) && 0 <= j < |pool| ==>
        !SumFits(pool[j], d, Sum(g))
  {
    if anchor.when.Some? {
      var d := anchor.when.value.date;
      var all := [anchor] + Partners(ofx, rows, anchor, d);
      ScanGroupsComplete(SizeBlocks(all, 2, Min(MaxReverseSize, |all|)), anchor, pool, d);
    }
  }

  /** The rows a reverse match appends: one per partner, in order, each paired with `rel`. */
  lemma {:induction false} PartnerRowsShape(partners: seq<Txn>, rel: Txn)
    ensures |PartnerRows(partners, rel)| == |partners|
    ensures forall i :: 0 <= i < |partners| ==>
      PartnerRows(partners, rel)[i] == Row(Some(partners[i]), Some(rel), ReconciledBySum)
  {
    if partners != [] {
      PartnerRowsShape(partners[..|partners| - 1], rel);
    }
  }

  /** The reverse matcher's effect: on failure nothing changes; on success the report
      record found leaves the pool at its position, and one "Conciliado (Soma)" row
      per non-anchor member of the group is appended, each paired with that record. */
  lemma TakeReverseEffect(ofx: seq<Txn>, st: State, anchor: Txn)
    ensures var t := TakeReverse(ofx, st, anchor);
      var h := ReverseFind(ofx, st.rows, st.pool, anchor);
      && (t.result.None? <==> h.None?)
      && (t.result.None? ==> t.after == st)
      && (t.result.Some? ==>
            var k := h.value.relIndex;
            var extra := t.after.rows[|st.rows|..];
            && t.result.value == st.pool[k]
            && t.after.pool == st.pool[..k] + st.pool[k + 1..]
            && t.after.taken == st.taken + [st.pool[k]]
            && |st.rows| <= |t.after.rows| && t.after.rows[..|st.rows|] == st.rows
            && |extra| == |h.value.group| - 1
            && forall i :: 0 <= i < |extra| ==>
                 && extra[i].rel == Some(st.pool[k])
                 && extra[i].status == ReconciledBySum
                 && extra[i].ofx.Some? && extra[i].ofx.value in h.value.group && extra[i].ofx.value != anchor)
  {
    var h := ReverseFind(ofx, st.rows, st.pool, anchor);
    TakeReverseCases(ofx, st, anchor);
    if h.Some? {
      ReverseFindSound(ofx, st.rows, st.pool, anchor);
      var k := h.value.relIndex;
      var rel := st.pool[k];
      var d := anchor.when.value.date;
      forall j | 0 <= j < k ensures st.pool[j] != rel {
        assert !SumFits(st.pool[j], d, Sum(h.value.group));
      }
      RemoveFirstAt(st.pool, k);
      var others := Without(h.value.group, anchor);
      WithoutSingle(h.value.group, anchor);
      var extra := PartnerRows(others, rel);
      PartnerRowsShape(others, rel);
      var t := TakeReverse(ofx, st, anchor);
      assert t.after.rows == st.rows + extra;
      assert t.after.rows[|st.rows|..] == extra;
      forall i | 0 <= i < |extra|
        ensures extra[i].rel == Some(rel) && extra[i].status == ReconciledBySum
        ensures extra[i].ofx.Some? && extra[i].ofx.value in h.value.group && extra[i].ofx.value != anchor
      {
        assert extra[i] == Row(Some(others[i]), Some(rel), ReconciledBySum);
        assert others[i] in multiset(others);
      }
    }
  }

  // ------------------------------------------------------------------
  // Priority and recording
  // ------------------------------------------------------------------

  /** The matchers run in the order exact, combination, reverse, and the first
      success wins: the status is "Conciliado" exactly when an exact match exists, a
      list of records comes back exactly when there is no exact match and the
      combination search succeeds, and nothing is found (and nothing changes) exactly
      when all three fail. */
  lemma BestMatchPriority(ofx: seq<Txn>, st: State, item: Txn)
    ensures var b := BestMatch(ofx, st, item);
      var d := DayOf(item);
      var v := item.amount;
      && (b.result.Some? && b.result.value.status == Reconciled <==> FirstExact(st.pool, d, v).Some?)
      && (b.result.Some? ==> b.result.value.status == Reconciled || b.result.value.status == ReconciledBySum)
      && (b.result.Some? && b.result.value.matched.Several? <==>
            FirstExact(st.pool, d, v).None? && ComboFind(st.pool, d, v).Some?)
      && (b.result.None? <==>
            FirstExact(st.pool, d, v).None? && ComboFind(st.pool, d, v).None?
            && ReverseFind(ofx, st.rows, st.pool, item).None?)
      && (b.result.None? ==> b.after == st)
  {
  }

  /** `_registrar_match` appends one row per matched report record, each paired with
      the statement record; the first carries the match's status, the rest
      "Conciliado (Soma)". */
  lemma {:induction false} RegisterRowsShape(item: Txn, rels: seq<Txn>, status: Status)
    ensures |RegisterRows(item, rels, status)| == |rels|
    ensures forall i :: 0 <= i < |rels| ==>
      RegisterRows(item, rels, status)[i] ==
        Row(Some(item), Some(rels[i]), if i == 0 then status else ReconciledBySum)
  {
    if rels != [] {
      RegisterRowsShape(item, rels[..|rels| - 1], status);
    }
  }

  // ------------------------------------------------------------------
  // Conservation of the report records
  // ------------------------------------------------------------------

  /** `resultado` and the removal trail only grow. */
  predicate Extends(st: State, st': State)
  {
    && |st.rows| <= |st'.rows| && st'.rows[..|st.rows|] == st.rows
    && |st.taken| <= |st'.taken| && st'.taken[..|st.taken|] == st.taken
  }

  /** From `st` to `st'` report records only move from the pool to the removal
      trail, and rows are only appended. */
  predicate Conserves(st: State, st': State)
  {
    multiset(st'.pool) + multiset(st'.taken) == multiset(st.pool) + multiset(st.taken) && Extends(st, st')
  }

  /** Every record of `rel` is either still in the pool or on the removal trail. */
  predicate Accounts(st: State, rel: seq<Txn>)
  {
    multiset(st.pool) + multiset(st.taken) == multiset(rel)
  }

  /** The exact matcher keeps every report record accounted for. */
  lemma TakeExactAccounts(st: State, d: Option<Date>, v: real, rel: seq<Txn>)
    requires Accounts(st, rel)
    ensures Accounts(TakeExact(st, d, v).after, rel)
  {
    TakeExactConserves(st, d, v);
  }

  /** The combination matcher keeps every report record accounted for. */
  lemma TakeCombinationAccounts(st: State, d: Option<Date>, v: real, rel: seq<Txn>)
    requires Accounts(st, rel)
    ensures Accounts(TakeCombination(st, d, v).after, rel)
  {
    TakeCombinationConserves(st, d, v);
  }

  /** The reverse matcher keeps every report record accounted for. */
  lemma TakeReverseAccounts(ofx: seq<Txn>, st: State, anchor: Txn, rel: seq<Txn>)
    requires Accounts(st, rel)
    ensures Accounts(TakeReverse(ofx, st, anchor).after, rel)
  {
    TakeReverseConserves(ofx, st, anchor);
  }

  lemma TakeExactConserves(st: State, d: Option<Date>, v: real)
    ensures Conserves(st, TakeExact(st, d, v).after)
  {
    var t := TakeExact(st, d, v);
    if t.result.Some? {
      assert t.result.value in st.pool;
      assert t.after.taken[..|st.taken|] == st.taken;
    }
  }

  /** Moving a sub-multiset of the pool to the end of the removal trail conserves records. */
  lemma MoveConserves(st: State, xs: seq<Txn>)
    requires multiset(xs) <= multiset(st.pool)
    ensures Conserves(st, st.(pool := RemoveEach(st.pool, xs), taken := st.taken + xs))
  {
    var pool := RemoveEach(st.pool, xs);
    var taken := st.taken + xs;
    assert taken[..|st.taken|] == st.taken;
    var a, m, t := multiset(st.pool), multiset(xs), multiset(st.taken);
    assert multiset(pool) == a - m;
    assert multiset(taken) == t + m;
    MoveBack(a, m, t);
  }

  lemma TakeCombinationConserves(st: State, d: Option<Date>, v: real)
    ensures Conserves(st, TakeCombination(st, d, v).after)
  {
    var f := ComboFind(st.pool, d, v);
    TakeCombinationCases(st, d, v);
    if f.Some? {
      MoveConserves(st, f.value);
    }
  }

  lemma TakeReverseConserves(ofx: seq<Txn>, st: State, anchor: Txn)
    ensures Conserves(st, TakeReverse(ofx, st, anchor).after)
  {
    var t := TakeReverse(ofx, st, anchor);
    if t.result.Some? {
      var h := ReverseFind(ofx, st.rows, st.pool, anchor).value;
      assert t.result.value == st.pool[h.relIndex];
      assert t.after.taken[..|st.taken|] == st.taken;
      assert t.after.rows[..|st.rows|] == st.rows;
    }
  }

  /** The matchers together lose or invent no report record. */
  lemma BestMatchConserves(ofx: seq<Txn>, st: State, item: Txn)
    ensures Conserves(st, BestMatch(ofx, st, item).after)
  {
    var d := DayOf(item);
    var v := item.amount;
    TakeExactConserves(st, d, v);
    TakeExactEffect(st, d, v);
    TakeCombinationConserves(st, d, v);
    TakeCombinationEffect(st, d, v);
    TakeReverseConserves(ofx, st, item);
  }

  /** One step of the loop conserves the report records and only appends rows. */
  lemma StepConserves(ofx: seq<Txn>, st: State, item: Txn)
    ensures Conserves(st, Step(ofx, st, item))
  {
    var b := BestMatch(ofx, st, item);
    BestMatchConserves(ofx, st, item);
    if b.result.Some? {
      AppendRowsConserves(st, b.after, RegisterRows(item, Reported(b.result.value.matched), b.result.value.status));
    }
  }

  /** Appending rows after a conserving change still conserves. */
  lemma AppendRowsConserves(st: State, mid: State, extra: seq<Row>)
    requires Conserves(st, mid)
    ensures Conserves(st, mid.(rows := mid.rows + extra))
  {
    var s := mid.(rows := mid.rows + extra);
    assert s.rows[..|mid.rows|] == mid.rows;
    assert s.rows[..|st.rows|] == s.rows[..|mid.rows|][..|st.rows|];
  }

  /** The whole loop conserves the report records. */
  lemma {:induction false} RunConserves(ofx: seq<Txn>, st: State, work: seq<Txn>)
    ensures Conserves(st, Run(ofx, st, work))
    decreases |work|
  {
    if work != [] {
      var next := Step(ofx, st, work[0]);
      StepConserves(ofx, st, work[0]);
      RunConserves(ofx, next, work[1..]);
      var s := Run(ofx, st, work);
      assert s.rows[..|st.rows|] == s.rows[..|next.rows|][..|st.rows|];
      assert s.taken[..|st.taken|] == s.taken[..|next.taken|][..|st.taken|];
    }
  }

  /** After the matching loop every input report record is either still in the pool
      or was removed by exactly one matcher call. */
  lemma ReportRecordsConserved(ofx: seq<Txn>, rel: seq<Txn>)
    ensures var s := Run(ofx, State([], rel, []), Worklist(ofx, []));
      multiset(s.pool) + multiset(s.taken) == multiset(rel)
  {
    RunConserves(ofx, State([], rel, []), Worklist(ofx, []));
  }

  // ------------------------------------------------------------------
  // Every removed report record is on a reconciled row
  // ------------------------------------------------------------------

  /** Some row pairs report record `x` with a "Conciliado" or "Conciliado (Soma)" status. */
  predicate MatchedIn(rows: seq<Row>, x: Txn)
  {
    exists i :: 0 <= i < |rows| && rows[i].rel == Some(x) && rows[i].status != Unreconciled
  }

  /** Every record on the removal trail is paired on some reconciled row. */
  predicate Recorded(st: State)
  {
    forall x :: x in st.taken ==> MatchedIn(st.rows, x)
  }

  /** `b` only appends rows and puts exactly the reported records on the removal
      trail when it succeeds, and changes nothing when it fails. */
  predicate Trail(st: State, b: Taken<Found>)
  {
    && (b.result.None? ==> b.after == st)
    && (b.result.Some? ==>
          && b.result.value.status != Unreconciled
          && |st.rows| <= |b.after.rows| && b.after.rows[..|st.rows|] == st.rows
          && b.after.taken == st.taken + Reported(b.result.value.matched))
  }

  /** A matcher call that succeeds only appends rows and puts exactly the reported
      records on the removal trail; one that fails changes nothing. */
  lemma BestMatchTrail(ofx: seq<Txn>, st: State, item: Txn)
    ensures Trail(st, BestMatch(ofx, st, item))
  {
    if TakeExact(st, DayOf(item), item.amount).result.Some? {
      ExactTrail(ofx, st, item);
    } else {
      TakeExactEffect(st, DayOf(item), item.amount);
      LaterTrail(ofx, st, item);
    }
  }

  lemma LaterTrail(ofx: seq<Txn>, st: State, item: Txn)
    requires TakeExact(st, DayOf(item), item.amount).after == st
    requires TakeExact(st, DayOf(item), item.amount).result.None?
    ensures Trail(st, BestMatch(ofx, st, item))
  {
    if TakeCombination(st, DayOf(item), item.amount).result.Some? {
      ComboTrail(ofx, st, item);
    } else {
      TakeCombinationEffect(st, DayOf(item), item.amount);
      ReverseTrail(ofx, st, item);
    }
  }

  lemma ComboTrail(ofx: seq<Txn>, st: State, item: Txn)
    requires TakeExact(st, DayOf(item), item.amount).after == st
    requires TakeExact(st, DayOf(item), item.amount).result.None?
    requires TakeCombination(st, DayOf(item), item.amount).result.Some?
    ensures Trail(st, BestMatch(ofx, st, item))
  {
    var combo := TakeCombination(st, DayOf(item), item.amount);
    TakeCombinationEffect(st, DayOf(item), item.amount);
    assert BestMatch(ofx, st, item) == Taken(Some(Found(Several(combo.result.value), ReconciledBySum)), combo.after);
  }

  lemma ExactTrail(ofx: seq<Txn>, st: State, item: Txn)
    requires TakeExact(st, DayOf(item), item.amount).result.Some?
    ensures Trail(st, BestMatch(ofx, st, item))
  {
    var exact := TakeExact(st, DayOf(item), item.amount);
    TakeExactEffect(st, DayOf(item), item.amount);
    assert BestMatch(ofx, st, item) == Taken(Some(Found(Single(exact.result.value), Reconciled)), exact.after);
  }

  lemma ReverseTrail(ofx: seq<Txn>, st: State, item: Txn)
    requires TakeExact(st, DayOf(item), item.amount).after == st
    requires TakeExact(st, DayOf(item), item.amount).result.None?
    requires TakeCombination(st, DayOf(item), item.amount).after == st
    requires TakeCombination(st, DayOf(item), item.amount).result.None?
    ensures Trail(st, BestMatch(ofx, st, item))
  {
    var reverse := TakeReverse(ofx, st, item);
    TakeReverseCases(ofx, st, item);
    assert BestMatch(ofx, st, item).after == reverse.after;
    if reverse.result.Some? {
      assert BestMatch(ofx, st, item) == Taken(Some(Found(Single(reverse.result.value), ReconciledBySum)), reverse.after);
      assert reverse.after.rows[..|st.rows|] == st.rows;
    }
  }

  /** One step of the loop keeps every removed record on a reconciled row. */
  lemma StepRecorded(ofx: seq<Txn>, st: State, item: Txn)
    requires Recorded(st)
    ensures Recorded(Step(ofx, st, item))
  {
    var b := BestMatch(ofx, st, item);
    BestMatchTrail(ofx, st, item);
    if b.result.Some? {
      RegisteredRecorded(st, b, item);
    }
  }

  /** Recording a successful match puts each newly removed record on a reconciled row. */
  lemma RegisteredRecorded(st: State, b: Taken<Found>, item: Txn)
    requires Recorded(st) && Trail(st, b) && b.result.Some?
    ensures Recorded(b.after.(rows := b.after.rows + RegisterRows(item, Reported(b.result.value.matched), b.result.value.status)))
  {
    var f := b.result.value;
    var rels := Reported(f.matched);
    var extra := RegisterRows(item, rels, f.status);
    RegisterRowsShape(item, rels, f.status);
    var next := b.after.(rows := b.after.rows + extra);
    forall x | x in next.taken ensures MatchedIn(next.rows, x) {
      if x in st.taken {
        var i :| 0 <= i < |st.rows| && st.rows[i].rel == Some(x) && st.rows[i].status != Unreconciled;
        assert next.rows[i] == b.after.rows[i] == st.rows[i];
      } else {
        var k :| 0 <= k < |rels| && rels[k] == x;
        assert next.rows[|b.after.rows| + k] == extra[k];
      }
    }
  }

  /** The whole loop keeps every removed record on a reconciled row. */
  lemma {:induction false} RunRecorded(ofx: seq<Txn>, st: State, work: seq<Txn>)
    requires Recorded(st)
    ensures Recorded(Run(ofx, st, work))
    decreases |work|
  {
    if work != [] {
      StepRecorded(ofx, st, work[0]);
      RunRecorded(ofx, Step(ofx, st, work[0]), work[1..]);
    }
  }

  /** After the matching loop every report record a matcher removed is paired with a
      statement record on a reconciled row. */
  lemma RemovedRecordsMatched(ofx: seq<Txn>, rel: seq<Txn>)
    ensures var s := Run(ofx, State([], rel, []), Worklist(ofx, []));
      forall x :: x in s.taken ==> MatchedIn(s.rows, x)
  {
    RunRecorded(ofx, State([], rel, []), Worklist(ofx, []));
  }

  /** A record on a row of the matching loop, or left in the pool, is on a row of the
      whole output. */
  lemma OutputHolds(ofx: seq<Txn>, s: State, x: Txn)
    requires x in s.pool || MatchedIn(s.rows, x)
    ensures var out := StatementResidues(ofx, s.rows) + ReportResidues(s.pool);
      exists i :: 0 <= i < |out| && out[i].rel == Some(x)
  {
    var first := StatementResidues(ofx, s.rows);
    var out := first + ReportResidues(s.pool);
    StatementResiduesFacts(ofx, s.rows);
    ReportResiduesShape(s.pool);
    if x in s.pool {
      var k :| 0 <= k < |s.pool| && s.pool[k] == x;
      assert out[|first| + k] == ReportResidues(s.pool)[k];
    } else {
      var i :| 0 <= i < |s.rows| && s.rows[i].rel == Some(x) && s.rows[i].status != Unreconciled;
      assert out[i] == first[i] == s.rows[i];
    }
  }

  /** After the whole run every input report record is on some output row: paired
      with a statement record on a reconciled row when a matcher removed it, or on
      its own "Não conciliado" row when it stayed in the pool. */
  lemma ReportRecordsInOutput(ofx: seq<Txn>, rel: seq<Txn>)
    ensures var out := Reconcile(ofx, rel);
      forall x :: x in rel ==> exists i :: 0 <= i < |out| && out[i].rel == Some(x)
  {
    var s := Run(ofx, State([], rel, []), Worklist(ofx, []));
    var out := Reconcile(ofx, rel);
    assert out == StatementResidues(ofx, s.rows) + ReportResidues(s.pool);
    RemovedRecordsMatched(ofx, rel);
    ReportRecordsConserved(ofx, rel);
    forall x | x in rel ensures exists i :: 0 <= i < |out| && out[i].rel == Some(x) {
      assert x in multiset(rel);
      assert x in multiset(s.pool) || x in multiset(s.taken);
      OutputHolds(ofx, s, x);
    }
  }

  // ------------------------------------------------------------------
  // Residues
  // ------------------------------------------------------------------

  /** The first residue loop keeps the existing rows, mentions every statement record
      afterwards, and appends only "Não conciliado" rows without a report side, for
      statement records no earlier row mentioned, no two for equal records. So a
      statement record absent from all rows gets exactly one such row. */
  lemma {:induction false} StatementResiduesFacts(ofx: seq<Txn>, rows: seq<Row>)
    ensures var out := StatementResidues(ofx, rows);
      && |rows| <= |out| && out[..|rows|] == rows
      && (forall x :: x in ofx ==> Appears(out, x))
      && (forall i :: |rows| <= i < |out| ==>
            && out[i].rel.None? && out[i].status == Unreconciled
            && out[i].ofx.Some? && out[i].ofx.value in ofx && !Appears(rows, out[i].ofx.value))
      && (forall i, j :: |rows| <= i < j < |out| ==> out[i].ofx != out[j].ofx)
    decreases |ofx|
  {
    if ofx != [] {
      var init := ofx[..|ofx| - 1];
      var x := ofx[|ofx| - 1];
      var before := StatementResidues(init, rows);
      StatementResiduesFacts(init, rows);
      var out := StatementResidues(ofx, rows);
      assert ofx == init + [x];
      if !Appears(before, x) {
        assert out == before + [Row(Some(x), None, Unreconciled)];
        assert out[|before|].ofx == Some(x);
        forall y | y in ofx ensures Appears(out, y) {
          if y != x {
            assert y in init;
            var i :| 0 <= i < |before| && before[i].ofx == Some(y);
            assert out[i] == before[i];
          }
        }
        assert !Appears(rows, x) by {
          forall i | 0 <= i < |rows| ensures rows[i].ofx != Some(x) {
            assert before[i] == rows[i];
          }
        }
        forall i, j | |rows| <= i < j < |out| ensures out[i].ofx != out[j].ofx {
          if j == |before| {
            assert out[i] == before[i];
          } else {
            assert out[i] == before[i] && out[j] == before[j];
          }
        }
      }
    }
  }

  /** The second residue loop: one row without a statement side per pool record, in pool order. */
  lemma {:induction false} ReportResiduesShape(pool: seq<Txn>)
    ensures |ReportResidues(pool)| == |pool|
    ensures forall i :: 0 <= i < |pool| ==> ReportResidues(pool)[i] == Row(None, Some(pool[i]), Unreconciled)
  {
    if pool != [] {
      ReportResiduesShape(pool[..|pool| - 1]);
    }
  }

  // ------------------------------------------------------------------
  // Two consequences of matching by value, on concrete records
  // ------------------------------------------------------------------

  const Day1: Option<Stamp> := Some(Stamp(Date(2024, 3, 5), 0))
  const FeeA: Txn := Txn(Day1, -1.0, "TARIFA A", None)
  const FeeB: Txn := Txn(Day1, -2.0, "TARIFA B", None)
  const FeeTotal: Txn := Txn(Day1, -3.0, "TARIFAS", None)
  const FeeSingle: Txn := Txn(Day1, -2.0, "TARIFA", None)

  /** FeeA finds no exact or combination match, so its reverse match pairs FeeA and
      FeeB with FeeTotal. */
  lemma FeeAReverseMatch(ofx: seq<Txn>, s0: State)
    requires ofx == [FeeA, FeeB] && s0 == State([], [FeeTotal, FeeSingle], [])
    ensures Step(ofx, s0, FeeA) ==
      State([Row(Some(FeeB), Some(FeeTotal), ReconciledBySum), Row(Some(FeeA), Some(FeeTotal), ReconciledBySum)],
            [FeeSingle], [FeeTotal])
  {
    var after := State([Row(Some(FeeB), Some(FeeTotal), ReconciledBySum)], [FeeSingle], [FeeTotal]);
    BestMatchFeeA(ofx, s0, after);
    var rows := RegisterRows(FeeA, [FeeTotal], ReconciledBySum);
    RegisterRowsShape(FeeA, [FeeTotal], ReconciledBySum);
    assert rows == [Row(Some(FeeA), Some(FeeTotal), ReconciledBySum)];
    assert Reported(Single(FeeTotal)) == [FeeTotal];
    assert Step(ofx, s0, FeeA) == after.(rows := after.rows + rows);
  }

  lemma BestMatchFeeA(ofx: seq<Txn>, s0: State, after: State)
    requires ofx == [FeeA, FeeB] && s0 == State([], [FeeTotal, FeeSingle], [])
    requires after == State([Row(Some(FeeB), Some(FeeTotal), ReconciledBySum)], [FeeSingle], [FeeTotal])
    ensures BestMatch(ofx, s0, FeeA) == Taken(Some(Found(Single(FeeTotal), ReconciledBySum)), after)
  {
    var d := Date(2024, 3, 5);
    assert DayOf(FeeA) == Some(d);
    NoSingleOrCombinationFeeA(s0, d);
    TakeReverseFeeA(ofx, s0.pool, d);
  }

  lemma NoSingleOrCombinationFeeA(s0: State, d: Date)
    requires s0 == State([], [FeeTotal, FeeSingle], []) && d == Date(2024, 3, 5)
    ensures TakeExact(s0, Some(d), -1.0) == Taken(None, s0)
    ensures TakeCombination(s0, Some(d), -1.0) == Taken(None, s0)
  {
    assert FirstExact(s0.pool, Some(d), -1.0) == None;
    ComboFindFails(s0.pool, Some(d));
  }

  lemma TakeReverseFeeA(ofx: seq<Txn>, rel: seq<Txn>, d: Date)
    requires ofx == [FeeA, FeeB] && rel == [FeeTotal, FeeSingle] && d == Date(2024, 3, 5)
    ensures TakeReverse(ofx, State([], rel, []), FeeA) ==
      Taken(Some(FeeTotal), State([Row(Some(FeeB), Some(FeeTotal), ReconciledBySum)], [FeeSingle], [FeeTotal]))
  {
    ReverseFindFeeA(ofx, rel, d);
    TakeReverseCases(ofx, State([], rel, []), FeeA);
    FeeAPieces(ofx, rel);
  }

  lemma FeeAPieces(ofx: seq<Txn>, rel: seq<Txn>)
    requires ofx == [FeeA, FeeB] && rel == [FeeTotal, FeeSingle]
    ensures PartnerRows(Without(ofx, FeeA), FeeTotal) == [Row(Some(FeeB), Some(FeeTotal), ReconciledBySum)]
    ensures RemoveFirst(rel, FeeTotal) == [FeeSingle]
  {
    assert ofx[1..] == [FeeB];
    assert Without([FeeB], FeeA) == [FeeB];
    assert Without(ofx, FeeA) == [FeeB];
    assert PartnerRows([FeeB], FeeTotal) == [Row(Some(FeeB), Some(FeeTotal), ReconciledBySum)];
  }

  lemma ReverseFindFeeA(ofx: seq<Txn>, rel: seq<Txn>, d: Date)
    requires ofx == [FeeA, FeeB] && rel == [FeeTotal, FeeSingle] && d == Date(2024, 3, 5)
    ensures ReverseFind(ofx, [], rel, FeeA) == Some(ReverseHit(ofx, 0))
  {
    PartnerFeeB(ofx, d);
    assert [FeeA] + [FeeB] == ofx;
    assert Combos([FeeB], 1) == [[FeeB]];
    assert Combos([FeeB], 2) == [];
    assert Combos(ofx, 2) == [ofx];
    assert SizeBlocks(ofx, 2, 2) == [ofx];
    assert ofx[..1] == [FeeA];
    assert Sum([FeeA]) == -1.0;
    assert Sum(ofx) == -3.0;
    assert FirstSumFit(rel, d, -3.0) == Some(0);
    assert ScanGroups([ofx], FeeA, rel, d) == Some(ReverseHit(ofx, 0));
  }

  lemma ComboFindFails(rel: seq<Txn>, d: Option<Date>)
    requires rel == [FeeTotal, FeeSingle] && d == Some(Date(2024, 3, 5))
    ensures ComboFind(rel, d, -1.0) == None
  {
    FeeCandidates(rel, d);
    FeePairBlocks(rel);
    assert rel[..1] == [FeeTotal];
    assert Sum([FeeTotal]) == -3.0;
    assert Sum(rel) == -5.0;
    assert ScanSums([rel], -1.0, 0) == None;
  }

  lemma FeeCandidates(rel: seq<Txn>, d: Option<Date>)
    requires rel == [FeeTotal, FeeSingle] && d == Some(Date(2024, 3, 5))
    ensures ComboCandidates(rel, d, -1.0) == rel
  {
    assert SameDay([FeeSingle], d) == [FeeSingle];
    assert SameDay(rel, d) == rel;
    assert SignFilter([FeeSingle], -1.0) == [FeeSingle];
    assert SignFilter(rel, -1.0) == rel;
  }

  lemma FeePairBlocks(rel: seq<Txn>)
    requires rel == [FeeTotal, FeeSingle]
    ensures ComboBlocks(rel, 2, Min(MaxComboSize, |rel|)) == [rel]
  {
    CombosOfPair(FeeTotal, FeeSingle);
    assert Binomial(2, 2) == 1;
    assert ComboBlocks(rel, 3, 2) == [];
  }

  /** The only pair of a two-element list is the list itself. */
  lemma CombosOfPair(a: Txn, b: Txn)
    ensures Combos([a, b], 2) == [[a, b]]
  {
    assert [b][1..] == [];
    var none: seq<Txn> := [];
    assert Combos(none, 0) == [[]] && Combos(none, 1) == [];
    var one := Prefixed(b, [none]);
    assert one[0] == [b] + none == [b];
    assert one == [[b]];
    assert Combos([b], 1) == one + [];
    assert Combos([b], 2) == [];
    assert [a, b][1..] == [b];
    var two := Prefixed(a, [[b]]);
    assert two[0] == [a] + [b] == [a, b];
    assert two == [[a, b]];
    assert Combos([a, b], 2) == two + Combos([b], 2);
  }


  lemma PartnerFeeB(ofx: seq<Txn>, d: Date)
    requires ofx == [FeeA, FeeB] && d == Date(2024, 3, 5)
    ensures Partners(ofx, [], FeeA, d) == [FeeB]
  {
    assert ofx[1..] == [FeeB];
    assert !Appears([], FeeB);
  }

  /** FeeB then finds FeeSingle by an exact match. */
  lemma FeeBExactMatch()
    ensures var s1 := State([Row(Some(FeeB), Some(FeeTotal), ReconciledBySum), Row(Some(FeeA), Some(FeeTotal), ReconciledBySum)],
                            [FeeSingle], [FeeTotal]);
      Step([FeeA, FeeB], s1, FeeB) ==
        State(s1.rows + [Row(Some(FeeB), Some(FeeSingle), Reconciled)], [], [FeeTotal, FeeSingle])
  {
    assert DayOf(FeeB) == Some(Date(2024, 3, 5));
    assert FirstExact([FeeSingle], Some(Date(2024, 3, 5)), -2.0) == Some(0);
    assert RegisterRows(FeeB, [FeeSingle], Reconciled) == [Row(Some(FeeB), Some(FeeSingle), Reconciled)];
  }

  /** The worklist is fixed before the loop and is not re-checked: statement record
      FeeB, already paired with FeeTotal as a partner of FeeA's reverse match, is
      matched a second time when its own turn comes. */
  lemma StatementRecordMatchedTwice()
    ensures Run([FeeA, FeeB], State([], [FeeTotal, FeeSingle], []), Worklist([FeeA, FeeB], [])).rows ==
      [ Row(Some(FeeB), Some(FeeTotal), ReconciledBySum),
        Row(Some(FeeA), Some(FeeTotal), ReconciledBySum),
        Row(Some(FeeB), Some(FeeSingle), Reconciled) ]
  {
    var ofx := [FeeA, FeeB];
    var s0 := State([], [FeeTotal, FeeSingle], []);
    var s1 := State([Row(Some(FeeB), Some(FeeTotal), ReconciledBySum), Row(Some(FeeA), Some(FeeTotal), ReconciledBySum)],
                    [FeeSingle], [FeeTotal]);
    var s2 := State(s1.rows + [Row(Some(FeeB), Some(FeeSingle), Reconciled)], [], [FeeTotal, FeeSingle]);
    assert ofx[1..] == [FeeB];
    assert !Appears([], FeeA) && !Appears([], FeeB);
    assert Worklist([FeeB], []) == [FeeB];
    assert Worklist(ofx, []) == ofx;
    FeeAReverseMatch(ofx, s0);
    FeeBExactMatch();
    assert Run(ofx, s1, [FeeB]) == Run(ofx, s2, []);
    assert Run(ofx, s0, ofx) == Run(ofx, s1, [FeeB]);
  }

  /** Residues are found by value: of two equal statement records, the one matched
      hides the other, which gets no row at all. */
  lemma EqualRecordHidesResidue()
    ensures Reconcile([FeeSingle, FeeSingle], [FeeB]) == [Row(Some(FeeSingle), Some(FeeB), Reconciled)]
  {
    var ofx := [FeeSingle, FeeSingle];
    var s0 := State([], [FeeB], []);
    var s1 := State([Row(Some(FeeSingle), Some(FeeB), Reconciled)], [], [FeeB]);
    assert ofx[1..] == [FeeSingle];
    assert !Appears([], FeeSingle);
    assert Worklist([FeeSingle], []) == [FeeSingle];
    assert Worklist(ofx, []) == ofx;
    FirstEqualRecordMatches(ofx, s0, s1);
    SecondEqualRecordFindsNothing(ofx, s1);
    assert Run(ofx, s1, [FeeSingle]) == s1;
    assert Run(ofx, s0, ofx) == s1;
    EqualRecordNoResidue(ofx, s1.rows);
  }

  lemma FirstEqualRecordMatches(ofx: seq<Txn>, s0: State, s1: State)
    requires ofx == [FeeSingle, FeeSingle] && s0 == State([], [FeeB], [])
    requires s1 == State([Row(Some(FeeSingle), Some(FeeB), Reconciled)], [], [FeeB])
    ensures Step(ofx, s0, FeeSingle) == s1
  {
    var d := Some(Date(2024, 3, 5));
    assert DayOf(FeeSingle) == d;
    assert FirstExact([FeeB], d, -2.0) == Some(0);
    assert TakeExact(s0, d, -2.0).after == State([], [], [FeeB]);
    assert RegisterRows(FeeSingle, [FeeB], Reconciled) == s1.rows;
  }

  lemma SecondEqualRecordFindsNothing(ofx: seq<Txn>, s1: State)
    requires ofx == [FeeSingle, FeeSingle]
    requires s1 == State([Row(Some(FeeSingle), Some(FeeB), Reconciled)], [], [FeeB])
    ensures Step(ofx, s1, FeeSingle) == s1
  {
    var d := Some(Date(2024, 3, 5));
    assert DayOf(FeeSingle) == d;
    assert FirstExact([], d, -2.0) == None;
    assert ComboCandidates([], d, -2.0) == [];
    assert ComboFind([], d, -2.0) == None;
    assert s1.rows[0].ofx == Some(FeeSingle);
    assert Appears(s1.rows, FeeSingle);
    assert ofx[1..] == [FeeSingle];
    assert Partners(ofx, s1.rows, FeeSingle, Date(2024, 3, 5)) == [];
    assert ReverseFind(ofx, s1.rows, [], FeeSingle) == None;
  }

  lemma EqualRecordNoResidue(ofx: seq<Txn>, rows: seq<Row>)
    requires ofx == [FeeSingle, FeeSingle] && rows == [Row(Some(FeeSingle), Some(FeeB), Reconciled)]
    ensures StatementResidues(ofx, rows) == rows
  {
    assert rows[0].ofx == Some(FeeSingle);
    assert Appears(rows, FeeSingle);
    assert StatementResidues([FeeSingle], rows) == rows;
    assert ofx[..1] == [FeeSingle];
  }

}
