/** Python list operations the engine relies on, on values. */
module Lists {

  /** The position `list.remove(x)` and `list.index(x)` find: the first element equal to `x`. */
  function FirstIndexOf<T(==)>(s: seq<T>, x: T): (i: nat)
    requires x in s
    ensures i < |s| && s[i] == x
    ensures forall j :: 0 <= j < i ==> s[j] != x
  {
    if s[0] == x then 0 else 1 + FirstIndexOf(s[1..], x)
  }

  /** `s.remove(x)`: drops the first element equal to `x` (Python raises when there is none). */
  function RemoveFirst<T(==)>(s: seq<T>, x: T): (r: seq<T>)
    requires x in s
    ensures |r| == |s| - 1
    ensures multiset(r) == multiset(s) - multiset{x}
  {
    var i := FirstIndexOf(s, x);
    assert s == s[..i] + [x] + s[i + 1..];
    s[..i] + s[i + 1..]
  }

  /** When `s[k]` is the first element equal to itself, `s.remove(s[k])` drops exactly position `k`. */
  lemma RemoveFirstAt<T>(s: seq<T>, k: nat)
    requires k < |s|
    requires forall j :: 0 <= j < k ==> s[j] != s[k]
    ensures RemoveFirst(s, s[k]) == s[..k] + s[k + 1..]
  {
    var i := FirstIndexOf(s, s[k]);
    assert !(i < k);
  }

  /** `for m in xs: s.remove(m)`. */
  function RemoveEach<T(==)>(s: seq<T>, xs: seq<T>): (r: seq<T>)
    requires multiset(xs) <= multiset(s)
    ensures multiset(r) == multiset(s) - multiset(xs)
    ensures |r| == |s| - |xs|
    decreases |xs|
  {
    if xs == [] then s
    else
      assert xs == [xs[0]] + xs[1..];
      assert xs[0] in multiset(xs);
      var s' := RemoveFirst(s, xs[0]);
      assert multiset(xs[1..]) <= multiset(s');
      RemoveEach(s', xs[1..])
  }

  /** Removing `xs` one by one is removing its head, then the rest. */
  lemma RemoveEachStep<T>(s: seq<T>, xs: seq<T>)
    requires xs != [] && multiset(xs) <= multiset(s)
    ensures xs[0] in s
    ensures multiset(xs[1..]) <= multiset(RemoveFirst(s, xs[0]))
    ensures RemoveEach(s, xs) == RemoveEach(RemoveFirst(s, xs[0]), xs[1..])
  {
    assert xs == [xs[0]] + xs[1..];
    assert xs[0] in multiset(xs);
  }

  /** Moving a sub-multiset `m` of `a` over to `t` keeps the union of the two. */
  lemma MoveBack<T>(a: multiset<T>, m: multiset<T>, t: multiset<T>)
    requires m <= a
    ensures (a - m) + (t + m) == a + t
  {
    assert forall x :: ((a - m) + (t + m))[x] == (a + t)[x];
  }

  /** `[y for y in s if y != x]`. */
  function Without<T(==)>(s: seq<T>, x: T): (r: seq<T>)
    ensures multiset(r) == multiset(s)[x := 0]
  {
    if s == [] then []
    else
      assert s == [s[0]] + s[1..];
      if s[0] == x then Without(s[1..], x)
      else [s[0]] + Without(s[1..], x)
  }

  /** Removing a value that occurs once shortens the sequence by exactly one. */
  lemma {:induction false} WithoutSingle<T>(s: seq<T>, x: T)
    requires multiset(s)[x] == 1
    ensures |Without(s, x)| == |s| - 1
    ensures multiset(Without(s, x)) == multiset(s) - multiset{x}
  {
    assert s == [s[0]] + s[1..];
    if s[0] == x {
      WithoutAbsent(s[1..], x);
    } else {
      WithoutSingle(s[1..], x);
    }
  }

  /** Removing a value that does not occur changes nothing. */
  lemma {:induction false} WithoutAbsent<T>(s: seq<T>, x: T)
    requires x !in s
    ensures Without(s, x) == s
  {
    if s != [] {
      WithoutAbsent(s[1..], x);
      assert s == [s[0]] + s[1..];
    }
  }
}
