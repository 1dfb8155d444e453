/** Small value types and Python list idioms shared by every module of the model. */
module Basics {

  /** Python's `None` or a present value. */
  datatype Option<+T> = None | Some(value: T) {
    function GetOr(default: T): T {
      match this
      case Some(v) => v
      case None => default
    }
  }

  function Min(a: int, b: int): int { if a <= b then a else b }

  function Max(a: int, b: int): int { if a <= b then b else a }

  /** Python's `xs[:n]`: a non-negative `n` keeps the first `n` items (all of them when
      there are fewer); a negative `n` drops the last `-n` items. */
  function Prefix<T>(s: seq<T>, n: int): (r: seq<T>)
    ensures |r| <= |s| && r == s[..|r|]
    ensures n >= 0 ==> |r| == Min(n, |s|)
    ensures n < 0 ==> |r| == Max(0, |s| + n)
  {
    if n >= 0 then (if n <= |s| then s[..n] else s)
    else if |s| + n >= 0 then s[..|s| + n]
    else []
  }

  /** Taking a prefix of a prefix is the shorter prefix. */
  lemma PrefixOfPrefix<T>(s: seq<T>, m: nat, n: nat)
    requires n <= m
    ensures Prefix(Prefix(s, m), n) == Prefix(s, n)
  {
  }

  /** A prefix holds no item more often than the whole list does. */
  lemma PrefixMultiset<T>(s: seq<T>, n: int)
    ensures multiset(Prefix(s, n)) <= multiset(s)
    ensures n >= |s| ==> Prefix(s, n) == s
  {
    var r := Prefix(s, n);
    assert s == r + s[|r|..];
  }

  /** A list comprehension `[x for x in s if keep(x)]`. */
  function Filter<T>(s: seq<T>, keep: T -> bool): (r: seq<T>)
    ensures |r| <= |s|
    ensures forall i :: 0 <= i < |r| ==> keep(r[i])
  {
    if s == [] then []
    else if keep(s[0]) then [s[0]] + Filter(s[1..], keep)
    else Filter(s[1..], keep)
  }

  /** Every kept item comes from the input. */
  lemma {:induction false} FilterSubset<T>(s: seq<T>, keep: T -> bool)
    ensures forall x :: x in Filter(s, keep) ==> x in s
  {
    if s != [] {
      FilterSubset(s[1..], keep);
    }
  }

  /** The comprehension keeps every qualifying item as often as the input holds it, and
      no other item. */
  lemma {:induction false} FilterMultiset<T>(s: seq<T>, keep: T -> bool)
    ensures forall x :: multiset(Filter(s, keep))[x] == if keep(x) then multiset(s)[x] else 0
  {
    if s != [] {
      FilterMultiset(s[1..], keep);
      assert s == [s[0]] + s[1..];
      assert multiset(s) == multiset{s[0]} + multiset(s[1..]);
    }
  }

  /** No qualifying item is dropped. */
  lemma FilterComplete<T>(s: seq<T>, keep: T -> bool)
    ensures forall x :: x in s && keep(x) ==> x in Filter(s, keep)
  {
    FilterMultiset(s, keep);
    forall x | x in s && keep(x)
      ensures x in Filter(s, keep)
    {
      assert x in multiset(s);
    }
  }

  /** Nothing is kept when no item qualifies. */
  lemma {:induction false} FilterNone<T>(s: seq<T>, keep: T -> bool)
    requires forall x :: x in s ==> !keep(x)
    ensures Filter(s, keep) == []
  {
    if s != [] {
      assert s[0] in s;
      FilterNone(s[1..], keep);
    }
  }

  /** Filtering keeps order: the kept items of a concatenation are the kept items of the
      first part followed by those of the second. */
  lemma {:induction false} FilterAppend<T>(a: seq<T>, b: seq<T>, keep: T -> bool)
    ensures Filter(a + b, keep) == Filter(a, keep) + Filter(b, keep)
  {
    if a != [] {
      assert (a + b)[1..] == a[1..] + b;
      FilterAppend(a[1..], b, keep);
    } else {
      assert a + b == b;
    }
  }

  lemma FilterCons<T>(s: seq<T>, keep: T -> bool, j: nat)
    requires s != [] && j < |s|
    ensures Filter(s[..j + 1], keep) == (if keep(s[0]) then [s[0]] else []) + Filter(s[1..][..j], keep)
  {
    assert s[..j + 1] == [s[0]] + s[1..][..j];
    FilterAppend([s[0]], s[1..][..j], keep);
    assert [s[0]][1..] == [];
  }

  lemma PrefixCons<T>(x: T, s: seq<T>, k: nat)
    requires k > 0
    ensures Prefix([x] + s, k) == [x] + Prefix(s, k - 1)
  {
  }

  /** Where the first `k` kept items end in `s`: the items kept before that position are
      exactly the first `k` kept items, and the position is the end of `s` when fewer
      than `k` items are kept. */
  ghost function FilterCutoff<T>(s: seq<T>, keep: T -> bool, k: nat): (j: nat)
    ensures j <= |s|
    ensures Filter(s[..j], keep) == Prefix(Filter(s, keep), k)
    ensures |Filter(s, keep)| < k ==> j == |s|
  {
    if s == [] || k == 0 then 0
    else
      var k' := if keep(s[0]) then k - 1 else k;
      var j' := FilterCutoff(s[1..], keep, k');
      FilterCons(s, keep, j');
      if keep(s[0]) then
        PrefixCons(s[0], Filter(s[1..], keep), k);
        j' + 1
      else
        j' + 1
  }
}
