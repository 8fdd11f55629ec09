/** Shared value types: optional values, results and three-way comparison outcomes. */
module Wrappers {

  datatype Option<+T> = None | Some(value: T)

  datatype Result<+T, +E> = Ok(value: T) | Err(error: E)

  const U64_MAX := 0xFFFF_FFFF_FFFF_FFFF

  /** `u64::saturating_add` and `usize::saturating_add` on a 64-bit target. */
  function SaturatingAdd(x: nat, y: nat): nat {
    if x + y > U64_MAX then U64_MAX else x + y
  }

  /** `std::cmp::Ordering`. */
  datatype Ordering = Less | Equal | Greater {
    function Reverse(): Ordering {
      match this
      case Less => Greater
      case Equal => Equal
      case Greater => Less
    }

    function Then(next: Ordering): Ordering {
      if this == Equal then next else this
    }
  }

  function CompareInt(x: int, y: int): Ordering {
    if x < y then Less else if x == y then Equal else Greater
  }

  /**
   * What a total preorder owes any three elements a, b, c: the comparisons of (a, b) and (b, c)
   * settle the comparison of (a, c) whenever they agree or one of them is a tie.
   */
  ghost predicate Chains(ab: Ordering, bc: Ordering, ac: Ordering) {
    && (ab == Equal ==> ac == bc)
    && (bc == Equal ==> ac == ab)
    && (ab == bc ==> ac == ab)
  }

  /** Breaking the ties of one preorder by another, which need only be one among tied elements. */
  lemma ThenChains(ab: Ordering, bc: Ordering, ac: Ordering, ab': Ordering, bc': Ordering, ac': Ordering)
    requires Chains(ab, bc, ac) && (ab == Equal && bc == Equal ==> Chains(ab', bc', ac'))
    ensures Chains(ab.Then(ab'), bc.Then(bc'), ac.Then(ac'))
  {
  }

  // The sizes of sets and maps.

  lemma {:induction false} SubsetSize<T>(a: set<T>, b: set<T>)
    requires a <= b
    ensures |a| <= |b|
    decreases a
  {
    if a != {} {
      var x :| x in a;
      SubsetSize(a - {x}, b - {x});
    }
  }

  lemma SubmapSize<V>(m: map<string, V>, n: map<string, V>)
    requires m.Keys <= n.Keys
    ensures |m| <= |n|
  {
    SubsetSize(m.Keys, n.Keys);
    assert |m| == |m.Keys| && |n| == |n.Keys|;
  }

  lemma SizeAfterUpdate<V>(m: map<string, V>, k: string, v: V)
    ensures |m[k := v]| == if k in m then |m| else |m| + 1
  {
    assert m[k := v].Keys == m.Keys + {k};
    assert |m[k := v]| == |m[k := v].Keys| && |m| == |m.Keys|;
  }

  lemma SizeAfterRemoval<V>(m: map<string, V>, k: string)
    requires k in m
    ensures |m - {k}| == |m| - 1
  {
    assert (m - {k}).Keys == m.Keys - {k};
    assert |m - {k}| == |(m - {k}).Keys| && |m| == |m.Keys|;
  }
}
