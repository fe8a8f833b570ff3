/** Shared helpers: optional values, decimal numerals as Rust's formatter writes them, and the
    few sequence facts several components rest on. */
module Prelude {

  datatype Option<+T> = None | Some(value: T)

  newtype byte = x: int | 0 <= x < 256

  type Bytes = seq<byte>

  function Max(a: nat, b: nat): nat { if a < b then b else a }

  function Min(a: nat, b: nat): nat { if a < b then a else b }

  /** Where `x` first occurs in `s`, as `Iterator::position` answers. */
  function Position<T(==)>(s: seq<T>, x: T): (r: Option<nat>)
    ensures r.None? <==> x !in s
    ensures r.Some? ==> r.value < |s| && s[r.value] == x && x !in s[..r.value]
  {
    if s == [] then None
    else if s[0] == x then Some(0)
    else match Position(s[1..], x)
      case None => None
      case Some(i) => Some(i + 1)
  }

  predicate Distinct<T(==)>(s: seq<T>)
  {
    forall i, j :: 0 <= i < j < |s| ==> s[i] != s[j]
  }

  // Decimal numerals

  predicate IsDigit(c: char) { '0' <= c <= '9' }

  function Digit(d: nat): (c: char)
    requires d < 10
    ensures IsDigit(c)
  {
    ('0' as int + d) as char
  }

  /** `n` in decimal, without a sign or a leading zero. */
  function Dec(n: nat): (s: string)
    ensures s != [] && forall c <- s :: IsDigit(c)
  {
    if n < 10 then [Digit(n)] else Dec(n / 10) + [Digit(n % 10)]
  }

  /** The number a run of digits denotes. */
  function Value(s: string): nat
    requires forall c <- s :: IsDigit(c)
  {
    if s == [] then 0
    else
      var last := s[|s| - 1];
      assert IsDigit(last);
      Value(s[..|s| - 1]) * 10 + (last as int - '0' as int)
  }

  lemma {:induction false} ValueOfDec(n: nat)
    ensures Value(Dec(n)) == n
  {
    if n < 10 {
      assert Dec(n)[..0] == [];
    } else {
      ValueOfDec(n / 10);
      assert Dec(n)[..|Dec(n)| - 1] == Dec(n / 10);
    }
  }

  lemma DecInjective(m: nat, n: nat)
    requires Dec(m) == Dec(n)
    ensures m == n
  {
    ValueOfDec(m);
    ValueOfDec(n);
  }

  /** What follows the last `mark` decides where a text splits: two texts that agree and whose
      tails hold no `mark` have the same head and the same tail. */
  lemma SplitAtLast(a: string, s: string, b: string, t: string, mark: char)
    requires a + [mark] + s == b + [mark] + t
    requires mark !in s && mark !in t
    ensures a == b && s == t
  {
    var whole := a + [mark] + s;
    assert forall k :: |a| < k < |whole| ==> whole[k] == s[k - |a| - 1];
    assert forall k :: |b| < k < |whole| ==> whole[k] == t[k - |b| - 1];
    assert whole[|a|] == mark && whole[|b|] == mark;
    assert |a| == |b|;
    assert a == whole[..|a|] && s == whole[|a| + 1..];
    assert b == whole[..|b|] && t == whole[|b| + 1..];
  }

  /** Distinct members of a finite set are no more than the set holds. */
  lemma {:induction false} DistinctFitsSet<T>(s: seq<T>, held: set<T>)
    requires Distinct(s) && forall x <- s :: x in held
    ensures |s| <= |held|
  {
    if s != [] {
      var last := s[|s| - 1];
      DistinctFitsSet(s[..|s| - 1], held - {last});
    }
  }

  lemma {:induction false} SubsetSize<T>(part: set<T>, whole: set<T>)
    requires part <= whole
    ensures |part| <= |whole| && (part != whole ==> |part| < |whole|)
  {
    if part != {} {
      var x :| x in part;
      SubsetSize(part - {x}, whole - {x});
    }
  }

  /** `f` taken over `bs` in order, from `a` on. */
  function Fold<A, B>(f: (A, B) -> A, a: A, bs: seq<B>): A
    decreases |bs|
  {
    if bs == [] then a else f(Fold(f, a, bs[..|bs| - 1]), bs[|bs| - 1])
  }

  lemma FoldOne<A, B>(f: (A, B) -> A, a: A, b: B)
    ensures Fold(f, a, [b]) == f(a, b)
  {
    assert [b][..0] == [];
  }

  lemma {:induction false} FoldInTurn<A, B>(f: (A, B) -> A, a: A, first: seq<B>, second: seq<B>)
    ensures Fold(f, a, first + second) == Fold(f, Fold(f, a, first), second)
    decreases |second|
  {
    if second == [] {
      assert first + second == first;
    } else {
      FoldInTurn(f, a, first, second[..|second| - 1]);
      assert (first + second)[..|first + second| - 1] == first + second[..|second| - 1];
    }
  }

  /** A step keeps what holds of a fold and of what it was taken over. */
  ghost predicate Keeps<A(!new), B(!new)>(f: (A, B) -> A, inv: (A, seq<B>) -> bool)
  {
    forall a, done, b :: inv(a, done) ==> inv(f(a, b), done + [b])
  }

  lemma {:induction false} FoldKeeps<A(!new), B(!new)>(f: (A, B) -> A, a: A, bs: seq<B>, inv: (A, seq<B>) -> bool)
    requires inv(a, []) && Keeps(f, inv)
    ensures inv(Fold(f, a, bs), bs)
    decreases |bs|
  {
    if bs != [] {
      var front, last := bs[..|bs| - 1], bs[|bs| - 1];
      FoldKeeps(f, a, front, inv);
      assert front + [last] == bs;
    }
  }

  /** What `g` gives at each step of a fold. */
  function Outputs<A, B, C>(f: (A, B) -> A, g: (A, B) -> C, a: A, bs: seq<B>): (r: seq<C>)
    ensures |r| == |bs|
    decreases |bs|
  {
    if bs == [] then []
    else Outputs(f, g, a, bs[..|bs| - 1]) + [g(Fold(f, a, bs[..|bs| - 1]), bs[|bs| - 1])]
  }

  lemma {:induction false} OutputAt<A, B, C>(f: (A, B) -> A, g: (A, B) -> C, a: A, bs: seq<B>, k: nat)
    requires k < |bs|
    ensures Outputs(f, g, a, bs)[k] == g(Fold(f, a, bs[..k]), bs[k])
    decreases |bs|
  {
    var front := bs[..|bs| - 1];
    if k < |front| {
      OutputAt(f, g, a, front, k);
      assert front[..k] == bs[..k];
    }
  }

  function Flat<T>(parts: seq<seq<T>>): seq<T>
    decreases |parts|
  {
    if parts == [] then [] else Flat(parts[..|parts| - 1]) + parts[|parts| - 1]
  }

  lemma {:induction false} FlatHolds<T>(parts: seq<seq<T>>, i: nat, x: T)
    requires i < |parts| && x in parts[i]
    ensures x in Flat(parts)
    decreases |parts|
  {
    var n := |parts| - 1;
    if i < n {
      FlatHolds(parts[..n], i, x);
    }
  }
}
