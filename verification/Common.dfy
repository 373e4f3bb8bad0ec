/** Small vocabulary shared by the models: results, and facts about finite sets and sequences. */
module Common {

  datatype Option<+T> = None | Some(value: T)

  datatype Result<+T> = Success(value: T) | Failure(error: string)

  function Min(a: int, b: int): int {
    if a <= b then a else b
  }

  function Count(hit: bool): nat {
    if hit then 1 else 0
  }

  /** n * x as repeated addition, for proofs that only ever add one more x. */
  function Times(n: nat, x: nat): nat {
    if n == 0 then 0 else Times(n - 1, x) + x
  }

  lemma {:induction false} TimesIsProduct(n: nat, x: nat)
    ensures Times(n, x) == n * x
  {
    if n > 0 {
      TimesIsProduct(n - 1, x);
      assert n * x == (n - 1) * x + x;
    }
  }

  lemma TimesNext(n: nat, x: nat)
    requires n > 0
    ensures Times(n, x) == Times(n - 1, x) + x
  {
  }

  lemma {:induction false} TimesMonotone(n: nat, m: nat, x: nat)
    requires n <= m
    ensures Times(n, x) <= Times(m, x)
  {
    if n < m {
      TimesMonotone(n, m - 1, x);
    }
  }

  /** A subset of the same size is the whole set. */
  lemma SubsetSize<T>(small: set<T>, big: set<T>)
    requires small <= big
    ensures |small| <= |big|
    ensures |small| == |big| ==> small == big
  {
    assert big == small + (big - small);
    assert |big| == |small| + |big - small|;
  }

  /** A non-empty set has an element whose key is smallest. */
  lemma {:induction false} LeastExists<T>(keys: map<T, int>, s: set<T>)
    requires s != {} && s <= keys.Keys
    ensures exists x :: x in s && forall y | y in s :: keys[x] <= keys[y]
    decreases |s|
  {
    var x :| x in s;
    var rest := s - {x};
    if rest == {} {
      assert s == {x};
    } else {
      LeastExists(keys, rest);
      var m :| m in rest && forall y | y in rest :: keys[m] <= keys[y];
      var best := if keys[x] <= keys[m] then x else m;
      assert best in s && forall y | y in s :: keys[best] <= keys[y];
    }
  }

  predicate NoRepeats<T(==)>(s: seq<T>) {
    forall i, j | 0 <= i < j < |s| :: s[i] != s[j]
  }

  /** strings.Contains */
  predicate Contains(s: string, sub: string) {
    exists i | 0 <= i <= |s| :: sub <= s[i..]
  }

  lemma ContainsExactly(s: string, sub: string)
    ensures Contains(s, sub) <==> exists before, after :: s == before + sub + after
  {
    if i :| 0 <= i <= |s| && sub <= s[i..] {
      assert s == s[..i] + sub + s[i + |sub|..];
    }
    if before, after :| s == before + sub + after {
      assert s[|before|..] == sub + after;
    }
  }

  /** `part` can be obtained from `whole` by dropping elements, keeping the order. */
  predicate Subsequence<T(==)>(part: seq<T>, whole: seq<T>)
    decreases |whole|
  {
    if part == [] then true
    else if whole == [] then false
    else if part[|part| - 1] == whole[|whole| - 1] && Subsequence(part[..|part| - 1], whole[..|whole| - 1]) then true
    else Subsequence(part, whole[..|whole| - 1])
  }

  lemma SubsequenceSkip<T>(part: seq<T>, whole: seq<T>, x: T)
    requires Subsequence(part, whole)
    ensures Subsequence(part, whole + [x])
  {
    assert (whole + [x])[..|whole|] == whole;
  }

  lemma SubsequenceTake<T>(part: seq<T>, whole: seq<T>, x: T)
    requires Subsequence(part, whole)
    ensures Subsequence(part + [x], whole + [x])
  {
    assert (whole + [x])[..|whole|] == whole;
    assert (part + [x])[..|part|] == part;
  }

  /** Dropping the tail of the part keeps it a subsequence. */
  lemma {:induction false} SubsequencePrefix<T>(part: seq<T>, whole: seq<T>, n: nat)
    requires n <= |part| && Subsequence(part, whole)
    ensures Subsequence(part[..n], whole)
    decreases |whole|
  {
    if n == |part| {
      assert part[..n] == part;
    } else if whole != [] {
      var front := whole[..|whole| - 1];
      assert whole == front + [whole[|whole| - 1]];
      if part[|part| - 1] == whole[|whole| - 1] && Subsequence(part[..|part| - 1], front) {
        SubsequencePrefix(part[..|part| - 1], front, n);
        assert part[..|part| - 1][..n] == part[..n];
      } else {
        SubsequencePrefix(part, front, n);
      }
      SubsequenceSkip(part[..n], front, whole[|whole| - 1]);
    }
  }
}
