/** get_random_x_percent and get_random: draw 40% of the active employees
    without replacement, then split the draw 5:3 into a main and a standby
    group. The random draw is a parameter: a permutation of the input
    positions, of which the sample takes the first `SampleSize` entries. */
module Randomizer {
  import opened Records

  /** `perm` lists each position of an `n`-element list exactly once. */
  predicate IsPermutation(perm: seq<nat>, n: nat)
  {
    |perm| == n && (forall i :: 0 <= i < n ==> perm[i] < n) && Distinct(perm)
  }

  /** `int(0.4 * n)`, or `n` when that is 0. The floor of 0.4n is computed
      exactly; the float product cannot cross an integer for realistic n. */
  function SampleSize(n: nat): (sz: nat)
    ensures sz <= n
    ensures n > 0 ==> sz > 0
    ensures n < 3 ==> sz == n
    ensures n >= 3 ==> 5 * sz <= 2 * n < 5 * sz + 5
  {
    var floor := (2 * n) / 5;
    if floor == 0 then n else floor
  }

  /** The elements of `xs` at the positions `idx`, in that order. */
  function Pick<T>(xs: seq<T>, idx: seq<nat>): (s: seq<T>)
    requires forall i :: 0 <= i < |idx| ==> idx[i] < |xs|
    ensures |s| == |idx|
  {
    seq(|idx|, i requires 0 <= i < |idx| => xs[idx[i]])
  }

  /** get_random_x_percent(xs, 0.4) with the draw order `perm`. */
  function RandomSample<T>(xs: seq<T>, perm: seq<nat>): (s: seq<T>)
    requires IsPermutation(perm, |xs|)
    ensures |s| == SampleSize(|xs|)
  {
    Pick(xs, perm[..SampleSize(|xs|)])
  }

  /** `(5 * size) // 8`: the largest k with 8k <= 5 size. */
  function SplitPoint(size: nat): (k: nat)
    ensures k <= size
    ensures 8 * k <= 5 * size < 8 * k + 8
  {
    (5 * size) / 8
  }

  /** get_random: the first SplitPoint elements of the sample are the main
      group, the rest the standby group. */
  function GetRandom(userList: seq<Employee>, perm: seq<nat>): (r: RandomizerResult)
    requires IsPermutation(perm, |userList|)
    ensures r.mainList + r.standbyList == RandomSample(userList, perm)
    ensures |r.mainList| == SplitPoint(|r.mainList| + |r.standbyList|)
  {
    var sample := RandomSample(userList, perm);
    var split := SplitPoint(|sample|);
    assert sample[..split] + sample[split..] == sample;
    RandomizerResult(sample[..split], sample[split..])
  }

  /** Elements picked at distinct positions form a sub-multiset of the
      list: nothing is drawn twice. */
  lemma {:induction false} PickIsSubMultiset<T>(xs: seq<T>, idx: seq<nat>)
    requires forall i :: 0 <= i < |idx| ==> idx[i] < |xs|
    requires Distinct(idx)
    ensures multiset(Pick(xs, idx)) <= multiset(xs)
    decreases |idx|
  {
    if idx != [] {
      var n := |idx| - 1;
      var j := idx[n];
      var rest := xs[..j] + xs[j + 1..];
      var shifted := seq(n, i requires 0 <= i < n => if idx[i] < j then idx[i] else idx[i] - 1);
      forall i | 0 <= i < n
        ensures shifted[i] < |rest| && rest[shifted[i]] == xs[idx[i]]
      {
        assert idx[i] != j;
      }
      forall a, b | 0 <= a < b < n
        ensures shifted[a] != shifted[b]
      {
        assert idx[a] != j && idx[b] != j && idx[a] != idx[b];
      }
      PickIsSubMultiset(rest, shifted);
      assert Pick(xs, idx) == Pick(rest, shifted) + [xs[j]];
      assert xs == xs[..j] + [xs[j]] + xs[j + 1..];
      assert multiset(xs) == multiset(rest) + multiset{xs[j]};
    }
  }

  /** The sample is drawn without replacement. */
  lemma SampleWithoutReplacement<T>(xs: seq<T>, perm: seq<nat>)
    requires IsPermutation(perm, |xs|)
    ensures multiset(RandomSample(xs, perm)) <= multiset(xs)
  {
    var idx := perm[..SampleSize(|xs|)];
    assert forall a, b :: 0 <= a < b < |idx| ==> idx[a] == perm[a] && idx[b] == perm[b];
    PickIsSubMultiset(xs, idx);
  }

  /** Main and standby come from distinct input positions: together they
      never hold an employee more often than the input does, and when the
      input lists each employee once the two groups share no one. */
  lemma MainAndStandbyDisjoint(userList: seq<Employee>, perm: seq<nat>)
    requires IsPermutation(perm, |userList|)
    ensures var r := GetRandom(userList, perm);
      && multiset(r.mainList) + multiset(r.standbyList) <= multiset(userList)
      && (Distinct(userList) ==> forall e :: e in r.mainList ==> e !in r.standbyList)
  {
    var r := GetRandom(userList, perm);
    var sample := RandomSample(userList, perm);
    SampleWithoutReplacement(userList, perm);
    assert multiset(sample) == multiset(r.mainList) + multiset(r.standbyList);
    if Distinct(userList) {
      var split := |r.mainList|;
      forall e | e in r.mainList
        ensures e !in r.standbyList
      {
        var a :| 0 <= a < split && r.mainList[a] == e;
        forall b | 0 <= b < |r.standbyList|
          ensures r.standbyList[b] != e
        {
          assert perm[a] != perm[split + b];
        }
      }
    }
  }

  /** Sizes for the empty list, one employee, and 10 and 20 employees. */
  lemma SplitExamples(userList: seq<Employee>, perm: seq<nat>)
    requires IsPermutation(perm, |userList|)
    ensures |userList| == 0 ==> GetRandom(userList, perm) == RandomizerResult([], [])
    ensures |userList| == 1 ==> GetRandom(userList, perm) == RandomizerResult([], userList)
    ensures |userList| == 10 ==>
      |GetRandom(userList, perm).mainList| == 2 && |GetRandom(userList, perm).standbyList| == 2
    ensures |userList| == 20 ==>
      |GetRandom(userList, perm).mainList| == 5 && |GetRandom(userList, perm).standbyList| == 3
  {
    var r := GetRandom(userList, perm);
    if |userList| == 1 {
      assert perm[0] == 0;
      assert r.standbyList == RandomSample(userList, perm) == [userList[0]];
    }
  }
}
