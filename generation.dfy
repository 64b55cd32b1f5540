/** Secret generation: the code-building half of init_game (game.py:89-101). The random
    choices are inputs: which branch was taken, what random.sample returned, and the
    numbers random.shuffle drew. */
module Generation {
  import opened Config

  /** No symbol appears twice. */
  predicate Distinct(s: seq<int>)
  {
    forall i, j :: 0 <= i < j < |s| ==> s[i] != s[j]
  }

  /** What random.sample(range(ActiveIcons), k) can return: k distinct symbols of the alphabet. */
  predicate IsSample(picks: seq<int>, k: nat)
  {
    |picks| == k && Distinct(picks) && InAlphabet(picks)
  }

  /** What random.shuffle draws for a list of length n: for each position i >= 1, an index
      d[i] in 0 .. i (randbelow(i + 1)); d[0] is never read. */
  predicate IsDraws(d: seq<nat>, n: nat)
  {
    |d| == n && forall i :: 0 <= i < n ==> d[i] <= i
  }

  /** `s` with the entries at `i` and `j` exchanged. */
  function Swap(s: seq<int>, i: nat, j: nat): (r: seq<int>)
    requires i < |s| && j < |s|
    ensures |r| == |s|
  {
    s[i := s[j]][j := s[i]]
  }

  /** The Fisher-Yates steps of random.shuffle for positions i, i - 1, ..., 1. */
  function ShuffleFrom(s: seq<int>, d: seq<nat>, i: int): seq<int>
    requires IsDraws(d, |s|) && i < |s|
    decreases i
  {
    if i <= 0 then s else ShuffleFrom(Swap(s, i, d[i]), d, i - 1)
  }

  /** The list random.shuffle leaves when it draws `d`. */
  function Shuffled(s: seq<int>, d: seq<nat>): seq<int>
    requires IsDraws(d, |s|)
  {
    ShuffleFrom(s, d, |s| - 1)
  }

  /** Shuffling only rearranges: same length, same symbols with the same multiplicities. */
  lemma {:induction false} ShufflePermutes(s: seq<int>, d: seq<nat>, i: int)
    requires IsDraws(d, |s|) && i < |s|
    ensures |ShuffleFrom(s, d, i)| == |s|
    ensures multiset(ShuffleFrom(s, d, i)) == multiset(s)
    decreases i
  {
    if i > 0 {
      var t := Swap(s, i, d[i]);
      assert multiset(t) == multiset(s);
      ShufflePermutes(t, d, i - 1);
    }
  }

  /** random.shuffle: in place, positions from the last down to 1, each swapped with a
      drawn position at or before it. */
  method Shuffle(a: array<int>, d: seq<nat>)
    requires IsDraws(d, a.Length)
    modifies a
    ensures a[..] == Shuffled(old(a[..]), d)
    ensures multiset(a[..]) == multiset(old(a[..]))
  {
    var i := a.Length - 1;
    while i > 0
      invariant -1 <= i < a.Length
      invariant ShuffleFrom(a[..], d, i) == Shuffled(old(a[..]), d)
    {
      var j := d[i];
      a[i], a[j] := a[j], a[i];
      i := i - 1;
    }
    ShufflePermutes(old(a[..]), d, a.Length - 1);
  }

  /** The secret init_game builds from the random choices: with `pair`, the first of three
      sampled symbols doubled and the four shuffled; otherwise the four sampled symbols. */
  function Generated(pair: bool, picks: seq<int>, d: seq<nat>): seq<int>
    requires IsSample(picks, if pair then 3 else CodeLength)
    requires pair ==> IsDraws(d, CodeLength)
  {
    if pair then Shuffled([picks[0], picks[0], picks[1], picks[2]], d) else picks
  }

  /** The shape of every generated secret: four symbols of the alphabet; in the pair branch
      the first sampled symbol twice and the other two once each, so not all distinct; in
      the other branch four distinct symbols. */
  lemma GeneratedShape(pair: bool, picks: seq<int>, d: seq<nat>)
    requires IsSample(picks, if pair then 3 else CodeLength)
    requires pair ==> IsDraws(d, CodeLength)
    ensures |Generated(pair, picks, d)| == CodeLength
    ensures InAlphabet(Generated(pair, picks, d))
    ensures pair ==> PairShaped(Generated(pair, picks, d), picks[0], picks[1], picks[2])
    ensures !pair ==> Distinct(Generated(pair, picks, d))
  {
    if pair {
      PairGenerated(picks, d);
      PairShapeOf(Generated(pair, picks, d), picks);
    }
  }

  /** The pair branch shuffles exactly the symbols a, a, b, c. */
  lemma PairGenerated(picks: seq<int>, d: seq<nat>)
    requires IsSample(picks, 3) && IsDraws(d, CodeLength)
    ensures multiset(Generated(true, picks, d)) == multiset{picks[0], picks[0], picks[1], picks[2]}
  {
    ShuffledKeeps([picks[0], picks[0], picks[1], picks[2]], d);
  }

  lemma ShuffledKeeps(s: seq<int>, d: seq<nat>)
    requires IsDraws(d, |s|)
    ensures multiset(Shuffled(s, d)) == multiset(s)
  {
    ShufflePermutes(s, d, |s| - 1);
  }

  /** Any arrangement of a, a, b, c, for three distinct sampled symbols a, b, c. */
  lemma PairShapeOf(r: seq<int>, picks: seq<int>)
    requires IsSample(picks, 3)
    requires multiset(r) == multiset{picks[0], picks[0], picks[1], picks[2]}
    ensures InAlphabet(r) && PairShaped(r, picks[0], picks[1], picks[2])
  {
    forall k | 0 <= k < |r| ensures 0 <= r[k] < ActiveIcons {
      assert r[k] in multiset(r);
    }
    PairRepeats(r, picks[0]);
  }

  /** `s` holds `x` twice, `y` once, `z` once and nothing else. */
  predicate PairShaped(s: seq<int>, x: int, y: int, z: int)
  {
    var m := multiset(s);
    |s| == 4 && m[x] == 2 && m[y] == 1 && m[z] == 1 && m == multiset{x, x, y, z} && !Distinct(s)
  }

  /** A symbol with two occurrences sits at two different positions. */
  lemma PairRepeats(s: seq<int>, x: int)
    requires multiset(s)[x] >= 2
    ensures exists i, j :: 0 <= i < j < |s| && s[i] == x && s[j] == x
  {
    var i :| 0 <= i < |s| && s[i] == x;
    var rest := s[..i] + s[i + 1..];
    assert s == s[..i] + [s[i]] + s[i + 1..];
    assert multiset(rest)[x] >= 1;
    var k :| 0 <= k < |rest| && rest[k] == x;
    if k < i {
      assert s[k] == x;
    } else {
      assert s[k + 1] == x;
    }
  }

  /** init_game's code generation: in the pair branch build [a, a, b, c] and shuffle it in
      place; otherwise take the four-symbol sample as it is. */
  method NewSecret(pair: bool, picks: seq<int>, d: seq<nat>) returns (code: seq<int>)
    requires IsSample(picks, if pair then 3 else CodeLength)
    requires pair ==> IsDraws(d, CodeLength)
    ensures code == Generated(pair, picks, d)
    ensures |code| == CodeLength && InAlphabet(code)
    ensures pair ==> PairShaped(code, picks[0], picks[1], picks[2])
    ensures !pair ==> Distinct(code)
  {
    if pair {
      var a := new int[CodeLength];
      a[0], a[1], a[2], a[3] := picks[0], picks[0], picks[1], picks[2];
      assert a[..] == [picks[0], picks[0], picks[1], picks[2]];
      Shuffle(a, d);
      code := a[..];
    } else {
      code := picks;
    }
    GeneratedShape(pair, picks, d);
  }
}
