/** Guess scoring: start_result_sequence's two passes over copies of the code and the guess. */
module Scoring {
  import opened Config

  /** An entry of a working copy: a symbol still available, or one already used (Python's None). */
  datatype Slot = Sym(v: int) | Consumed

  // ---------------------------------------------------------------------------
  // Specification

  /** Number of positions where guess and secret agree. */
  function Bulls(g: seq<int>, s: seq<int>): nat
    requires |g| == |s|
  {
    if g == [] then 0
    else Bulls(g[..|g| - 1], s[..|s| - 1]) + (if g[|g| - 1] == s[|s| - 1] then 1 else 0)
  }

  /** Bulls plus cows as the rules define them: for every symbol, the smaller of its
      number of occurrences in the guess and in the secret, summed over all symbols. */
  function Common(g: seq<int>, s: seq<int>): nat
  {
    |multiset(g) * multiset(s)|
  }

  /** The symbols a slot still offers. */
  function Held(x: Slot): multiset<int>
  {
    if x.Sym? then multiset{x.v} else multiset{}
  }

  /** The symbols still available in a working copy. */
  function Live(c: seq<Slot>): multiset<int>
  {
    if c == [] then multiset{} else Live(c[..|c| - 1]) + Held(c[|c| - 1])
  }

  /** The copy of `g` after the bulls pass against `s`: matched positions consumed. */
  function Mask(g: seq<int>, s: seq<int>): (r: seq<Slot>)
    requires |g| == |s|
    ensures |r| == |g|
  {
    if g == [] then []
    else Mask(g[..|g| - 1], s[..|s| - 1]) + [if g[|g| - 1] == s[|s| - 1] then Consumed else Sym(g[|g| - 1])]
  }

  /** The symbols matched position by position. */
  function Matched(g: seq<int>, s: seq<int>): multiset<int>
    requires |g| == |s|
  {
    if g == [] then multiset{}
    else Matched(g[..|g| - 1], s[..|s| - 1]) + (if g[|g| - 1] == s[|s| - 1] then multiset{g[|g| - 1]} else multiset{})
  }

  // ---------------------------------------------------------------------------
  // Facts about the specification

  /** A full count of bulls happens exactly when the guess is the secret. */
  lemma {:induction false} BullsAllIffEqual(g: seq<int>, s: seq<int>)
    requires |g| == |s|
    ensures Bulls(g, s) <= |g|
    ensures Bulls(g, s) == |g| <==> g == s
  {
    if g != [] {
      var n := |g| - 1;
      BullsAllIffEqual(g[..n], s[..n]);
      assert g == g[..n] + [g[n]] && s == s[..n] + [s[n]];
    }
  }

  /** Bulls over a prefix one position longer. */
  lemma BullsStep(g: seq<int>, s: seq<int>, i: nat)
    requires |g| == |s| && i <= |g|
    ensures i < |g| ==> Bulls(g[..i + 1], s[..i + 1]) == Bulls(g[..i], s[..i]) + (if g[i] == s[i] then 1 else 0)
    ensures i == |g| ==> Bulls(g[..i], s[..i]) == Bulls(g, s)
  {
    if i < |g| {
      assert g[..i + 1][..i] == g[..i] && s[..i + 1][..i] == s[..i];
    } else {
      assert g[..i] == g && s[..i] == s;
    }
  }

  lemma {:induction false} MaskAt(g: seq<int>, s: seq<int>, k: nat)
    requires |g| == |s| && k < |g|
    ensures Mask(g, s)[k] == if g[k] == s[k] then Consumed else Sym(g[k])
  {
    var n := |g| - 1;
    if k < n {
      MaskAt(g[..n], s[..n], k);
    }
  }

  lemma {:induction false} MatchedCount(g: seq<int>, s: seq<int>)
    requires |g| == |s|
    ensures |Matched(g, s)| == Bulls(g, s)
  {
    if g != [] {
      MatchedCount(g[..|g| - 1], s[..|s| - 1]);
    }
  }

  /** A sequence splits into the symbols it matches with `t` and what the bulls pass leaves of it. */
  lemma {:induction false} MaskSplit(g: seq<int>, t: seq<int>)
    requires |g| == |t|
    ensures multiset(g) == Matched(g, t) + Live(Mask(g, t))
  {
    if g != [] {
      var n := |g| - 1;
      MaskSplit(g[..n], t[..n]);
      MultisetSnoc(g);
      LiveSnoc(Mask(g[..n], t[..n]), if g[n] == t[n] then Consumed else Sym(g[n]));
      Regroup(Matched(g[..n], t[..n]), Live(Mask(g[..n], t[..n])), g[n], g[n] == t[n]);
    }
  }

  lemma MultisetSnoc(g: seq<int>)
    requires g != []
    ensures multiset(g) == multiset(g[..|g| - 1]) + multiset{g[|g| - 1]}
  {
    assert g == g[..|g| - 1] + [g[|g| - 1]];
  }

  lemma LiveSnoc(c: seq<Slot>, x: Slot)
    ensures Live(c + [x]) == Live(c) + Held(x)
  {
    assert (c + [x])[..|c|] == c;
  }

  /** The last symbol goes either to the matched part or to the remaining copy. */
  lemma Regroup(a: multiset<int>, b: multiset<int>, x: int, matched: bool)
    ensures (a + (if matched then multiset{x} else multiset{})) + (b + Held(if matched then Consumed else Sym(x)))
            == (a + b) + multiset{x}
  {
  }

  lemma {:induction false} MatchedSymmetric(g: seq<int>, s: seq<int>)
    requires |g| == |s|
    ensures Matched(g, s) == Matched(s, g)
  {
    if g != [] {
      MatchedSymmetric(g[..|g| - 1], s[..|s| - 1]);
    }
  }

  /** Intersecting two multisets that share a common part keeps that part whole. */
  lemma SharedIntersection(m: multiset<int>, a: multiset<int>, b: multiset<int>)
    ensures (m + a) * (m + b) == m + a * b
  {
    forall y ensures ((m + a) * (m + b))[y] == (m + a * b)[y] {
    }
  }

  /** After the bulls pass, bulls plus what the remaining copies share is the full count. */
  lemma CommonSplit(g: seq<int>, s: seq<int>)
    requires |g| == |s|
    ensures Common(g, s) == Bulls(g, s) + |Live(Mask(g, s)) * Live(Mask(s, g))|
  {
    MaskSplit(g, s);
    MaskSplit(s, g);
    MatchedSymmetric(g, s);
    MatchedCount(g, s);
    SharedIntersection(Matched(g, s), Live(Mask(g, s)), Live(Mask(s, g)));
  }

  lemma SubMultisetCard(a: multiset<int>, b: multiset<int>)
    requires a <= b
    ensures |a| <= |b|
  {
    assert b == a + (b - a);
  }

  /** Scores lie between 0 and the code length, and bulls never exceed bulls plus cows. */
  lemma ScoreBounds(g: seq<int>, s: seq<int>)
    requires |g| == |s|
    ensures Bulls(g, s) <= Common(g, s) <= |g|
  {
    CommonSplit(g, s);
    SubMultisetCard(multiset(g) * multiset(s), multiset(g));
  }

  /** Scoring is symmetric: the secret scored against the guess gives the same result. */
  lemma {:induction false} ScoreSymmetric(g: seq<int>, s: seq<int>)
    requires |g| == |s|
    ensures Bulls(g, s) == Bulls(s, g) && Common(g, s) == Common(s, g)
  {
    if g != [] {
      ScoreSymmetric(g[..|g| - 1], s[..|s| - 1]);
    }
    assert multiset(g) * multiset(s) == multiset(s) * multiset(g);
  }

  // ---------------------------------------------------------------------------
  // Facts about working copies

  lemma {:induction false} LiveHas(c: seq<Slot>, x: int)
    ensures Sym(x) in c <==> x in Live(c)
  {
    if c != [] {
      var n := |c| - 1;
      LiveHas(c[..n], x);
      assert c == c[..n] + [c[n]];
    }
  }

  /** Consuming one slot removes exactly its symbol from the copy. */
  lemma {:induction false} LiveConsume(c: seq<Slot>, k: nat)
    requires k < |c| && c[k].Sym?
    ensures Live(c[k := Consumed]) + multiset{c[k].v} == Live(c)
  {
    var n := |c| - 1;
    var c' := c[k := Consumed];
    assert c'[..n] == if k == n then c[..n] else c[..n][k := Consumed];
    if k < n {
      LiveConsume(c[..n], k);
    }
  }

  lemma {:induction false} LiveConcat(a: seq<Slot>, b: seq<Slot>)
    ensures Live(a + b) == Live(a) + Live(b)
  {
    if b != [] {
      var n := |b| - 1;
      LiveConcat(a, b[..n]);
      assert (a + b)[..|a + b| - 1] == a + b[..n];
      assert (a + b)[|a + b| - 1] == b[n];
    } else {
      assert a + b == a;
    }
  }

  /** A guess symbol that finds a free copy in the secret becomes one cow. */
  lemma TakeShared(x: int, a: multiset<int>, b: multiset<int>)
    requires x in b
    ensures (multiset{x} + a) * b == multiset{x} + a * (b - multiset{x})
  {
    forall y ensures ((multiset{x} + a) * b)[y] == (multiset{x} + a * (b - multiset{x}))[y] {
    }
  }

  /** A guess symbol with no free copy in the secret adds nothing. */
  lemma SkipUnshared(x: int, a: multiset<int>, b: multiset<int>)
    requires x !in b
    ensures (multiset{x} + a) * b == a * b
  {
    forall y ensures ((multiset{x} + a) * b)[y] == (a * b)[y] {
    }
  }

  lemma LiveSuffix(p: seq<Slot>, i: nat)
    requires i < |p|
    ensures Live(p[i..]) == Held(p[i]) + Live(p[i + 1..])
  {
    assert p[i..] == [p[i]] + p[i + 1..];
    LiveConcat([p[i]], p[i + 1..]);
    assert [p[i]][..0] == [];
  }

  /** Consuming the secret copy at `k` for a guess symbol equal to it scores one cow: that
      symbol moves from the copy to the cows, and what is left to share shrinks by it. */
  lemma CowTaken(rest: multiset<int>, c: seq<Slot>, k: nat)
    requires k < |c| && c[k].Sym?
    ensures (Held(c[k]) + rest) * Live(c) == Held(c[k]) + rest * Live(c[k := Consumed])
    ensures Live(c[k := Consumed]) + Held(c[k]) == Live(c)
  {
    LiveConsume(c, k);
    assert Live(c[k := Consumed]) == Live(c) - multiset{c[k].v};
    TakeShared(c[k].v, rest, Live(c));
  }

  /** A guess symbol absent from the secret copy scores nothing. */
  lemma CowMissed(rest: multiset<int>, x: int, c: seq<Slot>)
    requires Sym(x) !in c
    ensures (multiset{x} + rest) * Live(c) == rest * Live(c)
  {
    LiveHas(c, x);
    SkipUnshared(x, rest, Live(c));
  }

  /** Bookkeeping of one cow: the symbol moves from the secret copy to the taken ones. */
  lemma TakenStep(taken: multiset<int>, h: multiset<int>, rest: multiset<int>,
                  live: multiset<int>, live': multiset<int>, orig: multiset<int>, total: multiset<int>)
    requires live' + h == live && live + taken == orig
    requires (h + rest) * live == h + rest * live'
    requires taken + (h + rest) * live == total
    ensures live' + (taken + h) == orig
    ensures (taken + h) + rest * live' == total
  {
  }

  // ---------------------------------------------------------------------------
  // The algorithm

  /** Python's list.index: the first position holding `t`. */
  function FirstIndexOf(c: seq<Slot>, t: Slot): (k: nat)
    requires t in c
    ensures k < |c| && c[k] == t
    ensures forall j :: 0 <= j < k ==> c[j] != t
  {
    if c[0] == t then 0 else 1 + FirstIndexOf(c[1..], t)
  }

  /** The bulls pass (game.py:216-217): where the copies agree, count a bull and consume
      both entries. The copies start as plain copies of `guess` and `secret`. */
  method TakeBulls(gc: array<Slot>, sc: array<Slot>, ghost guess: seq<int>, ghost secret: seq<int>)
    returns (bulls: nat)
    requires gc != sc && |guess| == |secret| == gc.Length == sc.Length
    requires forall k :: 0 <= k < gc.Length ==> gc[k] == Sym(guess[k]) && sc[k] == Sym(secret[k])
    modifies gc, sc
    ensures bulls == Bulls(guess, secret)
    ensures gc[..] == Mask(guess, secret) && sc[..] == Mask(secret, guess)
  {
    ghost var mg, ms := Mask(guess, secret), Mask(secret, guess);
    bulls := 0;
    for i := 0 to gc.Length
      invariant bulls == Bulls(guess[..i], secret[..i])
      invariant forall k :: 0 <= k < i ==> gc[k] == mg[k] && sc[k] == ms[k]
      invariant forall k :: i <= k < gc.Length ==> gc[k] == Sym(guess[k]) && sc[k] == Sym(secret[k])
    {
      MaskAt(guess, secret, i);
      MaskAt(secret, guess, i);
      BullsStep(guess, secret, i);
      if gc[i] == sc[i] {
        bulls := bulls + 1;
        sc[i] := Consumed;
        gc[i] := Consumed;
      }
    }
    BullsStep(guess, secret, gc.Length);
  }

  /** The state of the cows pass before guess entry `i`: `taken` holds the symbols consumed
      from the secret copy `s` so far, one per cow, and what the rest of the guess copy `g`
      shares with `s` completes the intersection of `g` with the original copy `orig`. */
  ghost predicate CowsSoFar(g: seq<Slot>, i: nat, s: seq<Slot>, orig: seq<Slot>, taken: multiset<int>, cows: nat)
    requires i <= |g|
  {
    cows == |taken| &&
    Live(s) + taken == Live(orig) &&
    taken + Live(g[i..]) * Live(s) == Live(g) * Live(orig)
  }

  /** A cow: the guess entry at `i` consumes the secret slot `k` holding the same symbol. */
  lemma CowsTakenStep(g: seq<Slot>, i: nat, s: seq<Slot>, orig: seq<Slot>, taken: multiset<int>, cows: nat, k: nat)
    requires i < |g| && k < |s| && g[i].Sym? && s[k] == g[i]
    requires CowsSoFar(g, i, s, orig, taken, cows)
    ensures CowsSoFar(g, i + 1, s[k := Consumed], orig, taken + Held(g[i]), cows + 1)
  {
    LiveSuffix(g, i);
    CowTaken(Live(g[i + 1..]), s, k);
    TakenStep(taken, Held(g[i]), Live(g[i + 1..]), Live(s), Live(s[k := Consumed]),
              Live(orig), Live(g) * Live(orig));
  }

  /** No cow: the guess entry at `i` is consumed already or has no free copy in `s`. */
  lemma CowsSkipStep(g: seq<Slot>, i: nat, s: seq<Slot>, orig: seq<Slot>, taken: multiset<int>, cows: nat)
    requires i < |g| && !(g[i].Sym? && g[i] in s)
    requires CowsSoFar(g, i, s, orig, taken, cows)
    ensures CowsSoFar(g, i + 1, s, orig, taken, cows)
  {
    LiveSuffix(g, i);
    if g[i].Sym? {
      CowMissed(Live(g[i + 1..]), g[i].v, s);
    }
  }

  /** At the end of the pass, `taken` is the whole intersection. */
  lemma CowsDone(g: seq<Slot>, s: seq<Slot>, orig: seq<Slot>, taken: multiset<int>, cows: nat)
    requires CowsSoFar(g, |g|, s, orig, taken, cows)
    ensures cows == |Live(g) * Live(orig)|
    ensures Live(s) + Live(g) * Live(orig) == Live(orig)
  {
    assert g[|g|..] == [];
  }

  /** The cows pass (game.py:218-219): each guess entry still present in the secret copy
      consumes the first such secret entry. The count is what the two copies share, and
      exactly those shared symbols are gone from the secret copy afterwards. */
  method TakeCows(gc: array<Slot>, sc: array<Slot>) returns (cows: nat)
    requires gc != sc
    modifies sc
    ensures cows == |Live(gc[..]) * Live(old(sc[..]))|
    ensures Live(sc[..]) + Live(gc[..]) * Live(old(sc[..])) == Live(old(sc[..]))
  {
    cows := 0;
    ghost var taken: multiset<int> := multiset{};
    ghost var g, orig := gc[..], sc[..];
    assert g[0..] == g;
    for i := 0 to gc.Length
      invariant gc[..] == g
      invariant CowsSoFar(g, i, sc[..], orig, taken, cows)
    {
      if gc[i].Sym? && gc[i] in sc[..] {
        var k := FirstIndexOf(sc[..], gc[i]);
        CowsTakenStep(g, i, sc[..], orig, taken, cows, k);
        taken := taken + Held(gc[i]);
        cows := cows + 1;
        sc[k] := Consumed;
      } else {
        CowsSkipStep(g, i, sc[..], orig, taken, cows);
      }
    }
    CowsDone(g, sc[..], orig, taken, cows);
  }

  /** Scores `guess` against `secret` as start_result_sequence does (game.py:212-219), on
      private copies, so the arguments are not changed. Bulls are the agreeing positions and
      bulls plus cows is, symbol by symbol, the smaller of the two occurrence counts. */
  method Score(guess: seq<int>, secret: seq<int>) returns (bulls: nat, cows: nat)
    requires |guess| == CodeLength && |secret| == CodeLength
    ensures bulls == Bulls(guess, secret)
    ensures bulls + cows == Common(guess, secret)
    ensures bulls + cows <= CodeLength
    ensures bulls == CodeLength <==> guess == secret
  {
    var sc := new Slot[CodeLength](i => if 0 <= i < |secret| then Sym(secret[i]) else Consumed);
    var gc := new Slot[CodeLength](i => if 0 <= i < |guess| then Sym(guess[i]) else Consumed);
    bulls := TakeBulls(gc, sc, guess, secret);
    cows := TakeCows(gc, sc);
    CommonSplit(guess, secret);
    ScoreBounds(guess, secret);
    BullsAllIffEqual(guess, secret);
  }

  // ---------------------------------------------------------------------------
  // Worked examples of the rules

  /** Only two 1s exist in the secret, so the third and fourth guessed 1 score nothing. */
  lemma RepeatedGuessSymbol()
    ensures Bulls([1, 1, 1, 1], [1, 1, 2, 3]) == 2
    ensures Common([1, 1, 1, 1], [1, 1, 2, 3]) == 2
  {
    assert multiset([1, 1, 1, 1]) * multiset([1, 1, 2, 3]) == multiset{1, 1};
    assert [1, 1][..1] == [1] && [1, 1][..1] == [1];
    assert [1, 1, 1][..2] == [1, 1] && [1, 1, 2][..2] == [1, 1];
    assert [1, 1, 1, 1][..3] == [1, 1, 1] && [1, 1, 2, 3][..3] == [1, 1, 2];
  }

  /** Swapping a 1 and a 2 that are both misplaced yields two cows, not four. */
  lemma SwappedPair()
    ensures Bulls([1, 2, 1, 3], [1, 1, 2, 3]) == 2
    ensures Common([1, 2, 1, 3], [1, 1, 2, 3]) == 4
  {
    assert multiset([1, 2, 1, 3]) * multiset([1, 1, 2, 3]) == multiset{1, 1, 2, 3};
    assert [1, 2][..1] == [1] && [1, 1][..1] == [1];
    assert [1, 2, 1][..2] == [1, 2] && [1, 1, 2][..2] == [1, 1];
    assert [1, 2, 1, 3][..3] == [1, 2, 1] && [1, 1, 2, 3][..3] == [1, 1, 2];
  }

  /** A reversed code of distinct symbols is all cows. */
  lemma ReversedCode()
    ensures Bulls([4, 3, 2, 1], [1, 2, 3, 4]) == 0
    ensures Common([4, 3, 2, 1], [1, 2, 3, 4]) == 4
  {
    assert multiset([4, 3, 2, 1]) * multiset([1, 2, 3, 4]) == multiset{1, 2, 3, 4};
    assert [4, 3][..1] == [4] && [1, 2][..1] == [1];
    assert [4, 3, 2][..2] == [4, 3] && [1, 2, 3][..2] == [1, 2];
    assert [4, 3, 2, 1][..3] == [4, 3, 2] && [1, 2, 3, 4][..3] == [1, 2, 3];
  }
}
