/** The textbook rule the hand checker is meant to implement ("four melds and
    a pair"), and the concrete hands on which the checker as written and the
    textbook rule disagree. */
module Standard {
  import opened Tiles
  import opened Melds
  import opened Hands

  predicate IsNumberSuit(c: char)
  {
    c in NumberSuits
  }

  /** Three consecutive ranks of one number suit, lowest first. */
  predicate IsRun(g: seq<Tile>)
  {
    |g| == 3 && IsNumberSuit(g[0].suit) &&
    g[1] == Tile(g[0].suit, g[0].rank + 1) && g[2] == Tile(g[0].suit, g[0].rank + 2)
  }

  /** Three copies of one tile type. */
  predicate IsIdenticalTriplet(g: seq<Tile>)
  {
    |g| == 3 && g[1] == g[0] && g[2] == g[0]
  }

  predicate ProperMeld(g: seq<Tile>)
  {
    IsRun(g) || IsIdenticalTriplet(g)
  }

  predicate AllProperMelds(gs: seq<seq<Tile>>)
  {
    forall k :: 0 <= k < |gs| ==> ProperMeld(gs[k])
  }

  /** The tiles can be split, in any way at all, into proper melds. */
  ghost predicate IntendedMelds(m: multiset<Tile>)
  {
    exists gs :: AllProperMelds(gs) && multiset(Flatten(gs)) == m
  }

  /** Fourteen tiles: one pair (exactly two copies of a type) plus four
      proper melds made of the other twelve. */
  ghost predicate IntendedWin(h: seq<Tile>)
  {
    |h| == 14 && exists t :: Count(h, t) >= 2 && IntendedMelds(multiset(h) - multiset{t, t})
  }

  /** The checker accepts every single proper meld on its own: a run or an
      identical triplet, sorted, is a window that passes a rank test. */
  lemma SingleMeldAccepted(g: seq<Tile>)
    requires ProperMeld(g)
    ensures FormsMelds(g)
  {
    assert Sorted(g);
    SortOfSorted(g);
    assert WindowMelds(g, 0) && Without(g, 0) == [];
  }

  /** The first group of a split lies within the split's tiles. */
  lemma FirstGroupWithin(gs: seq<seq<Tile>>)
    requires |gs| > 0
    ensures multiset(gs[0]) <= multiset(Flatten(gs))
  {
  }

  /** Interleaved runs are missed: 1,1,2,2,3,3 of one suit is two runs, but
      no adjacent window of the sorted tiles passes a test. */
  lemma InterleavedRunsMissed()
    ensures var s := [Tile('萬', 1), Tile('萬', 1), Tile('萬', 2), Tile('萬', 2), Tile('萬', 3), Tile('萬', 3)];
      !FormsMelds(s) && IntendedMelds(multiset(s))
  {
    var s := [Tile('萬', 1), Tile('萬', 1), Tile('萬', 2), Tile('萬', 2), Tile('萬', 3), Tile('萬', 3)];
    assert Sorted(s);
    forall i: nat | i + 3 <= |s|
      ensures !WindowMelds(s, i)
    {
      assert i <= 3;
    }
    NoWindowNoMelds(s);
    var run := [Tile('萬', 1), Tile('萬', 2), Tile('萬', 3)];
    TwoRuns(s, run);
  }

  lemma TwoRuns(s: seq<Tile>, run: seq<Tile>)
    requires s == [Tile('萬', 1), Tile('萬', 1), Tile('萬', 2), Tile('萬', 2), Tile('萬', 3), Tile('萬', 3)]
    requires run == [Tile('萬', 1), Tile('萬', 2), Tile('萬', 3)]
    ensures IntendedMelds(multiset(s))
  {
    FlattenCons(run, [run]);
    FlattenCons(run, []);
    assert ProperMeld(run);
    SameTiles(s, run);
    Split([run, run], multiset(s));
  }

  lemma SameTiles(s: seq<Tile>, run: seq<Tile>)
    requires s == [Tile('萬', 1), Tile('萬', 1), Tile('萬', 2), Tile('萬', 2), Tile('萬', 3), Tile('萬', 3)]
    requires run == [Tile('萬', 1), Tile('萬', 2), Tile('萬', 3)]
    ensures multiset(run + run) == multiset(s)
  {
  }

  /** Any split into proper melds witnesses the textbook predicate. */
  lemma Split(gs: seq<seq<Tile>>, m: multiset<Tile>)
    requires AllProperMelds(gs) && multiset(Flatten(gs)) == m
    ensures IntendedMelds(m)
  {
  }

  /** Suits are ignored: three rank-1 honour tiles of three different winds
      pass the triplet test, though they are no meld. */
  lemma MixedHonoursAccepted()
    ensures var s := [Tile('南', 1), Tile('東', 1), Tile('西', 1)];
      FormsMelds(s) && !IntendedMelds(multiset(s))
  {
    var s := [Tile('南', 1), Tile('東', 1), Tile('西', 1)];
    assert Sorted(s);
    assert WindowMelds(s, 0) && Without(s, 0) == [];
    WindowThenMelds(s, 0);
    NoMeldAmong(s[0], s[1], s[2]);
    assert s == [s[0], s[1], s[2]];
  }

  /** Suits are ignored: the sorted-adjacent window 白1, 筒2, 筒3 passes the
      sequence test, though it is no meld. */
  lemma CrossSuitSequenceAccepted()
    ensures var s := [Tile('白', 1), Tile('筒', 2), Tile('筒', 3)];
      FormsMelds(s) && !IntendedMelds(multiset(s))
  {
    var s := [Tile('白', 1), Tile('筒', 2), Tile('筒', 3)];
    assert Sorted(s);
    assert WindowMelds(s, 0) && Without(s, 0) == [];
    WindowThenMelds(s, 0);
    NoMeldAmong(s[0], s[1], s[2]);
    assert s == [s[0], s[1], s[2]];
  }

  /** Three distinct tiles not all of one suit hold no proper meld, so they
      have no split into proper melds. */
  lemma NoMeldAmong(a: Tile, b: Tile, c: Tile)
    requires a != b && b != c && a != c && a.suit != b.suit
    ensures !IntendedMelds(multiset{a, b, c})
  {
    if IntendedMelds(multiset{a, b, c}) {
      var gs: seq<seq<Tile>> :| AllProperMelds(gs) && multiset(Flatten(gs)) == multiset{a, b, c};
      assert |gs| > 0;
      FirstGroupWithin(gs);
      GroupOfThree(gs[0], a, b, c);
      assert false;
    }
  }

  /** A proper meld drawn from three distinct tiles uses all three, so they
      share one suit. */
  lemma GroupOfThree(g: seq<Tile>, a: Tile, b: Tile, c: Tile)
    requires a != b && b != c && a != c
    requires ProperMeld(g) && multiset(g) <= multiset{a, b, c}
    ensures a.suit == b.suit
  {
    assert g == [g[0], g[1], g[2]];
    assert g[0] in multiset(g) && g[1] in multiset(g) && g[2] in multiset(g);
    if !IsIdenticalTriplet(g) {
      assert g[0] != g[1] && g[1] != g[2] && g[0] != g[2];
      assert a in multiset(g) && b in multiset(g);
    }
  }

  /** The pair step removes every copy of the pair's type: with three 萬1
      the textbook split (pair 萬1 萬1, run 萬1 萬2 萬3) is never tried, and
      the eleven tiles left cannot form melds. */
  lemma PairStepDropsAllCopies()
    ensures var h := [Tile('萬', 1), Tile('萬', 1), Tile('萬', 1), Tile('萬', 2), Tile('萬', 3),
                      Tile('筒', 1), Tile('筒', 2), Tile('筒', 3),
                      Tile('索', 1), Tile('索', 2), Tile('索', 3),
                      Tile('索', 7), Tile('索', 8), Tile('索', 9)];
      !ValidHand(h) && IntendedWin(h)
  {
    var h := [Tile('萬', 1), Tile('萬', 1), Tile('萬', 1), Tile('萬', 2), Tile('萬', 3),
              Tile('筒', 1), Tile('筒', 2), Tile('筒', 3),
              Tile('索', 1), Tile('索', 2), Tile('索', 3),
              Tile('索', 7), Tile('索', 8), Tile('索', 9)];
    ThreeOfOneKind(h);
    TextbookSplit(h);
  }

  lemma ThreeOfOneKind(h: seq<Tile>)
    requires h == [Tile('萬', 1), Tile('萬', 1), Tile('萬', 1), Tile('萬', 2), Tile('萬', 3),
                   Tile('筒', 1), Tile('筒', 2), Tile('筒', 3),
                   Tile('索', 1), Tile('索', 2), Tile('索', 3),
                   Tile('索', 7), Tile('索', 8), Tile('索', 9)]
    ensures !ValidHand(h)
  {
    var one := Tile('萬', 1);
    var tail := [Tile('萬', 1), Tile('萬', 2), Tile('萬', 3),
                 Tile('筒', 1), Tile('筒', 2), Tile('筒', 3),
                 Tile('索', 1), Tile('索', 2), Tile('索', 3),
                 Tile('索', 7), Tile('索', 8), Tile('索', 9)];
    TailDistinct(tail);
    var rest := tail[1..];
    assert tail == [one] + rest;
    DistinctCons(one, rest);
    assert h == [one, one] + tail;
    OnlyCandidateIsTriple(h, one, rest);
  }

  lemma TailDistinct(tail: seq<Tile>)
    requires tail == [Tile('萬', 1), Tile('萬', 2), Tile('萬', 3),
                      Tile('筒', 1), Tile('筒', 2), Tile('筒', 3),
                      Tile('索', 1), Tile('索', 2), Tile('索', 3),
                      Tile('索', 7), Tile('索', 8), Tile('索', 9)]
    ensures Distinct(tail)
  {
    IncreasingDistinct(tail);
  }

  /** A number tile's place in suit-then-rank order, the suits taken in
      enumeration order. */
  function NumberKey(t: Tile): (k: int)
  {
    (if t.suit == '萬' then 0 else if t.suit == '筒' then 10 else 20) + t.rank
  }

  /** Number tiles of ranks 1 to 9 listed with strictly increasing keys are
      all different. */
  lemma {:induction false} IncreasingDistinct(s: seq<Tile>)
    requires forall i :: 0 <= i < |s| ==> s[i].suit in NumberSuits && 1 <= s[i].rank <= 9
    requires forall i :: 0 <= i < |s| - 1 ==> NumberKey(s[i]) < NumberKey(s[i + 1])
    ensures Distinct(s)
  {
    if |s| > 0 {
      IncreasingDistinct(s[1..]);
      KeysAbove(s);
    }
  }

  lemma {:induction false} KeysAbove(s: seq<Tile>)
    requires |s| > 0
    requires forall i :: 0 <= i < |s| - 1 ==> NumberKey(s[i]) < NumberKey(s[i + 1])
    ensures forall j :: 0 < j < |s| ==> NumberKey(s[0]) < NumberKey(s[j])
  {
    if |s| > 1 {
      KeysAbove(s[1..]);
      forall j | 1 < j < |s|
        ensures NumberKey(s[0]) < NumberKey(s[j])
      {
        assert s[1..][j - 1] == s[j];
      }
    }
  }

  lemma DistinctCons(x: Tile, s: seq<Tile>)
    requires Distinct([x] + s)
    ensures Distinct(s) && x !in s
  {
    forall i, j | 0 <= i < j < |s|
      ensures s[i] != s[j]
    {
      assert ([x] + s)[i + 1] == s[i] && ([x] + s)[j + 1] == s[j];
    }
    forall j | 0 <= j < |s|
      ensures s[j] != x
    {
      assert ([x] + s)[0] == x && ([x] + s)[j + 1] == s[j];
    }
  }

  /** A hand of three copies of one type and eleven other distinct tiles:
      the only candidate is the triple, and dropping all three leaves eleven
      tiles, not a multiple of three. */
  lemma OnlyCandidateIsTriple(h: seq<Tile>, one: Tile, rest: seq<Tile>)
    requires h == [one, one, one] + rest && |rest| == 11
    requires Distinct(rest) && one !in rest
    ensures !ValidHand(h)
  {
    forall t | Count(h, t) >= 2
      ensures !FormsMelds(RemoveAll(h, t))
    {
      OnlyTriple(h, one, rest, t);
      ElevenFail(RemoveAll(h, t));
    }
  }

  lemma ElevenFail(x: seq<Tile>)
    requires |x| == 11
    ensures !FormsMelds(x)
  {
    assert |x| % 3 == 2;
    MeldsLength(x);
  }

  lemma OnlyTriple(h: seq<Tile>, one: Tile, rest: seq<Tile>, t: Tile)
    requires h == [one, one, one] + rest && |rest| == 11
    requires Distinct(rest) && one !in rest
    requires Count(h, t) >= 2
    ensures |RemoveAll(h, t)| == 11
  {
    assert multiset(h) == multiset{one, one, one} + multiset(rest);
    DistinctCount(rest, t);
    assert t == one;
    assert Count(h, t) == 3;
  }

  lemma TextbookSplit(h: seq<Tile>)
    requires h == [Tile('萬', 1), Tile('萬', 1), Tile('萬', 1), Tile('萬', 2), Tile('萬', 3),
                   Tile('筒', 1), Tile('筒', 2), Tile('筒', 3),
                   Tile('索', 1), Tile('索', 2), Tile('索', 3),
                   Tile('索', 7), Tile('索', 8), Tile('索', 9)]
    ensures IntendedWin(h)
  {
    var w := [Tile('萬', 1), Tile('萬', 2), Tile('萬', 3)];
    var p := [Tile('筒', 1), Tile('筒', 2), Tile('筒', 3)];
    var s1 := [Tile('索', 1), Tile('索', 2), Tile('索', 3)];
    var s7 := [Tile('索', 7), Tile('索', 8), Tile('索', 9)];
    assert ProperMeld(w) && ProperMeld(p) && ProperMeld(s1) && ProperMeld(s7);
    var pair := Tile('萬', 1);
    assert h == [pair, pair] + (w + p + s1 + s7);
    PairAndFourMelds(h, pair, w, p, s1, s7);
  }

  /** A pair followed by four proper melds is a textbook winning hand. */
  lemma PairAndFourMelds(h: seq<Tile>, pair: Tile, g1: seq<Tile>, g2: seq<Tile>, g3: seq<Tile>, g4: seq<Tile>)
    requires ProperMeld(g1) && ProperMeld(g2) && ProperMeld(g3) && ProperMeld(g4)
    requires h == [pair, pair] + (g1 + g2 + g3 + g4)
    ensures IntendedWin(h)
  {
    var gs := [g1, g2, g3, g4];
    FlattenFour(g1, g2, g3, g4);
    assert AllProperMelds(gs);
    PairWitness(h, pair, gs);
  }

  lemma FlattenFour(g1: seq<Tile>, g2: seq<Tile>, g3: seq<Tile>, g4: seq<Tile>)
    ensures Flatten([g1, g2, g3, g4]) == g1 + g2 + g3 + g4
  {
    FlattenCons(g4, []);
    FlattenCons(g3, [g4]);
    FlattenCons(g2, [g3, g4]);
    FlattenCons(g1, [g2, g3, g4]);
  }

  lemma PairWitness(h: seq<Tile>, pair: Tile, gs: seq<seq<Tile>>)
    requires |h| == 14 && AllProperMelds(gs) && h == [pair, pair] + Flatten(gs)
    ensures IntendedWin(h)
  {
    assert multiset(h) == multiset{pair, pair} + multiset(Flatten(gs));
    Split(gs, multiset(h) - multiset{pair, pair});
    assert Count(h, pair) >= 2;
  }
}
