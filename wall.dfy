/** The wall: the fixed enumeration of 136 tiles and its shuffle. */
module Wall {
  import opened Tiles

  /** Ranks 1 to 9 of one number suit, in rank order. */
  function SuitTiles(suit: char): (r: seq<Tile>)
    ensures |r| == 9
  {
    seq(9, i => Tile(suit, i + 1))
  }

  /** Ranks 1 to 9 of each suit in turn. */
  function NumberTiles(suits: seq<char>): (r: seq<Tile>)
  {
    if |suits| == 0 then [] else SuitTiles(suits[0]) + NumberTiles(suits[1..])
  }

  /** Rank 1 of each honour in turn. */
  function HonorTiles(honors: seq<char>): (r: seq<Tile>)
    ensures |r| == |honors|
  {
    seq(|honors|, i requires 0 <= i < |honors| => Tile(honors[i], 1))
  }

  /** n copies of s joined end to end, as list repetition does. */
  function Repeat(s: seq<Tile>, n: nat): (r: seq<Tile>)
  {
    if n == 0 then [] else s + Repeat(s, n - 1)
  }

  /** The wall before shuffling: the number types four times over, then the
      honour types four times over. */
  function OrderedWall(): (r: seq<Tile>)
  {
    Enumeration(NumberSuits, Honors)
  }

  /** Ranks 1 to 9 of the given suits and rank 1 of the given honours, each
      block repeated four times. */
  function Enumeration(suits: seq<char>, honors: seq<char>): (r: seq<Tile>)
  {
    Repeat(NumberTiles(suits), 4) + Repeat(HonorTiles(honors), 4)
  }

  /** s with the tiles at i and j exchanged. */
  function Swap(s: seq<Tile>, i: nat, j: nat): (r: seq<Tile>)
    requires i < |s| && j < |s|
    ensures |r| == |s| && multiset(r) == multiset(s)
  {
    s[i := s[j]][j := s[i]]
  }

  /** The shuffle as a Fisher–Yates pass: for i from n - 1 down to 1, the
      tile at i is exchanged with the one at rolls[i] % (i + 1). */
  function ShuffleDown(s: seq<Tile>, rolls: seq<nat>, i: nat): (r: seq<Tile>)
    requires i < |s| <= |rolls|
    ensures |r| == |s| && multiset(r) == multiset(s)
    decreases i
  {
    if i == 0 then s else ShuffleDown(Swap(s, i, rolls[i] % (i + 1)), rolls, i - 1)
  }

  function Shuffle(s: seq<Tile>, rolls: seq<nat>): (r: seq<Tile>)
    requires |s| <= |rolls|
    ensures |r| == |s| && multiset(r) == multiset(s)
  {
    if |s| == 0 then s else ShuffleDown(s, rolls, |s| - 1)
  }

  /** A tile type of the set: a number suit with rank 1 to 9, or an honour
      with rank 1. */
  predicate IsWallType(t: Tile)
  {
    IsTypeOf(NumberSuits, Honors, t)
  }

  /** t is ranks 1 to 9 of one of the suits, or rank 1 of one of the honours. */
  predicate IsTypeOf(suits: seq<char>, honors: seq<char>, t: Tile)
  {
    (t.suit in suits && 1 <= t.rank <= 9) || (t.suit in honors && t.rank == 1)
  }

  /** No suit is listed twice. */
  predicate NoRepeats(cs: seq<char>)
  {
    |cs| == 0 || (cs[0] !in cs[1..] && NoRepeats(cs[1..]))
  }

  /** The shuffled wall: 136 tiles, four copies of each of the 34 types and
      nothing else. */
  method CreateWall(rolls: seq<nat>) returns (wall: seq<Tile>)
    requires |rolls| >= 136
    ensures |wall| == 136
    ensures forall t :: Count(wall, t) == if IsWallType(t) then 4 else 0
  {
    OrderedWallLength();
    assert forall t :: Count(OrderedWall(), t) == if IsWallType(t) then 4 else 0 by {
      forall t
        ensures Count(OrderedWall(), t) == if IsWallType(t) then 4 else 0
      {
        OrderedWallCount(t);
      }
    }
    wall := Shuffle(OrderedWall(), rolls);
  }

  /** A list without repeats holds one copy of each of its members. */
  lemma DistinctMembers(s: seq<Tile>, t: Tile)
    requires Distinct(s)
    ensures Count(s, t) == if t in s then 1 else 0
  {
    DistinctCount(s, t);
  }

  lemma SuitTilesCount(suit: char, t: Tile)
    ensures Count(SuitTiles(suit), t) == if t.suit == suit && 1 <= t.rank <= 9 then 1 else 0
  {
    DistinctMembers(SuitTiles(suit), t);
    if t.suit == suit && 1 <= t.rank <= 9 {
      assert SuitTiles(suit)[t.rank - 1] == t;
    }
  }

  lemma {:induction false} NumberTilesLength(suits: seq<char>)
    ensures |NumberTiles(suits)| == 9 * |suits|
  {
    if |suits| > 0 {
      NumberTilesLength(suits[1..]);
    }
  }

  lemma {:induction false} NumberTilesCount(suits: seq<char>, t: Tile)
    requires NoRepeats(suits)
    ensures Count(NumberTiles(suits), t) == if t.suit in suits && 1 <= t.rank <= 9 then 1 else 0
  {
    if |suits| > 0 {
      var head := SuitTiles(suits[0]);
      var tail := NumberTiles(suits[1..]);
      assert NumberTiles(suits) == head + tail;
      CountAppend(head, tail, t);
      SuitTilesCount(suits[0], t);
      NumberTilesCount(suits[1..], t);
      HeadOrTail(suits, t.suit);
    }
  }

  lemma CountAppend(a: seq<Tile>, b: seq<Tile>, t: Tile)
    ensures Count(a + b, t) == Count(a, t) + Count(b, t)
  {
    assert multiset(a + b) == multiset(a) + multiset(b);
  }

  lemma HeadOrTail(cs: seq<char>, c: char)
    requires |cs| > 0
    ensures c in cs <==> c == cs[0] || c in cs[1..]
  {
    assert cs == [cs[0]] + cs[1..];
  }

  lemma HonorTilesCount(honors: seq<char>, t: Tile)
    requires Pairwise(honors)
    ensures Count(HonorTiles(honors), t) == if t.suit in honors && t.rank == 1 then 1 else 0
  {
    DistinctMembers(HonorTiles(honors), t);
    if t.suit in honors && t.rank == 1 {
      var i :| 0 <= i < |honors| && honors[i] == t.suit;
      assert HonorTiles(honors)[i] == t;
    }
  }

  lemma {:induction false} RepeatCount(s: seq<Tile>, n: nat, t: Tile)
    ensures |Repeat(s, n)| == n * |s|
    ensures Count(Repeat(s, n), t) == n * Count(s, t)
  {
    if n > 0 {
      RepeatCount(s, n - 1, t);
      assert multiset(Repeat(s, n)) == multiset(s) + multiset(Repeat(s, n - 1));
      assert (n - 1) * |s| + |s| == n * |s|;
      assert (n - 1) * Count(s, t) + Count(s, t) == n * Count(s, t);
    }
  }

  /** The enumeration holds 136 tiles. */
  lemma OrderedWallLength()
    ensures |OrderedWall()| == 136
  {
    SetListsHold();
    EnumerationLength(NumberSuits, Honors);
  }

  /** The enumeration holds four tiles of each type of the set and no other. */
  lemma OrderedWallCount(t: Tile)
    ensures Count(OrderedWall(), t) == if IsWallType(t) then 4 else 0
  {
    SetListsHold();
    EnumerationTypes(NumberSuits, Honors, t);
  }

  /** suits and honors hold, position by position, the suit lists of the set. */
  predicate SetLists(suits: seq<char>, honors: seq<char>)
  {
    |suits| == 3 && suits[0] == '萬' && suits[1] == '筒' && suits[2] == '索' &&
    |honors| == 7 && honors[0] == '東' && honors[1] == '南' && honors[2] == '西' && honors[3] == '北' &&
    honors[4] == '白' && honors[5] == '發' && honors[6] == '中'
  }

  lemma SetListsHold()
    ensures SetLists(NumberSuits, Honors)
  {
  }

  lemma EnumerationTypes(suits: seq<char>, honors: seq<char>, t: Tile)
    requires SetLists(suits, honors)
    ensures Count(Enumeration(suits, honors), t) == if IsWallType(t) then 4 else 0
  {
    SetListsDistinct(suits, honors);
    SetListsTypes(suits, honors, t);
    EnumerationCount(suits, honors, t);
  }

  /** The suit lists of the set hold no repeats and share no suit. */
  lemma SetListsDistinct(suits: seq<char>, honors: seq<char>)
    requires SetLists(suits, honors)
    ensures SuitsDistinct(suits, honors)
  {
  }

  lemma SetListsTypes(suits: seq<char>, honors: seq<char>, t: Tile)
    requires SetLists(suits, honors)
    ensures IsWallType(t) == IsTypeOf(suits, honors, t)
  {
  }

  /** Neither list repeats a suit and no suit is in both. */
  predicate SuitsDistinct(suits: seq<char>, honors: seq<char>)
  {
    Pairwise(suits) && Pairwise(honors) &&
    forall i, j | 0 <= i < |suits| && 0 <= j < |honors| :: suits[i] != honors[j]
  }

  /** Any two positions hold different suits. */
  predicate Pairwise(cs: seq<char>)
  {
    forall i, j | 0 <= i < j < |cs| :: cs[i] != cs[j]
  }

  lemma {:induction false} PairwiseNoRepeats(cs: seq<char>)
    requires Pairwise(cs)
    ensures NoRepeats(cs)
  {
    if |cs| > 0 {
      PairwiseNoRepeats(cs[1..]);
    }
  }

  lemma EnumerationLength(suits: seq<char>, honors: seq<char>)
    ensures |Enumeration(suits, honors)| == 36 * |suits| + 4 * |honors|
  {
    NumberTilesLength(suits);
    RepeatCount(NumberTiles(suits), 4, Tile(' ', 0));
    RepeatCount(HonorTiles(honors), 4, Tile(' ', 0));
  }

  /** Four copies of each type of the given lists and nothing else. */
  lemma EnumerationCount(suits: seq<char>, honors: seq<char>, t: Tile)
    requires SuitsDistinct(suits, honors)
    ensures Count(Enumeration(suits, honors), t) ==
      if IsTypeOf(suits, honors, t) then 4 else 0
  {
    PairwiseNoRepeats(suits);
    NumberTilesCount(suits, t);
    HonorTilesCount(honors, t);
    RepeatCount(NumberTiles(suits), 4, t);
    RepeatCount(HonorTiles(honors), 4, t);
    CountAppend(Repeat(NumberTiles(suits), 4), Repeat(HonorTiles(honors), 4), t);
  }
}
