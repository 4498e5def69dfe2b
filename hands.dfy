/** A seat's hand: the list of tiles a player holds, the winning check the
    turn loop runs on it, and the automated player's discard. The automated
    player adds only the discard to a plain hand, so one class holds both. */
module Hands {
  import opened Tiles
  import opened Melds

  /** What the winning check decides: some tile type is held at least twice,
      and the hand with every copy of that type taken out forms melds. */
  ghost predicate ValidHand(tiles: seq<Tile>)
  {
    exists t :: Count(tiles, t) >= 2 && FormsMelds(RemoveAll(tiles, t))
  }

  /** The tally of tile types: each type in the hand mapped to its copies. */
  function Counter(tiles: seq<Tile>): (m: map<Tile, nat>)
    ensures forall t :: t in m <==> t in tiles
  {
    map t | t in tiles :: Count(tiles, t)
  }

  /** The pair candidates: the types of tiles[..n] held at least twice in
      the whole hand, once each, in order of first appearance. */
  function PairCandidates(tiles: seq<Tile>, n: nat): (ps: seq<Tile>)
    requires n <= |tiles|
    ensures forall t :: t in ps <==> t in tiles[..n] && Count(tiles, t) >= 2
    ensures Distinct(ps)
  {
    if n == 0 then []
    else
      var ps := PairCandidates(tiles, n - 1);
      var t := tiles[n - 1];
      assert tiles[..n] == tiles[..n - 1] + [t];
      if t in ps || Count(tiles, t) < 2 then ps else ps + [t]
  }

  /** One more tile of the prefix counts one more copy, and no prefix holds
      more copies than the whole hand. */
  lemma PrefixCount(tiles: seq<Tile>, n: nat, t: Tile)
    requires n < |tiles|
    ensures Count(tiles[..n + 1], t) == Count(tiles[..n], t) + (if tiles[n] == t then 1 else 0)
    ensures Count(tiles[..n + 1], t) <= Count(tiles, t)
  {
    assert tiles[..n + 1] == tiles[..n] + [tiles[n]];
    assert tiles == tiles[..n + 1] + tiles[n + 1..];
  }

  lemma RemoveAllStep(tiles: seq<Tile>, n: nat, t: Tile)
    requires n < |tiles|
    ensures RemoveAll(tiles[..n + 1], t) == RemoveAll(tiles[..n], t) + (if tiles[n] == t then [] else [tiles[n]])
  {
    assert tiles[..n + 1][..n] == tiles[..n];
  }

  /** One step of the inner pass: a copy of t is only met while the tally
      of t is still positive. */
  lemma RemoveStep(tiles: seq<Tile>, n: nat, t: Tile, c: nat)
    requires n < |tiles|
    requires c + Count(tiles[..n], t) == Count(tiles, t)
    ensures tiles[n] == t ==> c > 0
    ensures (if tiles[n] == t then c - 1 else c) + Count(tiles[..n + 1], t) == Count(tiles, t)
    ensures RemoveAll(tiles[..n + 1], t) == RemoveAll(tiles[..n], t) + (if tiles[n] == t then [] else [tiles[n]])
  {
    PrefixCount(tiles, n, t);
    RemoveAllStep(tiles, n, t);
  }

  /** The candidates after position k are among those from k on, and differ
      from the one at k. */
  lemma LaterCandidates(ps: seq<Tile>, k: nat)
    requires k < |ps| && Distinct(ps)
    ensures forall t :: t in ps[k + 1..] ==> t in ps[k..] && t != ps[k]
  {
    assert ps[k..] == [ps[k]] + ps[k + 1..];
  }

  /** When every candidate fails, the hand is not a winning one. */
  lemma NoCandidateMelds(tiles: seq<Tile>, pairs: seq<Tile>)
    requires forall t :: t in pairs <==> t in tiles && Count(tiles, t) >= 2
    requires forall j :: 0 <= j < |pairs| ==> !FormsMelds(RemoveAll(tiles, pairs[j]))
    ensures !ValidHand(tiles)
  {
    forall t | Count(tiles, t) >= 2
      ensures !FormsMelds(RemoveAll(tiles, t))
    {
      assert t in multiset(tiles);
      var j :| 0 <= j < |pairs| && pairs[j] == t;
    }
  }

  /** The winning check depends only on which tiles the hand holds, not on
      the order they were drawn in. */
  lemma ValidHandPermutation(a: seq<Tile>, b: seq<Tile>)
    requires multiset(a) == multiset(b)
    ensures ValidHand(a) == ValidHand(b)
  {
    forall t
      ensures Count(a, t) == Count(b, t)
      ensures FormsMelds(RemoveAll(a, t)) == FormsMelds(RemoveAll(b, t))
    {
      MeldsPermutation(RemoveAll(a, t), RemoveAll(b, t));
    }
  }

  class Hand {
    var tiles: seq<Tile>

    constructor ()
      ensures tiles == []
    {
      tiles := [];
    }

    /** Appends one tile at the end of the hand. */
    method AddTile(t: Tile)
      modifies this
      ensures tiles == old(tiles) + [t]
    {
      tiles := tiles + [t];
    }

    /** The winning check: tally the types, then for each type held twice or
        more build the hand without its copies and run the meld search on
        what is left, stopping at the first success. */
    method IsValidHand() returns (b: bool)
      ensures b == ValidHand(tiles)
    {
      var tileCounts := Counter(tiles);
      var pairs := PairCandidates(tiles, |tiles|);
      assert tiles[..|tiles|] == tiles;
      for k := 0 to |pairs|
        invariant forall j :: 0 <= j < k ==> !FormsMelds(RemoveAll(tiles, pairs[j]))
        invariant forall t :: t in pairs[k..] ==> t in tileCounts && tileCounts[t] == Count(tiles, t)
      {
        var pair := pairs[k];
        var remaining, left := RemainingTiles(pair, tileCounts[pair]);
        tileCounts := tileCounts[pair := left];
        var ok := CanFormMelds(remaining);
        if ok {
          return true;
        }
        forall j | 0 <= j < k + 1
          ensures !FormsMelds(RemoveAll(tiles, pairs[j]))
        {
        }
        LaterCandidates(pairs, k);
      }
      NoCandidateMelds(tiles, pairs);
      return false;
    }

    /** The inner pass of the winning check: walks the hand, counting the
        tally of pair down for each copy met while it is positive and keeping
        every other tile, so that every copy of pair is left out and the tally
        ends at zero. Only the tally of pair is read or written. */
    method RemainingTiles(pair: Tile, count: nat) returns (remaining: seq<Tile>, left: nat)
      requires count == Count(tiles, pair)
      ensures remaining == RemoveAll(tiles, pair)
      ensures left == 0
    {
      left := count;
      remaining := [];
      for n := 0 to |tiles|
        invariant left + Count(tiles[..n], pair) == Count(tiles, pair)
        invariant remaining == RemoveAll(tiles[..n], pair)
      {
        RemoveStep(tiles, n, pair, left);
        if tiles[n] == pair && left > 0 {
          left := left - 1;
        } else {
          remaining := remaining + [tiles[n]];
        }
      }
      assert tiles[..|tiles|] == tiles;
    }

    /** The automated player's discard: removes and returns the tile at the
        position a random draw picks, the roll reduced to the hand's size. */
    method ChooseDiscard(roll: nat) returns (t: Tile)
      requires |tiles| > 0
      modifies this
      ensures var i := roll % |old(tiles)|;
        t == old(tiles)[i] && tiles == old(tiles)[..i] + old(tiles)[i + 1..]
    {
      var i := roll % |tiles|;
      t := tiles[i];
      tiles := tiles[..i] + tiles[i + 1..];
    }
  }
}
