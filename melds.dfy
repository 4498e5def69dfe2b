/** The hand checker as the program writes it: rank-only window tests, a
    recursive search over adjacent 3-tile windows of the sorted tiles, and the
    pair step that drops every copy of the chosen tile type. */
module Melds {
  import opened Tiles

  /** Three tiles whose ranks rise by one each; suits are not looked at. */
  predicate IsSequence(w: seq<Tile>)
    ensures IsSequence(w) ==> |w| == 3 && w[0] != w[1] && w[1] != w[2] && w[0] != w[2]
  {
    |w| == 3 && w[0].rank + 1 == w[1].rank && w[1].rank + 1 == w[2].rank
  }

  /** Three tiles of one rank; suits are not looked at. No window passes
      both tests. */
  predicate IsTriplet(w: seq<Tile>)
    ensures IsTriplet(w) ==> |w| == 3 && !IsSequence(w)
  {
    |w| == 3 && w[0].rank == w[1].rank == w[2].rank
  }

  /** Both tests read only the ranks: two windows with the same ranks,
      position by position, pass the same tests whatever their suits. */
  lemma TestsSuitBlind(w: seq<Tile>, v: seq<Tile>)
    requires |w| == |v| && forall k :: 0 <= k < |w| ==> w[k].rank == v[k].rank
    ensures IsSequence(w) == IsSequence(v) && IsTriplet(w) == IsTriplet(v)
  {
  }

  /** The window s[i..i+3] passes one of the two tests. */
  predicate WindowMelds(s: seq<Tile>, i: nat)
    requires i + 3 <= |s|
  {
    IsSequence(s[i..i + 3]) || IsTriplet(s[i..i + 3])
  }

  /** s with the window s[i..i+3] cut out. */
  function Without(s: seq<Tile>, i: nat): (r: seq<Tile>)
    requires i + 3 <= |s|
    ensures |r| == |s| - 3
    ensures multiset(r) + multiset(s[i..i + 3]) == multiset(s)
  {
    assert s == s[..i] + s[i..i + 3] + s[i + 3..];
    s[..i] + s[i + 3..]
  }

  /** What the search decides: empty succeeds, one or two tiles fail, and
      otherwise some adjacent window of the sorted tiles passes a test and
      the rest, with that window cut out, succeeds again. */
  ghost predicate FormsMelds(tiles: seq<Tile>)
    decreases |tiles|
  {
    if |tiles| == 0 then true
    else if |tiles| < 3 then false
    else
      var s := Sort(tiles);
      exists i: nat :: i + 3 <= |s| && WindowMelds(s, i) && FormsMelds(Without(s, i))
  }

  /** The recursive search: sort, then try each window from the left and
      return at the first one whose remainder succeeds. */
  method CanFormMelds(tiles: seq<Tile>) returns (r: bool)
    ensures r == FormsMelds(tiles)
    decreases |tiles|, 1
  {
    if |tiles| == 0 {
      return true;
    }
    if |tiles| < 3 {
      return false;
    }
    var s := Sort(tiles);
    for i := 0 to |s| - 2
      invariant forall j: nat :: j < i ==> !(WindowMelds(s, j) && FormsMelds(Without(s, j)))
    {
      var ok := TryWindow(s, i);
      if ok {
        WindowSucceeds(tiles, i);
        return true;
      }
      forall j: nat | j < i + 1
        ensures !(WindowMelds(s, j) && FormsMelds(Without(s, j)))
      {
        if j == i {
          assert !ok;
        }
      }
    }
    NoWindowSucceeds(tiles);
    return false;
  }

  /** One pass of the search loop: if the window at i passes a test, search
      the tiles with that window cut out. */
  method TryWindow(s: seq<Tile>, i: nat) returns (ok: bool)
    requires i + 3 <= |s|
    ensures ok == (WindowMelds(s, i) && FormsMelds(Without(s, i)))
    decreases |s|, 0
  {
    ok := false;
    if IsSequence(s[i..i + 3]) || IsTriplet(s[i..i + 3]) {
      var rest := s[..i] + s[i + 3..];
      ok := CanFormMelds(rest);
    }
  }

  lemma WindowSucceeds(tiles: seq<Tile>, i: nat)
    requires |tiles| >= 3 && i + 3 <= |tiles|
    requires WindowMelds(Sort(tiles), i) && FormsMelds(Without(Sort(tiles), i))
    ensures FormsMelds(tiles)
  {
  }

  lemma NoWindowSucceeds(tiles: seq<Tile>)
    requires |tiles| >= 3
    requires forall j: nat :: j < |tiles| - 2 ==> !(WindowMelds(Sort(tiles), j) && FormsMelds(Without(Sort(tiles), j)))
    ensures !FormsMelds(tiles)
  {
  }

  /** Success is only possible on a multiple of three tiles; in particular
      one or two tiles always fail. */
  lemma {:induction false} MeldsLength(tiles: seq<Tile>)
    ensures FormsMelds(tiles) ==> |tiles| % 3 == 0
    decreases |tiles|
  {
    if FormsMelds(tiles) && |tiles| > 0 {
      var s := Sort(tiles);
      var i: nat :| i + 3 <= |s| && WindowMelds(s, i) && FormsMelds(Without(s, i));
      MeldsLength(Without(s, i));
      ThreeMore(|Without(s, i)|, |tiles|);
    }
  }

  lemma ThreeMore(a: nat, b: nat)
    requires a % 3 == 0 && a + 3 == b
    ensures b % 3 == 0
  {
  }

  /** The search sorts first, so its answer depends only on which tiles
      there are, not on the order they are held in. */
  lemma MeldsPermutation(a: seq<Tile>, b: seq<Tile>)
    requires multiset(a) == multiset(b)
    ensures FormsMelds(a) == FormsMelds(b)
  {
    SortPermutation(a, b);
    assert |a| == |multiset(a)| == |b|;
  }

  /** A group the window tests accept. */
  predicate CodeMeld(g: seq<Tile>)
  {
    IsSequence(g) || IsTriplet(g)
  }

  predicate AllCodeMelds(gs: seq<seq<Tile>>)
  {
    forall k :: 0 <= k < |gs| ==> CodeMeld(gs[k])
  }

  /** The groups a successful search cut out, in the order it cut them:
      every group passes a window test and together they are exactly the
      tiles. */
  ghost function Decomposition(tiles: seq<Tile>): (gs: seq<seq<Tile>>)
    requires FormsMelds(tiles)
    ensures AllCodeMelds(gs)
    ensures multiset(Flatten(gs)) == multiset(tiles)
    decreases |tiles|
  {
    if |tiles| == 0 then []
    else
      var s := Sort(tiles);
      var i: nat :| i + 3 <= |s| && WindowMelds(s, i) && FormsMelds(Without(s, i));
      var rest := Decomposition(Without(s, i));
      SortSpec(tiles);
      GroupsCons(s[i..i + 3], rest, Without(s, i), s);
      [s[i..i + 3]] + rest
  }

  lemma GroupsCons(g: seq<Tile>, gs: seq<seq<Tile>>, rest: seq<Tile>, all: seq<Tile>)
    requires CodeMeld(g) && AllCodeMelds(gs)
    requires multiset(Flatten(gs)) == multiset(rest)
    requires multiset(rest) + multiset(g) == multiset(all)
    ensures AllCodeMelds([g] + gs)
    ensures multiset(Flatten([g] + gs)) == multiset(all)
  {
    FlattenCons(g, gs);
  }

  /** On sorted tiles, a passing window whose remainder succeeds makes the
      whole search succeed. */
  lemma WindowThenMelds(s: seq<Tile>, i: nat)
    requires Sorted(s) && i + 3 <= |s| && WindowMelds(s, i) && FormsMelds(Without(s, i))
    ensures FormsMelds(s)
  {
    SortOfSorted(s);
  }

  /** On sorted tiles with no passing window, the search fails. */
  lemma NoWindowNoMelds(s: seq<Tile>)
    requires Sorted(s) && |s| >= 3
    requires forall i: nat :: i + 3 <= |s| ==> !WindowMelds(s, i)
    ensures !FormsMelds(s)
  {
    SortOfSorted(s);
  }
}
