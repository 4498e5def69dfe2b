/** The game loop with four automated players: the deal, the draw, one turn
    (draw, winning check, random discard, four-winds check) and the loop
    that plays turns until the wall is empty. */
module Game {
  import opened Tiles
  import opened Melds
  import opened Hands
  import opened Wall

  datatype Option<T> = None | Some(value: T)

  /** How a call of play_turn finishes: it returns None, it returns True
      (a winning hand or four winds; play_game ignores the value and plays
      on), or the four-winds check indexes an empty discard list, which
      raises an IndexError the turn does not catch. */
  datatype Outcome = Continue | ReturnedTrue | IndexError

  /** The table as values: the live wall (drawn from its end), the dead
      wall, each seat's hand and each seat's discard list. */
  datatype Table = Table(wall: seq<Tile>, deadWall: seq<Tile>, hands: seq<seq<Tile>>, discards: seq<seq<Tile>>)

  /** The four wind suits. */
  predicate IsWindTile(t: Tile)
  {
    t.suit in ['東', '南', '西', '北']
  }

  /** The winds are the first four honours of the set, and no number suit. */
  lemma WindSuits(t: Tile)
    ensures IsWindTile(t) <==> t.suit in Honors[..4]
    ensures IsWindTile(t) ==> t.suit !in NumberSuits
  {
    assert Honors[..4] == ['東', '南', '西', '北'];
  }

  /** The last n elements, as the slice s[-n:] gives them: the whole list
      when it is shorter than n. */
  function LastN(s: seq<Tile>, n: nat): (r: seq<Tile>)
  {
    if |s| >= n then s[|s| - n..] else s
  }

  /** All but the last n elements, as the slice s[:-n] gives them: nothing
      when the list is shorter than n. */
  function DropLastN(s: seq<Tile>, n: nat): (r: seq<Tile>)
  {
    if |s| >= n then s[..|s| - n] else []
  }

  /** For n > 0 the two slices split the list between them. */
  lemma SliceSplit(s: seq<Tile>, n: nat)
    requires n > 0
    ensures DropLastN(s, n) + LastN(s, n) == s
    ensures |LastN(s, n)| == if |s| >= n then n else |s|
  {
    if |s| >= n {
      assert s[..|s| - n] + s[|s| - n..] == s;
    }
  }

  /** The tiles seat q receives in the first r rounds of the deal: in round
      k the seats pop in order 0 to 3, so seat q gets the tile 4k + q places
      from the end of the wall. */
  function DealtN(w: seq<Tile>, q: nat, r: nat): (d: seq<Tile>)
    requires q < 4 && 4 * r <= |w|
    ensures |d| == r
  {
    seq(r, k requires 0 <= k < r => w[|w| - 1 - (4 * k + q)])
  }

  lemma DealtStep(w: seq<Tile>, q: nat, r: nat)
    requires q < 4 && 4 * (r + 1) <= |w|
    ensures DealtN(w, q, r + 1) == DealtN(w, q, r) + [w[|w| - 1 - (4 * r + q)]]
  {
  }

  /** The hands part-way through the deal: r full rounds, then seats
      0 to p - 1 served once more. */
  function PartialDeal(hs: seq<seq<Tile>>, w: seq<Tile>, r: nat, p: nat): (d: seq<seq<Tile>>)
    requires |hs| == 4 && p <= 4 && ((p == 0 && 4 * r <= |w|) || 4 * (r + 1) <= |w|)
    ensures |d| == 4
  {
    seq(4, q requires 0 <= q < 4 => hs[q] + DealtN(w, q, if q < p then r + 1 else r))
  }

  /** Serving seat p appends the tile 4r + p places from the end. */
  lemma PartialStep(hs: seq<seq<Tile>>, w: seq<Tile>, r: nat, p: nat)
    requires |hs| == 4 && p < 4 && 4 * (r + 1) <= |w|
    ensures var d := PartialDeal(hs, w, r, p);
      PartialDeal(hs, w, r, p + 1) == d[p := d[p] + [w[|w| - 1 - (4 * r + p)]]]
  {
    var d := PartialDeal(hs, w, r, p);
    var e := PartialDeal(hs, w, r, p + 1);
    DealtStep(w, p, r);
    forall q | 0 <= q < 4
      ensures e[q] == d[p := d[p] + [w[|w| - 1 - (4 * r + p)]]][q]
    {
    }
  }

  lemma PartialStart(hs: seq<seq<Tile>>, w: seq<Tile>)
    requires |hs| == 4
    ensures PartialDeal(hs, w, 0, 0) == hs
  {
    var d := PartialDeal(hs, w, 0, 0);
    forall q | 0 <= q < 4
      ensures d[q] == hs[q]
    {
      assert DealtN(w, q, 0) == [];
      assert d[q] == hs[q] + DealtN(w, q, 0);
    }
  }

  lemma PartialRound(hs: seq<seq<Tile>>, w: seq<Tile>, r: nat)
    requires |hs| == 4 && 4 * (r + 1) <= |w|
    ensures PartialDeal(hs, w, r, 4) == PartialDeal(hs, w, r + 1, 0)
  {
  }

  /** The deal: thirteen rounds of one pop per seat, then the last fourteen
      tiles of what is left become the dead wall (replacing the old one) and
      the rest stays as the live wall. */
  function Deal(t: Table): (r: Table)
    requires |t.wall| >= 52 && |t.hands| == 4
    ensures |r.hands| == 4 && r.discards == t.discards
    ensures forall q :: 0 <= q < 4 ==> |r.hands[q]| == |t.hands[q]| + 13
  {
    var rest := t.wall[..|t.wall| - 52];
    Table(DropLastN(rest, 14), LastN(rest, 14),
          seq(4, q requires 0 <= q < 4 => t.hands[q] + DealtN(t.wall, q, 13)),
          t.discards)
  }

  /** The copies of x the four seats receive in the first r rounds. */
  function DealtCount(w: seq<Tile>, r: nat, x: Tile): (n: nat)
    requires 4 * r <= |w|
  {
    Count(DealtN(w, 0, r), x) + Count(DealtN(w, 1, r), x) + Count(DealtN(w, 2, r), x) + Count(DealtN(w, 3, r), x)
  }

  /** The tiles of the four seats' first r deals are the last 4r tiles of
      the wall, copy for copy. */
  lemma {:induction false} RoundsTiles(w: seq<Tile>, r: nat, x: Tile)
    requires 4 * r <= |w|
    ensures DealtCount(w, r, x) == Count(w[|w| - 4 * r..], x)
  {
    if r > 0 {
      var k := r - 1;
      RoundsTiles(w, k, x);
      RoundCount(w, r, k, x);
    } else {
      NoneDealt(w, x);
    }
  }

  /** Round r hands out exactly the four tiles above the last 4(r - 1). */
  lemma RoundCount(w: seq<Tile>, r: nat, k: nat, x: Tile)
    requires 0 < r && k == r - 1 && 4 * r <= |w|
    ensures DealtCount(w, r, x) + Count(w[|w| - 4 * k..], x) == DealtCount(w, k, x) + Count(w[|w| - 4 * r..], x)
  {
    var m := |w| - 4 * r;
    assert |w| - 4 * k == m + 4;
    DealtOne(w, 0, r, k, m + 3, x);
    DealtOne(w, 1, r, k, m + 2, x);
    DealtOne(w, 2, r, k, m + 1, x);
    DealtOne(w, 3, r, k, m, x);
    DropOne(w, m, x);
    DropOne(w, m + 1, x);
    DropOne(w, m + 2, x);
    DropOne(w, m + 3, x);
  }

  lemma NoneDealt(w: seq<Tile>, x: Tile)
    ensures DealtCount(w, 0, x) == Count(w[|w|..], x)
  {
    assert DealtN(w, 0, 0) == [] && DealtN(w, 1, 0) == [] && DealtN(w, 2, 0) == [] && DealtN(w, 3, 0) == [];
    assert w[|w|..] == [];
  }

  /** Round r gives seat q the tile 3 - q places above the last 4r. */
  lemma DealtOne(w: seq<Tile>, q: nat, r: nat, k: nat, i: nat, x: Tile)
    requires q < 4 && 0 < r && k == r - 1 && 4 * r <= |w| && i == |w| - 4 * r + 3 - q
    ensures Count(DealtN(w, q, r), x) == Count(DealtN(w, q, k), x) + Count([w[i]], x)
  {
    DealtStep(w, q, k);
    assert k + 1 == r && i == |w| - 1 - (4 * k + q);
    CountAppend(DealtN(w, q, k), [w[i]], x);
  }

  lemma DropOne(w: seq<Tile>, k: nat, x: Tile)
    requires k < |w|
    ensures Count(w[k..], x) == Count([w[k]], x) + Count(w[k + 1..], x)
  {
    assert w[k..] == [w[k]] + w[k + 1..];
    CountAppend([w[k]], w[k + 1..], x);
  }

  lemma FlattenFourHands(hs: seq<seq<Tile>>, x: Tile)
    requires |hs| == 4
    ensures Count(Flatten(hs), x) == Count(hs[0], x) + Count(hs[1], x) + Count(hs[2], x) + Count(hs[3], x)
  {
    assert hs == [hs[0]] + ([hs[1]] + ([hs[2]] + ([hs[3]] + [])));
    FlattenCons(hs[0], hs[1..]);
    FlattenCons(hs[1], hs[2..]);
    FlattenCons(hs[2], hs[3..]);
    FlattenCons(hs[3], hs[4..]);
    assert Flatten(hs[4..]) == [];
    CountAppend(hs[0], Flatten(hs[1..]), x);
    CountAppend(hs[1], Flatten(hs[2..]), x);
    CountAppend(hs[2], Flatten(hs[3..]), x);
    CountAppend(hs[3], [], x);
  }

  /** The deal moves tiles and loses none: for every tile, the wall, the
      dead wall and the hands together hold as many copies as the wall and
      the hands held before. The old dead wall is overwritten, not kept. */
  lemma DealConserves(t: Table, x: Tile)
    requires |t.wall| >= 52 && |t.hands| == 4
    ensures var r := Deal(t);
      Count(r.wall, x) + Count(r.deadWall, x) + Count(Flatten(r.hands), x)
      == Count(t.wall, x) + Count(Flatten(t.hands), x)
  {
    DealHandsCount(t, x);
    DealWallCount(t, x);
    RoundsTiles(t.wall, 13, x);
  }

  lemma DealHandsCount(t: Table, x: Tile)
    requires |t.wall| >= 52 && |t.hands| == 4
    ensures Count(Flatten(Deal(t).hands), x) == Count(Flatten(t.hands), x) + DealtCount(t.wall, 13, x)
  {
    var r := Deal(t);
    FlattenFourHands(r.hands, x);
    FlattenFourHands(t.hands, x);
    forall q | 0 <= q < 4
      ensures Count(r.hands[q], x) == Count(t.hands[q], x) + Count(DealtN(t.wall, q, 13), x)
    {
      CountAppend(t.hands[q], DealtN(t.wall, q, 13), x);
    }
  }

  lemma DealWallCount(t: Table, x: Tile)
    requires |t.wall| >= 52 && |t.hands| == 4
    ensures var r := Deal(t);
      Count(r.wall, x) + Count(r.deadWall, x) + Count(t.wall[|t.wall| - 4 * 13..], x) == Count(t.wall, x)
  {
    var r := Deal(t);
    var w := t.wall;
    var n := |w|;
    SliceSplit(w[..n - 52], 14);
    CountAppend(r.wall, r.deadWall, x);
    assert w == w[..n - 52] + w[n - 52..];
    CountAppend(w[..n - 52], w[n - 52..], x);
  }

  /** With at least 66 tiles the dead wall is exactly fourteen tiles and
      the live wall keeps n - 66; with fewer, every leftover tile goes to
      the dead wall and the live wall is empty. */
  lemma DealShape(t: Table)
    requires |t.wall| >= 52 && |t.hands| == 4
    ensures var n := |t.wall|; var r := Deal(t);
      if n >= 66 then r.deadWall == t.wall[n - 66..n - 52] && r.wall == t.wall[..n - 66]
      else r.deadWall == t.wall[..n - 52] && r.wall == []
  {
  }

  /** The four-winds check from seat i on: each discard list must be
      non-empty (or indexing it raises) and start with a wind of the same
      suit as the first seat's first discard. */
  function WindsFrom(d: seq<seq<Tile>>, i: nat, first: Tile): (o: Outcome)
    requires |d| == 4 && i <= 4
    decreases 4 - i
  {
    if i == 4 then ReturnedTrue
    else if |d[i]| == 0 then IndexError
    else if IsWindTile(d[i][0]) && d[i][0].suit == first.suit then WindsFrom(d, i + 1, first)
    else Continue
  }

  /** The four-winds check, which makes the turn return True when it
      holds: only looked at when the first seat has exactly one discard. */
  function FourWinds(d: seq<seq<Tile>>): (o: Outcome)
    requires |d| == 4
  {
    if |d[0]| != 1 then Continue else WindsFrom(d, 0, d[0][0])
  }

  lemma {:induction false} WindsFromTrue(d: seq<seq<Tile>>, i: nat, first: Tile)
    requires |d| == 4 && i <= 4
    ensures WindsFrom(d, i, first) == ReturnedTrue <==>
      forall j :: i <= j < 4 ==> |d[j]| > 0 && IsWindTile(d[j][0]) && d[j][0].suit == first.suit
    decreases 4 - i
  {
    if i < 4 {
      WindsFromTrue(d, i + 1, first);
    }
  }

  /** The check holds exactly when the first seat has one discard and every
      seat's first discard is a wind of that suit. */
  lemma FourWindsMeaning(d: seq<seq<Tile>>)
    requires |d| == 4
    ensures FourWinds(d) == ReturnedTrue <==>
      |d[0]| == 1 && forall j :: 0 <= j < 4 ==> |d[j]| > 0 && IsWindTile(d[j][0]) && d[j][0].suit == d[0][0].suit
  {
    if |d[0]| == 1 {
      WindsFromTrue(d, 0, d[0][0]);
    }
  }

  /** Discards are never recorded, so the check never fires and never
      raises. */
  lemma NoDiscardsNoWinds(d: seq<seq<Tile>>)
    requires d == [[], [], [], []]
    ensures FourWinds(d) == Continue
  {
  }

  /** The draw of seat p: the last wall tile moves to the end of the hand. */
  ghost function Draw(t: Table, p: nat): (r: Table)
    requires p < |t.hands| && |t.wall| > 0
  {
    t.(wall := t.wall[..|t.wall| - 1], hands := t.hands[p := t.hands[p] + [t.wall[|t.wall| - 1]]])
  }

  /** The rest of a turn after a draw: a winning hand ends the turn with
      True; if not, the tile at roll % |hand| is discarded (and not
      recorded) and the four-winds check runs on the discard lists. */
  ghost function Finish(t: Table, p: nat, roll: nat): (r: (Table, Outcome))
    requires p < |t.hands| && |t.discards| == 4 && |t.hands[p]| > 0
  {
    var h := t.hands[p];
    if ValidHand(h) then (t, ReturnedTrue)
    else
      var i := roll % |h|;
      (t.(hands := t.hands[p := h[..i] + h[i + 1..]]), FourWinds(t.discards))
  }

  lemma FinishWon(t: Table, p: nat, roll: nat)
    requires p < |t.hands| && |t.discards| == 4 && |t.hands[p]| > 0 && ValidHand(t.hands[p])
    ensures Finish(t, p, roll) == (t, ReturnedTrue)
  {
  }

  lemma FinishLost(t: Table, p: nat, roll: nat)
    requires p < |t.hands| && |t.discards| == 4 && |t.hands[p]| > 0 && !ValidHand(t.hands[p])
    ensures var h := t.hands[p]; var i := roll % |h|;
      Finish(t, p, roll) == (t.(hands := t.hands[p := h[..i] + h[i + 1..]]), FourWinds(t.discards))
  {
  }

  /** One turn of seat p: an empty wall makes the draw fail, which the turn
      catches, changing nothing; otherwise the draw, then the rest of the
      turn. */
  ghost function Turn(t: Table, p: nat, roll: nat): (r: (Table, Outcome))
    requires p < |t.hands| && |t.discards| == 4
    ensures r.0.deadWall == t.deadWall && r.0.discards == t.discards
    ensures |r.0.hands| == |t.hands|
    ensures forall q :: 0 <= q < |t.hands| && q != p ==> r.0.hands[q] == t.hands[q]
    ensures |t.wall| == 0 ==> r == (t, Continue)
    ensures |t.wall| > 0 ==> r.0.wall == t.wall[..|t.wall| - 1]
    ensures r.1 == IndexError ==> FourWinds(t.discards) == IndexError
  {
    if |t.wall| == 0 then (t, Continue) else Finish(Draw(t, p), p, roll)
  }

  /** A turn on a non-empty wall: the drawn tile is kept on a win and the
      hand grows by one; otherwise one tile of the hand plus the draw is
      thrown away and the hand keeps its size. */
  lemma TurnHand(t: Table, p: nat, roll: nat)
    requires p < |t.hands| && |t.discards| == 4 && |t.wall| > 0
    ensures var r := Turn(t, p, roll); var drawn := multiset(t.hands[p]) + multiset{t.wall[|t.wall| - 1]};
      if ValidHand(t.hands[p] + [t.wall[|t.wall| - 1]]) then
        r.1 == ReturnedTrue && multiset(r.0.hands[p]) == drawn
      else
        |r.0.hands[p]| == |t.hands[p]| && multiset(r.0.hands[p]) <= drawn && |drawn - multiset(r.0.hands[p])| == 1
  {
    var h := t.hands[p] + [t.wall[|t.wall| - 1]];
    if !ValidHand(h) {
      var i := roll % |h|;
      assert h == h[..i] + [h[i]] + h[i + 1..];
      assert multiset(h) == multiset(h[..i] + h[i + 1..]) + multiset{h[i]};
    }
  }

  /** The game loop as values: turns for seats 0, 1, 2, 3, 0, ... until the
      wall is empty, turn number k using roll k. A turn that returns True
      does not stop the loop, but an IndexError from the four-winds check
      is not caught and ends the game where it stands; the flag says
      whether that happened. */
  ghost function Run(t: Table, turn: nat, rolls: seq<nat>): (r: (Table, bool))
    requires |t.hands| == 4 && |t.discards| == 4 && turn + |t.wall| <= |rolls|
    ensures r.0.deadWall == t.deadWall && r.0.discards == t.discards && |r.0.hands| == 4
    ensures !r.1 ==> r.0.wall == []
    ensures r.1 ==> FourWinds(t.discards) == IndexError && |r.0.wall| < |t.wall|
    decreases |t.wall|
  {
    if |t.wall| == 0 then (t, false)
    else
      var s := Turn(t, turn % 4, rolls[turn]);
      if s.1 == IndexError then (s.0, true) else Run(s.0, turn + 1, rolls)
  }

  lemma RunStep(t: Table, turn: nat, rolls: seq<nat>)
    requires |t.hands| == 4 && |t.discards| == 4 && turn + |t.wall| <= |rolls| && |t.wall| > 0
    ensures var s := Turn(t, turn % 4, rolls[turn]);
      Run(t, turn, rolls) == if s.1 == IndexError then (s.0, true) else Run(s.0, turn + 1, rolls)
  {
  }

  lemma RunEmpty(t: Table, turn: nat, rolls: seq<nat>)
    requires |t.hands| == 4 && |t.discards| == 4 && turn <= |rolls| && |t.wall| == 0
    ensures Run(t, turn, rolls) == (t, false)
  {
  }

  /** The loop plays at most one turn per wall tile: only the rolls
      numbered turn to turn + |wall| - 1 decide the outcome. */
  lemma {:induction false} RunRolls(t: Table, turn: nat, rolls: seq<nat>, others: seq<nat>)
    requires |t.hands| == 4 && |t.discards| == 4
    requires turn + |t.wall| <= |rolls| && turn + |t.wall| <= |others|
    requires forall k :: turn <= k < turn + |t.wall| ==> rolls[k] == others[k]
    ensures Run(t, turn, rolls) == Run(t, turn, others)
    decreases |t.wall|
  {
    if |t.wall| > 0 {
      var s := Turn(t, turn % 4, rolls[turn]);
      assert rolls[turn] == others[turn];
      RunStep(t, turn, rolls);
      RunStep(t, turn, others);
      if s.1 != IndexError {
        RunRolls(s.0, turn + 1, rolls, others);
      }
    }
  }

  /** With no discards recorded, no turn of the loop raises: each turn
      either continues or returns True. */
  lemma RunNeverRaises(t: Table, p: nat, roll: nat)
    requires p < |t.hands| && t.discards == [[], [], [], []]
    ensures Turn(t, p, roll).1 != IndexError
  {
    NoDiscardsNoWinds(t.discards);
  }

  /** From empty discard lists the loop never raises: it goes on until the
      wall is empty, and each turn takes exactly one tile, so it plays one
      turn per wall tile. */
  lemma {:induction false} RunQuiet(t: Table, turn: nat, rolls: seq<nat>)
    requires |t.hands| == 4 && t.discards == [[], [], [], []] && turn + |t.wall| <= |rolls|
    ensures !Run(t, turn, rolls).1 && Run(t, turn, rolls).0.wall == []
    decreases |t.wall|
  {
    if |t.wall| > 0 {
      var s := Turn(t, turn % 4, rolls[turn]);
      RunNeverRaises(t, turn % 4, rolls[turn]);
      RunStep(t, turn, rolls);
      RunQuiet(s.0, turn + 1, rolls);
    }
  }

  /** A fresh game: dealing from a full 136-tile wall leaves 70 tiles in
      the live wall, so the loop plays 70 turns; the dead wall holds 14
      tiles and every hand 13. */
  lemma FreshGame(w: seq<Tile>)
    requires |w| == 136
    ensures var t := Deal(Table(w, [], [[], [], [], []], [[], [], [], []]));
      |t.wall| == 70 && |t.deadWall| == 14 && (forall q :: 0 <= q < 4 ==> |t.hands[q]| == 13)
  {
  }

  /** A fresh game never raises: after the deal the loop plays one turn
      for each of the 70 live tiles. */
  lemma FreshGameQuiet(w: seq<Tile>, rolls: seq<nat>)
    requires |w| == 136 && |rolls| >= 70
    ensures var t := Deal(Table(w, [], [[], [], [], []], [[], [], [], []]));
      |t.wall| == 70 && !Run(t, 0, rolls).1
  {
    var t := Deal(Table(w, [], [[], [], [], []], [[], [], [], []]));
    FreshGame(w);
    RunQuiet(t, 0, rolls);
  }

  class GameWithAI {
    const players: seq<Hand>
    var wall: seq<Tile>
    var deadWall: seq<Tile>
    var discards: seq<seq<Tile>>

    /** Four distinct seats and four discard lists. */
    ghost predicate Valid()
      reads this
    {
      |players| == 4 && (forall i, j :: 0 <= i < j < 4 ==> players[i] != players[j]) && |discards| == 4
    }

    /** The hands of the four seats, in seat order. */
    ghost function Hands(): (hs: seq<seq<Tile>>)
      requires Valid()
      reads this, players
    {
      [players[0].tiles, players[1].tiles, players[2].tiles, players[3].tiles]
    }

    ghost function State(): (t: Table)
      requires Valid()
      reads this, players
    {
      Table(wall, deadWall, Hands(), discards)
    }

    /** A new game: four empty hands, the shuffled wall, no dead wall and
        four empty discard lists. */
    constructor (rolls: seq<nat>)
      requires |rolls| >= 136
      ensures Valid()
      ensures State() == Table(wall, [], [[], [], [], []], [[], [], [], []])
      ensures |wall| == 136 && forall t :: Count(wall, t) == if IsWallType(t) then 4 else 0
    {
      var h0 := new Hand();
      var h1 := new Hand();
      var h2 := new Hand();
      var h3 := new Hand();
      players := [h0, h1, h2, h3];
      var w := CreateWall(rolls);
      wall := w;
      deadWall := [];
      discards := [[], [], [], []];
    }

    /** Pops the last wall tile into the player's hand and returns it; on an
        empty wall nothing changes and the failure is reported as None. */
    method DrawTile(player: Hand) returns (r: Option<Tile>)
      modifies this, player
      ensures deadWall == old(deadWall) && discards == old(discards)
      ensures |old(wall)| == 0 ==> r == None && wall == old(wall) && player.tiles == old(player.tiles)
      ensures |old(wall)| > 0 ==>
        r == Some(old(wall)[|old(wall)| - 1]) && wall == old(wall)[..|old(wall)| - 1] &&
        player.tiles == old(player.tiles) + [old(wall)[|old(wall)| - 1]]
    {
      if |wall| > 0 {
        var tile := wall[|wall| - 1];
        wall := wall[..|wall| - 1];
        player.AddTile(tile);
        return Some(tile);
      } else {
        return None;
      }
    }

    /** Thirteen rounds of one pop per seat, then the wall split into live
        and dead parts. */
    method DealTiles()
      requires Valid() && |wall| >= 52
      modifies this, players
      ensures Valid()
      ensures State() == Deal(old(State()))
    {
      ghost var t0 := State();
      ghost var w0 := wall;
      PartialStart(t0.hands, w0);
      for r := 0 to 13
        invariant Valid() && discards == t0.discards && deadWall == t0.deadWall
        invariant wall == w0[..|w0| - 4 * r]
        invariant Hands() == PartialDeal(t0.hands, w0, r, 0)
      {
        DealRound(t0.hands, w0, r);
      }
      deadWall := LastN(wall, 14);
      wall := DropLastN(wall, 14);
    }

    /** Round r of the deal: one pop for each seat in turn. */
    method DealRound(ghost hs: seq<seq<Tile>>, ghost w0: seq<Tile>, r: nat)
      requires Valid() && |hs| == 4 && 4 * (r + 1) <= |w0|
      requires wall == w0[..|w0| - 4 * r] && Hands() == PartialDeal(hs, w0, r, 0)
      modifies this, players
      ensures Valid() && discards == old(discards) && deadWall == old(deadWall)
      ensures wall == w0[..|w0| - 4 * (r + 1)] && Hands() == PartialDeal(hs, w0, r + 1, 0)
    {
      for p := 0 to 4
        invariant Valid() && discards == old(discards) && deadWall == old(deadWall)
        invariant wall == w0[..|w0| - 4 * r - p]
        invariant Hands() == PartialDeal(hs, w0, r, p)
      {
        ghost var k := |w0| - 4 * r - p;
        assert wall[|wall| - 1] == w0[|w0| - 1 - (4 * r + p)];
        ServeSeat(p);
        assert wall == w0[..k - 1];
        PartialStep(hs, w0, r, p);
      }
      PartialRound(hs, w0, r);
    }

    /** One pop of the wall into seat p's hand. */
    method ServeSeat(p: nat)
      requires Valid() && p < 4 && |wall| > 0
      modifies this, players[p]
      ensures Valid() && discards == old(discards) && deadWall == old(deadWall)
      ensures wall == old(wall)[..|old(wall)| - 1]
      ensures Hands() == old(Hands())[p := old(players[p].tiles) + [old(wall)[|old(wall)| - 1]]]
    {
      ghost var before := Hands();
      var tile := wall[|wall| - 1];
      wall := wall[..|wall| - 1];
      players[p].AddTile(tile);
      assert forall q :: 0 <= q < 4 && q != p ==> players[q].tiles == before[q];
    }

    /** Python's all() over the four seats, stopping at the first seat that
        fails or whose discard list is empty. */
    method FourWindsCheck() returns (o: Outcome)
      requires Valid()
      ensures o == FourWinds(discards)
    {
      if |discards[0]| != 1 {
        return Continue;
      }
      var first := discards[0][0];
      var i := 0;
      while i < 4
        invariant 0 <= i <= 4
        invariant WindsFrom(discards, i, first) == WindsFrom(discards, 0, first)
      {
        if |discards[i]| == 0 {
          return IndexError;
        }
        if !(IsWindTile(discards[i][0]) && discards[i][0].suit == first.suit) {
          return Continue;
        }
        i := i + 1;
      }
      return ReturnedTrue;
    }

    /** One turn of seat p, the random discard given as roll. */
    method PlayTurn(p: nat, roll: nat) returns (o: Outcome)
      requires Valid() && p < 4
      modifies this, players[p]
      ensures Valid()
      ensures (State(), o) == Turn(old(State()), p, roll)
    {
      ghost var t0 := State();
      var player := players[p];
      var drawn := DrawTile(player);
      assert forall q :: 0 <= q < 4 && q != p ==> players[q].tiles == t0.hands[q];
      if drawn.None? {
        assert Hands() == t0.hands;
        return Continue;
      }
      assert State() == Draw(t0, p);
      o := FinishTurn(p, roll);
    }

    /** The turn after a successful draw: the winning check, then the
        random discard and the four-winds check. */
    method FinishTurn(p: nat, roll: nat) returns (o: Outcome)
      requires Valid() && p < 4 && |players[p].tiles| > 0
      modifies players[p]
      ensures (State(), o) == Finish(old(State()), p, roll)
    {
      ghost var t0 := State();
      var player := players[p];
      assert player.tiles == t0.hands[p];
      var win := player.IsValidHand();
      if win {
        FinishWon(t0, p, roll);
        return ReturnedTrue;
      }
      FinishLost(t0, p, roll);
      var discard := player.ChooseDiscard(roll);
      assert forall q :: 0 <= q < 4 && q != p ==> players[q].tiles == t0.hands[q];
      assert Hands() == t0.hands[p := player.tiles];
      o := FourWindsCheck();
    }

    /** The deal, then turns for seats 0, 1, 2, 3, 0, ... while the wall is
        not empty, turn number k drawing on roll k. A turn that returns True
        does not stop the loop; an IndexError from the four-winds check ends
        the game, reported as raised. */
    method PlayGame(rolls: seq<nat>) returns (raised: bool)
      requires Valid() && |wall| >= 52 && |rolls| >= |wall|
      modifies this, players
      ensures Valid()
      ensures (State(), raised) == Run(Deal(old(State())), 0, rolls)
    {
      DealShape(State());
      DealTiles();
      raised := PlayTurns(rolls);
    }

    /** The loop of the game after the deal. */
    method PlayTurns(rolls: seq<nat>) returns (raised: bool)
      requires Valid() && |wall| <= |rolls|
      modifies this, players
      ensures Valid()
      ensures (State(), raised) == old(Run(State(), 0, rolls))
    {
      ghost var goal := Run(State(), 0, rolls);
      var turn := 0;
      while |wall| > 0
        invariant Valid()
        invariant turn + |wall| <= |rolls|
        invariant Run(State(), turn, rolls) == goal
        decreases |wall|
      {
        var o := NextTurn(turn, rolls);
        if o == IndexError {
          return true;
        }
        turn := turn + 1;
      }
      RunEmpty(State(), turn, rolls);
      return false;
    }

    /** One pass of the game loop: the turn of seat turn % 4 with roll
        number turn. Unless it raised, the rest of the game it leaves is the
        rest of the game it was given. */
    method NextTurn(turn: nat, rolls: seq<nat>) returns (o: Outcome)
      requires Valid() && 0 < |wall| && turn + |wall| <= |rolls|
      modifies this, players
      ensures Valid() && |wall| == |old(wall)| - 1
      ensures o == IndexError ==> (State(), true) == old(Run(State(), turn, rolls))
      ensures o != IndexError ==> Run(State(), turn + 1, rolls) == old(Run(State(), turn, rolls))
    {
      RunStep(State(), turn, rolls);
      o := PlayTurn(turn % 4, rolls[turn]);
    }
  }
}
