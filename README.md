# majyan-ai: a model of the game loop and its winning check

The program is a small four-player mahjong simulation (`main.py`):
- `Game` builds and shuffles a 136-tile wall, deals thirteen tiles to each seat and sets a fourteen-tile dead wall aside.
- `GameWithAI` then plays turns with four automated players until the wall is empty.

Each turn runs as follows:
- The seat draws the last wall tile.
- A hand that passes the "four melds and a pair" check ends the turn, which returns True; `play_game` ignores that value and plays on.
- Otherwise the automated player throws away a random tile.
- Last comes the "four winds" check on the discard lists, which also makes the turn return True.

This project models that core in Dafny and proves what it does:

- `tiles.dfy` (module `Tiles`): tiles as `(suit, rank)` values, with the suit as the one character the program uses. It also holds the `(suit, rank)` sort as a pure insertion sort, proved sorted and a permutation, and unique, so its result does not depend on the input order.
- `melds.dfy` (module `Melds`): the rank-only window tests `is_sequence` and `is_triplet`, and the recursive meld search `can_form_melds`. The search is a recursive method with a loop. It is proved equal to the ghost predicate `FormsMelds` and comes with:
  - a length lemma (multiples of three only);
  - order independence;
  - the decomposition into cut-out groups.
- `hands.dfy` (module `Hands`): class `Hand`, with the list of tiles as a field. It covers `add_tile`, the winning check `is_valid_hand` (tally the types, drop every copy of each candidate pair type, run the meld search) and the automated player's `choose_discard`.
- `wall.dfy` (module `Wall`): the 136-tile enumeration and its shuffle. It proves four copies of each of the 34 tile types and nothing else.
- `game.dfy` (module `Game`): class `GameWithAI`, whose wall, dead wall and discard lists are fields and whose four seats are `Hand` objects. It covers `draw_tile`, `deal_tiles`, `play_turn` with its four-winds check, and `play_game`. The deal and turn methods are proved against functions on a value snapshot `Table` of the game; `DrawTile` and `ServeSeat` state their effect on the fields directly. Lemmas about those functions give:
  - conservation of tiles in the deal;
  - the shape of the dead wall;
  - one turn per wall tile (70 turns from a fresh wall);
  - what a turn does to the hand;
  - when the four-winds check fires.
- `standard.dfy` (module `Standard`): the textbook rule the winning check is meant to implement. It gives concrete hands on which the check as written and the textbook rule disagree:
  - suits are ignored;
  - interleaved runs are missed;
  - a triple that is also a pair loses every copy.

Randomness is an input. The shuffle and each discard take their draws from a sequence of natural numbers `rolls`:
- the shuffle is a Fisher–Yates pass that swaps position `i` with `rolls[i] % (i + 1)`;
- a discard takes `roll % len(hand)`.

## Model

| member | source | states |
|---|---|---|
| Hands.Hand.constructor | main.py:14-15 | a new hand holds no tiles |
| Hands.Hand.AddTile | main.py:17-18 | the hand afterwards is the old hand with the tile appended at the end |
| Tiles.SortSpec | main.py:37 | sorting by (suit, rank) yields a sorted list holding exactly the same tiles |
| Tiles.SortPermutation | main.py:37 | two lists holding the same tiles sort to the same list, so the search never depends on the order tiles were drawn in |
| Tiles.SortOfSorted | main.py:37 | sorting an already sorted list leaves it unchanged |
| Melds.IsSequence | main.py:26-27 | a window passing the sequence test is three tiles, all different from each other |
| Melds.IsTriplet | main.py:29-30 | a window passing the triplet test is three tiles and never also passes the sequence test |
| Melds.TestsSuitBlind | main.py:26-30 | both tests read only the ranks: windows with the same ranks position by position pass the same tests, whatever their suits |
| Melds.TryWindow | main.py:39-41 | one loop pass succeeds exactly when the window passes the rank-only sequence or triplet test and the tiles without that window form melds |
| Melds.CanFormMelds | main.py:32-43 | the recursive search returns exactly FormsMelds: true on no tiles, false on one or two, otherwise true iff some adjacent window of the sorted tiles passes a test and the rest, with it cut out, succeeds |
| Melds.MeldsLength | main.py:32-43 | the search can only succeed on a multiple of three tiles |
| Melds.MeldsPermutation | main.py:32-43 | the search's answer depends only on which tiles are held, not their order |
| Melds.Decomposition | main.py:38-42 | a successful search cuts the tiles into groups that each pass a window test and together are exactly the tiles |
| Melds.WindowThenMelds | main.py:38-42 | on sorted tiles, a passing window whose remainder succeeds makes the search succeed |
| Melds.NoWindowNoMelds | main.py:38-43 | on three or more sorted tiles with no passing window the search fails |
| Hands.Counter | main.py:45 | the tally has an entry for a tile type exactly when the hand holds that type |
| Hands.PairCandidates | main.py:46 | the candidates are exactly the types held at least twice, each listed once |
| Hands.Hand.RemainingTiles | main.py:49-54 | the inner pass drops every copy of the pair type, keeps every other tile in order, and leaves the pair's tally at zero |
| Hands.Hand.IsValidHand | main.py:45-57 | the winning check returns exactly ValidHand: some type held twice or more whose removal, every copy of it, leaves tiles that form melds |
| Hands.ValidHandPermutation | main.py:45-57 | the winning check depends only on which tiles the hand holds |
| Standard.SingleMeldAccepted | main.py:26-30 | every textbook meld (a run of one number suit, or three identical tiles) passes the search on its own |
| Standard.MixedHonoursAccepted | main.py:29-30 | three different winds pass the triplet test because suits are not compared, although they are no meld |
| Standard.CrossSuitSequenceAccepted | main.py:26-27 | 白1 筒2 筒3 passes the sequence test because suits are not compared, although it is no meld |
| Standard.InterleavedRunsMissed | main.py:37-43 | 萬1 萬1 萬2 萬2 萬3 萬3 is two runs, but the adjacent-window search rejects it |
| Standard.PairStepDropsAllCopies | main.py:48-55 | a textbook winning hand holding three 萬1 is rejected, because taking the pair removes all three copies |
| Wall.OrderedWallLength | main.py:69-73 | the enumeration before shuffling holds 136 tiles |
| Wall.OrderedWallCount | main.py:69-73 | the enumeration holds four copies of each of the 34 types (ranks 1–9 of 萬 筒 索, rank 1 of the seven honours) and no other tile |
| Wall.Shuffle | main.py:74 | the shuffle keeps the length and the tiles, only reordering them |
| Wall.CreateWall | main.py:68-75 | the wall holds 136 tiles, four of each of the 34 types and nothing else |
| Game.GameWithAI.constructor | main.py:63-66 | a new game has four distinct empty hands, the created wall of 136 tiles, an empty dead wall and four empty discard lists |
| Game.GameWithAI.DrawTile | main.py:77-83 | a non-empty wall loses its last tile, which is appended to the player's hand and returned; an empty wall reports failure and nothing changes |
| Game.GameWithAI.DealTiles | main.py:85-91 | the game afterwards is Deal of the game before |
| Game.GameWithAI.DealRound | main.py:86-88 | one round of the deal pops four tiles and gives seat p the tile 4r + p places from the end, as PartialDeal says |
| Game.GameWithAI.ServeSeat | main.py:87-88 | one pop: the wall loses its last tile, which goes to the end of that seat's hand, and the other hands are unchanged |
| Game.Deal | main.py:85-91 | the deal adds thirteen tiles to each of the four hands and leaves the discards alone |
| Game.PartialStep | main.py:86-88 | serving seat p in round r appends the tile 4r + p places from the end of the wall to that seat's hand alone |
| Game.RoundsTiles | main.py:86-88 | the tiles the four seats receive in r rounds are, copy for copy, the last 4r tiles of the wall |
| Game.DealConserves | main.py:85-91 | the deal loses and creates no tile: wall, dead wall and hands hold as many copies of every tile as the wall and hands did before |
| Game.DealShape | main.py:90-91 | from n ≥ 66 tiles the dead wall is the 14 tiles above the bottom n − 66, which stay as the live wall; from fewer, all the leftover tiles become the dead wall and the live wall is empty |
| Game.SliceSplit | main.py:90-91 | the two slices [-n:] and [:-n] split the list between them, the first holding min(n, len) tiles |
| Game.FreshGame | main.py:85-91 | dealing from a fresh 136-tile wall leaves 70 live tiles, 14 dead tiles and 13 tiles per hand |
| Hands.Hand.ChooseDiscard | main.py:97-99 | removes and returns the tile at position roll mod hand size, and the rest of the hand keeps its order |
| Game.GameWithAI.FourWindsCheck | main.py:129-131 | the loop over the four seats returns FourWinds of the discard lists, including the IndexError an empty list raises |
| Game.WindSuits | main.py:111-112 | the wind tiles are exactly those whose suit is one of the first four honours (東 南 西 北), and no number suit is a wind |
| Game.FourWindsMeaning | main.py:129-133 | the four-winds check returns True exactly when the first seat has one discard and every seat's first discard is a wind of that same suit |
| Game.NoDiscardsNoWinds | main.py:109 | with the discard lists still empty the check neither fires nor raises |
| Game.GameWithAI.FinishTurn | main.py:120-133 | the rest of a turn after its draw is Finish of the game |
| Game.GameWithAI.PlayTurn | main.py:114-135 | the game and the result afterwards are Turn of the game before |
| Game.Turn | main.py:114-135 | a turn changes only the seat's hand and the wall: dead wall, discards and other hands are kept, a non-empty wall loses its last tile, and an empty wall changes nothing |
| Game.TurnHand | main.py:117-125 | after a draw, a winning hand keeps the drawn tile and the turn returns True (`play_game` ignores it and plays on); otherwise the hand keeps its size and holds all but one of its tiles plus the drawn one |
| Game.RunNeverRaises | main.py:114-135 | while nothing has been discarded, no turn raises |
| Game.GameWithAI.PlayGame | main.py:137-142 | the game afterwards, and whether an IndexError escaped, are Run of the dealt game |
| Game.GameWithAI.PlayTurns | main.py:139-142 | the loop after the deal ends in Run of the game it starts from, returning early exactly when a turn raises |
| Game.GameWithAI.NextTurn | main.py:140-142 | one pass of the loop takes one tile from the wall; if the turn raised, the game is over as Run says, and otherwise the rest of the game to play is unchanged |
| Game.Run | main.py:129-142 | the loop either ends with an empty wall, or stops early because the four-winds check raised an IndexError, which only happens when the check on the discard lists raises; dead wall and discards are kept |
| Game.RunRolls | main.py:139-142 | the loop plays at most one turn per wall tile: only the rolls of turns turn to turn + wall size − 1 matter |
| Game.RunQuiet | main.py:129-142 | from empty discard lists the loop never raises and runs until the wall is empty, one tile per turn, so it plays one turn per wall tile |
| Game.FreshGameQuiet | main.py:85-142 | a fresh game leaves 70 live tiles after the deal and never raises, so it plays exactly 70 turns |

## Left out

- Printing and `__repr__` (the turn's messages, the final hands and the dead wall) are not modelled. They change no state.
- The random number generator is not modelled. The shuffle and each discard instead read their draws from the `rolls` input. The shuffle is a Fisher–Yates pass, which is what `np.random.shuffle` does.
- Wall.CreateWall: its contract states the tile counts of the shuffled wall, not which shuffle order the rolls produce. The order is `Shuffle(OrderedWall(), rolls)` in its body.
- Hand.remove_tile is not modelled, because nothing in the game loop calls it. The model compares tiles by value, so the object identity of two equal tiles is not modelled either.
- The in-place `tiles.sort` inside `can_form_melds` is modelled as a pure sort of a copy. Every caller passes a list built just before the call, so the mutation cannot be observed.
- Hands.Hand.ChooseDiscard: requires a non-empty hand. The turn only discards right after a draw, and `np.random.randint(0)` would raise.
- Game.GameWithAI.DealTiles: requires at least 52 wall tiles instead of modelling the error an empty `pop` raises. The deal only ever runs on a fresh 136-tile wall.
- Game.GameWithAI.PlayGame: requires as many rolls as wall tiles (one per turn), so it inherits the 52-tile requirement of the deal.
- Game.GameWithAI.PlayGame: an IndexError from the four-winds check is returned as the flag `raised`, and play stops there, instead of propagating as an exception to the caller of `play_game`.
- Game.GameWithAI.PlayTurn: seats are numbered 0 to 3, as `turn % 4` makes them. Python also accepts the indices -4 to -1 (seats 0 to 3 counted from the end), and indices of 4 or more raise. The loop passes neither, so neither is modelled.
- The discarded tile is dropped, as the program drops it: the discard lists are never appended to. The four-winds check is modelled exactly, including the IndexError that a discard list raises when it is empty, which stops play. From the empty lists a new game starts with, it can neither fire nor raise.
- Scoring, calls (pon, chi, kan), seven pairs and thirteen orphans are not part of this program and are not modelled.
