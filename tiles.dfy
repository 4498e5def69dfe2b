/** Tiles as values, the (suit, rank) sort key, and the few list operations the
    hand checker relies on. */
module Tiles {

  /** A tile is compared by its (suit, rank) value only. The suit is the
      single character the program uses for it ('萬', '東', ...). */
  datatype Tile = Tile(suit: char, rank: int)

  /** The three number suits, each with ranks 1 to 9, in enumeration order. */
  const NumberSuits: seq<char> := ['萬', '筒', '索']

  /** The seven honour suits, each with the single rank 1, in enumeration order. */
  const Honors: seq<char> := ['東', '南', '西', '北', '白', '發', '中']

  /** The sort key (suit, rank): suits compare by code point, exactly as
      one-character strings compare, then ranks numerically. */
  predicate Le(a: Tile, b: Tile)
  {
    a.suit < b.suit || (a.suit == b.suit && a.rank <= b.rank)
  }

  predicate Sorted(s: seq<Tile>)
  {
    forall i, j :: 0 <= i < j < |s| ==> Le(s[i], s[j])
  }

  /** Number of copies of t in s. */
  function Count(s: seq<Tile>, t: Tile): (n: nat)
  {
    multiset(s)[t]
  }

  /** Inserts x into a list after every leading tile strictly below it. */
  function Insert(x: Tile, s: seq<Tile>): (r: seq<Tile>)
    ensures |r| == |s| + 1
    ensures multiset(r) == multiset(s) + multiset{x}
  {
    if |s| == 0 then [x]
    else if Le(x, s[0]) then [x] + s
    else
      assert s == [s[0]] + s[1..];
      [s[0]] + Insert(x, s[1..])
  }

  /** Inserting into a sorted list keeps it sorted. */
  lemma {:induction false} InsertSorted(x: Tile, s: seq<Tile>)
    requires Sorted(s)
    ensures Sorted(Insert(x, s))
  {
    if |s| > 0 && !Le(x, s[0]) {
      InsertSorted(x, s[1..]);
      InsertHead(s[0], x, s[1..], Insert(x, s[1..]));
    }
  }

  /** Putting h in front of the insertion keeps the list sorted when h is
      below x and below everything in t. */
  lemma InsertHead(h: Tile, x: Tile, t: seq<Tile>, rest: seq<Tile>)
    requires !Le(x, h)
    requires forall k :: 0 <= k < |t| ==> Le(h, t[k])
    requires Sorted(rest) && multiset(rest) == multiset(t) + multiset{x}
    ensures Sorted([h] + rest)
  {
    forall k | 0 <= k < |rest|
      ensures Le(h, rest[k])
    {
      assert rest[k] in multiset(rest);
      if rest[k] != x {
        assert rest[k] in multiset(t);
        var m :| 0 <= m < |t| && t[m] == rest[k];
      }
    }
  }

  /** The list sorted by the key (suit, rank). */
  function Sort(s: seq<Tile>): (r: seq<Tile>)
    ensures |r| == |s|
  {
    if |s| == 0 then [] else Insert(s[0], Sort(s[1..]))
  }

  /** Sorting yields a sorted rearrangement of the same tiles. */
  lemma {:induction false} SortSpec(s: seq<Tile>)
    ensures Sorted(Sort(s))
    ensures multiset(Sort(s)) == multiset(s)
  {
    SortSorted(s);
    SortPermutes(s);
  }

  lemma {:induction false} SortSorted(s: seq<Tile>)
    ensures Sorted(Sort(s))
  {
    if |s| > 0 {
      SortSorted(s[1..]);
      InsertSorted(s[0], Sort(s[1..]));
    }
  }

  lemma {:induction false} SortPermutes(s: seq<Tile>)
    ensures multiset(Sort(s)) == multiset(s)
  {
    if |s| > 0 {
      SortPermutes(s[1..]);
      MultisetCons(s);
    }
  }

  /** The head of a sorted list is at or below every tile in it. */
  lemma HeadIsLeast(a: seq<Tile>, y: Tile)
    requires Sorted(a) && y in multiset(a)
    ensures |a| > 0 && Le(a[0], y)
  {
    var j :| 0 <= j < |a| && a[j] == y;
  }

  /** Two sorted lists with the same tiles are the same list: the key orders
      tile values totally, so there is one sorted arrangement of a multiset. */
  lemma {:induction false} SortedUnique(a: seq<Tile>, b: seq<Tile>)
    requires Sorted(a) && Sorted(b) && multiset(a) == multiset(b)
    ensures a == b
  {
    if |a| == 0 {
      assert |multiset(b)| == 0;
    } else {
      HeadsEqual(a, b);
      SortedTail(a);
      SortedTail(b);
      TailsSameTiles(a, b);
      SortedUnique(a[1..], b[1..]);
      assert a == [a[0]] + a[1..] && b == [b[0]] + b[1..];
    }
  }

  /** Two sorted lists with the same tiles start with the same tile. */
  lemma HeadsEqual(a: seq<Tile>, b: seq<Tile>)
    requires Sorted(a) && Sorted(b) && multiset(a) == multiset(b) && |a| > 0
    ensures |b| > 0 && a[0] == b[0]
  {
    assert a[0] in multiset(a);
    HeadIsLeast(b, a[0]);
    HeadIsLeast(a, b[0]);
  }

  lemma SortedTail(a: seq<Tile>)
    requires Sorted(a) && |a| > 0
    ensures Sorted(a[1..])
  {
    forall i, j | 0 <= i < j < |a| - 1
      ensures Le(a[1..][i], a[1..][j])
    {
      assert a[1..][i] == a[i + 1] && a[1..][j] == a[j + 1];
    }
  }

  lemma TailsSameTiles(a: seq<Tile>, b: seq<Tile>)
    requires |a| > 0 && |b| > 0 && a[0] == b[0] && multiset(a) == multiset(b)
    ensures multiset(a[1..]) == multiset(b[1..])
  {
    assert a == [a[0]] + a[1..] && b == [b[0]] + b[1..];
    calc {
      multiset(a[1..]);
      multiset(a) - multiset{a[0]};
      multiset(b) - multiset{b[0]};
      multiset(b[1..]);
    }
  }

  lemma MultisetCons(s: seq<Tile>)
    requires |s| > 0
    ensures multiset(s) == multiset(s[1..]) + multiset{s[0]}
  {
    assert s == [s[0]] + s[1..];
  }

  /** Sorting depends only on which tiles there are, not on their order. */
  lemma SortPermutation(a: seq<Tile>, b: seq<Tile>)
    requires multiset(a) == multiset(b)
    ensures Sort(a) == Sort(b)
  {
    SortSpec(a);
    SortSpec(b);
    SortedUnique(Sort(a), Sort(b));
  }

  /** Sorting an already sorted list leaves it as it is. */
  lemma SortOfSorted(s: seq<Tile>)
    requires Sorted(s)
    ensures Sort(s) == s
  {
    SortSpec(s);
    SortedUnique(Sort(s), s);
  }

  /** s with every copy of t dropped, the others kept in order. */
  function RemoveAll(s: seq<Tile>, t: Tile): (r: seq<Tile>)
    ensures multiset(r) == multiset(s)[t := 0]
    ensures |r| == |s| - Count(s, t)
  {
    if |s| == 0 then []
    else
      var last := s[|s| - 1];
      assert s == s[..|s| - 1] + [last];
      RemoveAll(s[..|s| - 1], t) + (if last == t then [] else [last])
  }

  /** The lists of gs joined in order. */
  function Flatten(gs: seq<seq<Tile>>): (r: seq<Tile>)
  {
    if |gs| == 0 then [] else gs[0] + Flatten(gs[1..])
  }

  lemma FlattenCons(g: seq<Tile>, gs: seq<seq<Tile>>)
    ensures Flatten([g] + gs) == g + Flatten(gs)
  {
    assert ([g] + gs)[1..] == gs;
  }

  /** No tile value occurs twice in ps. */
  predicate Distinct(ps: seq<Tile>)
  {
    forall i, j :: 0 <= i < j < |ps| ==> ps[i] != ps[j]
  }

  /** A list without repeats holds at most one copy of any tile. */
  lemma {:induction false} DistinctCount(s: seq<Tile>, t: Tile)
    requires Distinct(s)
    ensures Count(s, t) <= 1
  {
    if |s| > 0 {
      assert s == [s[0]] + s[1..];
      DistinctCount(s[1..], t);
      if s[0] == t {
        assert t !in s[1..];
      }
    }
  }
}
