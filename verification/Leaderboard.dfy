/** The leaderboards: rows sorted by points, then two counters, all descending, then by id. */
module Leaderboard {

  /** `first` and `second` are the two counters: jobs and tasks of a user, executed and attested tasks of a
      keeper. */
  datatype Entry = Entry(id: int, name: string, first: int, second: int, points: real)

  /** The comparator passed to the sort. */
  predicate Before(a: Entry, b: Entry) {
    if a.points != b.points then a.points > b.points
    else if a.first != b.first then a.first > b.first
    else if a.second != b.second then a.second > b.second
    else a.id < b.id
  }

  ghost predicate DistinctIds(s: seq<Entry>) {
    forall i, j :: 0 <= i < j < |s| ==> s[i].id != s[j].id
  }

  /** The comparator is a strict order, and decides between any two entries with different ids. */
  lemma BeforeIsStrictTotal(a: Entry, b: Entry, c: Entry)
    ensures !Before(a, a)
    ensures Before(a, b) ==> !Before(b, a)
    ensures Before(a, b) && Before(b, c) ==> Before(a, c)
    ensures a.id != b.id ==> Before(a, b) || Before(b, a)
  {
  }

  /** How an entry and any later one of the board compare: points do not rise; on equal points the first
      counter does not, on equal ones the second does not, and on a full tie ids do not fall. */
  predicate BestFirst(earlier: Entry, later: Entry) {
    && earlier.points >= later.points
    && (earlier.points == later.points ==> earlier.first >= later.first)
    && (earlier.points == later.points && earlier.first == later.first ==> earlier.second >= later.second)
    && (earlier.points == later.points && earlier.first == later.first && earlier.second == later.second ==>
          earlier.id <= later.id)
  }

  /** Which of two entries comes first: the one with more points; on equal points the one with more of the
      first counter, then of the second; on a full tie the one with the lower id. */
  lemma BeforeMeans(a: Entry, b: Entry)
    ensures a.points > b.points ==> Before(a, b)
    ensures a.points == b.points && a.first > b.first ==> Before(a, b)
    ensures a.points == b.points && a.first == b.first && a.second > b.second ==> Before(a, b)
    ensures a.points == b.points && a.first == b.first && a.second == b.second && a.id < b.id ==> Before(a, b)
    ensures Before(a, b) ==> a.points >= b.points
  {
  }

  ghost predicate Sorted(s: seq<Entry>) {
    forall i, j :: 0 <= i < j < |s| ==> !Before(s[j], s[i])
  }

  function Insert(e: Entry, s: seq<Entry>): seq<Entry> {
    if s == [] || Before(e, s[0]) then [e] + s else [s[0]] + Insert(e, s[1..])
  }

  function Ranked(rows: seq<Entry>): seq<Entry> {
    if rows == [] then [] else Insert(rows[|rows| - 1], Ranked(rows[..|rows| - 1]))
  }

  lemma {:induction false} InsertAdds(e: Entry, s: seq<Entry>)
    ensures multiset(Insert(e, s)) == multiset(s) + multiset{e}
  {
    if s != [] && !Before(e, s[0]) {
      InsertAdds(e, s[1..]);
      assert s == [s[0]] + s[1..];
    }
  }

  lemma {:induction false} InsertKeepsSorted(e: Entry, s: seq<Entry>)
    requires Sorted(s)
    ensures Sorted(Insert(e, s))
  {
    if s != [] && !Before(e, s[0]) {
      InsertKeepsSorted(e, s[1..]);
      InsertAdds(e, s[1..]);
      var t := Insert(e, s[1..]);
      forall x | x in t ensures !Before(x, s[0]) {
        assert x in multiset(t);
        assert x == e || x in s[1..];
      }
    } else if s != [] {
      forall x | x in s ensures !Before(x, e) {
        BeforeIsStrictTotal(x, e, s[0]);
        BeforeIsStrictTotal(e, s[0], x);
      }
    }
  }

  lemma {:induction false} RankedIsSortedPermutation(rows: seq<Entry>)
    ensures Sorted(Ranked(rows)) && multiset(Ranked(rows)) == multiset(rows)
  {
    if rows != [] {
      var n := |rows| - 1;
      RankedIsSortedPermutation(rows[..n]);
      InsertAdds(rows[n], Ranked(rows[..n]));
      InsertKeepsSorted(rows[n], Ranked(rows[..n]));
      assert rows == rows[..n] + [rows[n]];
    }
  }

  /** Collects the rows the database returns, then sorts them. */
  method GetLeaderboard(rows: seq<Entry>) returns (board: seq<Entry>)
    ensures Sorted(board) && multiset(board) == multiset(rows)
    ensures forall i, j :: 0 <= i < j < |board| ==> BestFirst(board[i], board[j])
  {
    board := [];
    for i := 0 to |rows|
      invariant board == rows[..i]
    {
      board := board + [rows[i]];
    }
    assert rows[..|rows|] == rows;
    board := SortSlice(board);
  }

  method SortSlice(s: seq<Entry>) returns (r: seq<Entry>)
    ensures r == Ranked(s) && Sorted(r) && multiset(r) == multiset(s)
  {
    r := [];
    for i := 0 to |s|
      invariant r == Ranked(s[..i])
    {
      assert s[..i + 1][..i] == s[..i];
      r := Insert(s[i], r);
    }
    assert s[..|s|] == s;
    RankedIsSortedPermutation(s);
  }

  /** With distinct ids there is only one sorted order of the same rows, so any sort gives the same board
      whatever order the database returns the rows in. */
  lemma {:induction false} OrderIsCanonical(s: seq<Entry>, t: seq<Entry>)
    requires Sorted(s) && Sorted(t) && multiset(s) == multiset(t) && DistinctIds(s)
    ensures s == t
  {
    SameSize(s, t);
    if s != [] {
      SameHead(s, t);
      TailOf(s);
      TailOf(t);
      OrderIsCanonical(s[1..], t[1..]);
    }
  }

  lemma TailOf(s: seq<Entry>)
    requires Sorted(s) && s != []
    ensures Sorted(s[1..]) && multiset(s[1..]) == multiset(s) - multiset{s[0]} && s == [s[0]] + s[1..]
  {
    assert s == [s[0]] + s[1..];
  }

  lemma SameHead(s: seq<Entry>, t: seq<Entry>)
    requires Sorted(s) && Sorted(t) && multiset(s) == multiset(t) && DistinctIds(s) && s != [] && t != []
    ensures s[0] == t[0]
  {
    assert s[0] in multiset(t) && t[0] in multiset(s);
    var i :| 0 <= i < |s| && s[i] == t[0];
    var j :| 0 <= j < |t| && t[j] == s[0];
    BeforeIsStrictTotal(s[0], s[i], s[0]);
  }

  lemma SameSize(s: seq<Entry>, t: seq<Entry>)
    requires multiset(s) == multiset(t)
    ensures |s| == |t|
  {
    assert |multiset(s)| == |s| && |multiset(t)| == |t|;
  }
}
