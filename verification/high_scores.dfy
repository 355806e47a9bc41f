/**
 * The named leaderboard: entries of a name and a score, kept in descending
 * order of score and cut to ten entries after each insertion.
 */
module HighScores {
  import opened Optional

  datatype Entry = Entry(name: string, score: int)

  /** The most entries a saved leaderboard is cut down to. */
  const MaxEntries: nat := 10

  predicate SortedDesc(s: seq<Entry>) {
    forall i, j :: 0 <= i < j < |s| ==> s[i].score >= s[j].score
  }

  /** The leaderboard invariant: sorted and at most ten entries long. */
  predicate Bounded(s: seq<Entry>) {
    SortedDesc(s) && |s| <= MaxEntries
  }

  /**
   * Where a stable descending sort places `e` when it comes after all of
   * `s`: behind every entry scoring at least as much, before the first one
   * scoring less.
   */
  function InsertPos(s: seq<Entry>, e: Entry): (p: nat)
    ensures p <= |s|
    ensures forall i :: 0 <= i < p ==> s[i].score >= e.score
    ensures p < |s| ==> s[p].score < e.score
    decreases |s|
  {
    if |s| == 0 then 0
    else if s[0].score >= e.score then 1 + InsertPos(s[1..], e)
    else 0
  }

  /**
   * One step of a stable insertion sort by descending score: `e` goes to
   * its insertion position, entries before it stay in place and entries
   * after it move one place back.
   */
  function InsertByScore(s: seq<Entry>, e: Entry): (r: seq<Entry>)
    ensures |r| == |s| + 1
    ensures r[InsertPos(s, e)] == e
    ensures forall k :: 0 <= k < InsertPos(s, e) ==> r[k] == s[k]
    ensures forall k :: InsertPos(s, e) < k < |r| ==> r[k] == s[k - 1]
    ensures multiset(r) == multiset(s) + multiset{e}
    ensures SortedDesc(s) ==> SortedDesc(r)
  {
    var p := InsertPos(s, e);
    assert s == s[..p] + s[p..];
    InsertKeepsSorted(s, e);
    s[..p] + [e] + s[p..]
  }

  lemma {:induction false} InsertKeepsSorted(s: seq<Entry>, e: Entry)
    ensures SortedDesc(s) ==> SortedDesc(s[..InsertPos(s, e)] + [e] + s[InsertPos(s, e)..])
  {
    if !SortedDesc(s) {
      return;
    }
    var p := InsertPos(s, e);
    var r := s[..p] + [e] + s[p..];
    forall i, j | 0 <= i < j < |r|
      ensures r[i].score >= r[j].score
    {
      if j < p {
        assert r[i] == s[i] && r[j] == s[j];
      } else if j == p {
        assert r[i] == s[i];
      } else {
        assert r[j] == s[j - 1];
        if i < p {
          assert r[i] == s[i];
        } else if i == p {
          assert s[p].score >= s[j - 1].score;
        } else {
          assert r[i] == s[i - 1];
        }
      }
    }
  }

  /**
   * The list sorted by descending score, ties in their original order.
   * The comparator `b.score - a.score` of a stable sort has exactly this
   * result.
   */
  function SortByScore(s: seq<Entry>): (r: seq<Entry>)
    ensures |r| == |s|
    ensures multiset(r) == multiset(s)
    ensures SortedDesc(r)
    decreases |s|
  {
    if |s| == 0 then []
    else
      var front := s[..|s| - 1];
      assert s == front + [s[|s| - 1]];
      InsertByScore(SortByScore(front), s[|s| - 1])
  }

  /** A cancelled prompt (`null`) and an empty name are both falsy. */
  predicate NoName(name: Option<string>) {
    name.None? || name.value == ""
  }

  /**
   * Record `score` under the prompted `name`: nothing happens without a
   * name; otherwise the entry is pushed, the list sorted by descending score,
   * and the last entry popped once if the list has grown past ten.
   */
  function UpdateTopScores(top: seq<Entry>, name: Option<string>, score: int): (r: seq<Entry>)
    ensures NoName(name) ==> r == top
    ensures !NoName(name) ==> SortedDesc(r)
    ensures !NoName(name) ==> |r| == if |top| >= MaxEntries then |top| else |top| + 1
    ensures !NoName(name) && |top| < MaxEntries ==>
      multiset(r) == multiset(top) + multiset{Entry(name.value, score)}
    ensures Bounded(top) ==> Bounded(r)
  {
    if NoName(name) then top
    else
      var pushed := top + [Entry(name.value, score)];
      var sorted := SortByScore(pushed);
      if |sorted| > MaxEntries then sorted[..|sorted| - 1] else sorted
  }

  // ---------------------------------------------------------------------
  // Properties of the leaderboard update
  // ---------------------------------------------------------------------

  /** With a name, the update inserts the new entry into the sorted list and pops once past ten. */
  lemma {:induction false} UpdateTopScoresNamed(top: seq<Entry>, name: string, score: int)
    requires name != ""
    ensures var ins := InsertByScore(SortByScore(top), Entry(name, score));
      UpdateTopScores(top, Some(name), score) == if |top| >= MaxEntries then ins[..|top|] else ins
  {
    SortPushed(top, Entry(name, score));
  }

  /** Sorting a list with one entry pushed on the end inserts that entry into the sorted list. */
  lemma {:induction false} SortPushed(top: seq<Entry>, e: Entry)
    ensures SortByScore(top + [e]) == InsertByScore(SortByScore(top), e)
  {
    assert (top + [e])[..|top|] == top;
  }

  /** An entry scoring less than some entry of `s` is inserted before the end of `s`. */
  lemma {:induction false} InsertBeforeEnd(s: seq<Entry>, e: Entry, x: Entry)
    requires x in s && x.score < e.score
    ensures InsertPos(s, e) < |s|
  {
    var j :| 0 <= j < |s| && s[j] == x;
  }

  /**
   * Inserting before the end of a sorted list and popping the last entry
   * keeps the inserted entry and removes the lowest entry of the list.
   */
  lemma {:induction false} PopAfterInsert(sorted: seq<Entry>, e: Entry)
    requires SortedDesc(sorted) && InsertPos(sorted, e) < |sorted|
    ensures var r := InsertByScore(sorted, e)[..|sorted|];
      && e in r
      && multiset(r) + multiset{sorted[|sorted| - 1]} == multiset(sorted) + multiset{e}
      && forall x :: x in r ==> x.score >= sorted[|sorted| - 1].score
  {
    var ins := InsertByScore(sorted, e);
    var r := ins[..|sorted|];
    var lowest := sorted[|sorted| - 1];
    assert r[InsertPos(sorted, e)] == e;
    assert ins[|sorted|] == lowest;
    assert ins == r + [lowest];
    forall x | x in r
      ensures x.score >= lowest.score
    {
      var k :| 0 <= k < |r| && r[k] == x;
      assert ins[k] == x;
    }
  }

  /** With room in the list, the new entry is always kept. */
  lemma {:induction false} KeptWhenRoom(top: seq<Entry>, name: string, score: int)
    requires name != "" && |top| < MaxEntries
    ensures Entry(name, score) in UpdateTopScores(top, Some(name), score)
  {
    assert Entry(name, score) in multiset(UpdateTopScores(top, Some(name), score));
  }

  /**
   * In a full list, the new entry survives the cut when some stored entry
   * scores strictly less; the entry cut is then the lowest stored one.
   */
  lemma {:induction false} KeptWhenOutranks(top: seq<Entry>, name: string, score: int)
    requires name != "" && |top| >= MaxEntries
    requires exists i :: 0 <= i < |top| && top[i].score < score
    ensures var r := UpdateTopScores(top, Some(name), score);
      var lowest := SortByScore(top)[|top| - 1];
      && Entry(name, score) in r
      && multiset(r) + multiset{lowest} == multiset(top) + multiset{Entry(name, score)}
      && forall x :: x in r ==> x.score >= lowest.score
  {
    var e := Entry(name, score);
    var sorted := SortByScore(top);
    UpdateTopScoresNamed(top, name, score);
    assert UpdateTopScores(top, Some(name), score) == InsertByScore(sorted, e)[..|sorted|];
    var i :| 0 <= i < |top| && top[i].score < score;
    assert top[i] in multiset(sorted);
    InsertBeforeEnd(sorted, e, top[i]);
    PopAfterInsert(sorted, e);
  }

  /**
   * A full list whose every entry scores at least as much as the new one
   * ends up as it was, only sorted: the new entry lands last and is the one
   * popped, ties included.
   */
  lemma {:induction false} DroppedWhenLowest(top: seq<Entry>, name: string, score: int)
    requires name != ""
    requires |top| >= MaxEntries
    requires forall i :: 0 <= i < |top| ==> top[i].score >= score
    ensures UpdateTopScores(top, Some(name), score) == SortByScore(top)
  {
    var sorted := SortByScore(top);
    UpdateTopScoresNamed(top, name, score);
    forall k | 0 <= k < |sorted|
      ensures sorted[k].score >= score
    {
      assert sorted[k] in multiset(top);
    }
    InsertAtEnd(sorted, Entry(name, score));
  }

  /** An entry scoring no more than every entry of `s` is inserted at the end. */
  lemma {:induction false} InsertAtEnd(s: seq<Entry>, e: Entry)
    requires forall k :: 0 <= k < |s| ==> s[k].score >= e.score
    ensures InsertByScore(s, e)[..|s|] == s
  {
    var ins := InsertByScore(s, e);
    assert InsertPos(s, e) == |s|;
    assert forall k :: 0 <= k < |s| ==> ins[..|s|][k] == s[k];
  }

  /**
   * The pop happens at most once: a loaded list already longer than ten
   * keeps its length, so only lists of at most ten stay within the bound.
   */
  lemma {:induction false} LengthBound(top: seq<Entry>, name: string, score: int)
    requires name != ""
    ensures |UpdateTopScores(top, Some(name), score)| <= MaxEntries <==> |top| <= MaxEntries
  {
  }
}
