/**
 * The bounded, newest-first history of successful conversions (script.js,
 * `urlHistoryData` and the three functions that mutate it) and its mirror
 * under the 'urlHistory' key of durable storage.
 */
module History {
  import opened Wrappers

  /** At most this many records are kept after an insertion. */
  const Capacity: nat := 10

  /** One successful conversion; the timestamp is an ISO-8601 string supplied by the caller. */
  datatype Record = Record(originalUrl: string, shortenedUrl: string, timestamp: string)

  /**
   * What a page load reads back: a missing key yields the empty history,
   * a stored array is taken as it is (no truncation to Capacity).
   */
  function LoadHistory(stored: Option<seq<Record>>): (h: seq<Record>)
    ensures stored.None? ==> h == []
    ensures stored.Some? ==> h == stored.value
  {
    match stored
    case None => []
    case Some(items) => items
  }

  /**
   * The history after inserting `r`: `r` at the head, then the earlier
   * records in their order, the oldest one dropped when the history already
   * held Capacity or more records.
   */
  function Inserted(h: seq<Record>, r: Record): (h': seq<Record>)
    ensures |h'| == if |h| < Capacity then |h| + 1 else |h|
    ensures h'[0] == r
    ensures forall j :: 1 <= j < |h'| ==> h'[j] == h[j - 1]
  {
    var kept := if |h| < Capacity then |h| else |h| - 1;
    [r] + h[..kept]
  }

  /**
   * The position `splice(index, 1)` starts at: a negative index counts back
   * from the end (clamped at 0), a non-negative one is clamped at the length.
   */
  function SpliceStart(len: nat, index: int): (k: nat)
    ensures k <= len
    ensures 0 <= index <= len ==> k == index
    ensures index < 0 && 0 <= len + index ==> k == len + index
    ensures index > len ==> k == len
    ensures len + index < 0 ==> k == 0
  {
    if index < 0 then (if len + index < 0 then 0 else len + index)
    else if index > len then len
    else index
  }

  /** The history after `splice(index, 1)`: the record at the resolved position, if any, is gone. */
  function Spliced(h: seq<Record>, index: int): (h': seq<Record>)
    ensures var k := SpliceStart(|h|, index);
            if k < |h| then
              && |h'| == |h| - 1
              && (forall j :: 0 <= j < k ==> h'[j] == h[j])
              && (forall j :: k <= j < |h'| ==> h'[j] == h[j + 1])
              && multiset(h') + multiset{h[k]} == multiset(h)
            else h' == h
  {
    var k := SpliceStart(|h|, index);
    if k < |h| then
      assert h == h[..k] + [h[k]] + h[k + 1..];
      h[..k] + h[k + 1..]
    else h
  }

  /** Deleting at or past the end removes nothing. */
  lemma SplicedPastEnd(h: seq<Record>, index: int)
    requires index >= |h|
    ensures Spliced(h, index) == h
  {
  }

  /** A negative index acts as its counterpart counted from the end: -1 deletes the oldest record. */
  lemma SplicedFromEnd(h: seq<Record>, index: int)
    requires index < 0 && 0 <= |h| + index
    ensures Spliced(h, index) == Spliced(h, |h| + index)
    ensures index == -1 ==> Spliced(h, index) == h[..|h| - 1]
  {
  }

  /** The result of one insertion is within Capacity whenever the history was. */
  lemma InsertedWithinCapacity(h: seq<Record>, r: Record)
    requires |h| <= Capacity
    ensures |Inserted(h, r)| <= Capacity
    ensures |h| == Capacity ==> Inserted(h, r) == [r] + h[..Capacity - 1]
    ensures |h| < Capacity ==> Inserted(h, r) == [r] + h
  {
  }

  /** Records inserted one after another, oldest first. */
  function InsertAll(h: seq<Record>, rs: seq<Record>): seq<Record>
    decreases |rs|
  {
    if rs == [] then h else InsertAll(Inserted(h, rs[0]), rs[1..])
  }

  /** The records of `s`, last first. */
  function Reverse(s: seq<Record>): (r: seq<Record>)
    ensures |r| == |s|
    ensures forall i :: 0 <= i < |s| ==> r[i] == s[|s| - 1 - i]
  {
    seq(|s|, i requires 0 <= i < |s| => s[|s| - 1 - i])
  }

  function Min(a: int, b: int): int {
    if a < b then a else b
  }

  /**
   * After any run of insertions into a history within Capacity, the history
   * holds the most recent records, newest first, then what was there before,
   * cut to Capacity.
   */
  lemma {:induction false} InsertAllNewestFirst(h: seq<Record>, rs: seq<Record>)
    requires |h| <= Capacity
    ensures InsertAll(h, rs) == (Reverse(rs) + h)[..Min(Capacity, |rs| + |h|)]
    decreases |rs|
  {
    if rs != [] {
      var r, rest := rs[0], rs[1..];
      var h1 := Inserted(h, r);
      InsertedWithinCapacity(h, r);
      InsertAllNewestFirst(h1, rest);
      var n := Min(Capacity, |rs| + |h|);
      assert h1 == ([r] + h)[..Min(Capacity, |h| + 1)];
      assert Reverse(rs) == Reverse(rest) + [r];
      var lhs := (Reverse(rest) + h1)[..Min(Capacity, |rest| + |h1|)];
      var rhs := (Reverse(rs) + h)[..n];
      assert |lhs| == |rhs|;
      forall j | 0 <= j < |lhs|
        ensures lhs[j] == rhs[j]
      {
        if j < |rest| {
        } else if j == |rest| {
        } else {
          assert lhs[j] == h1[j - |rest|] == h[j - |rest| - 1];
        }
      }
    }
  }

  /** Inserting Capacity or more records leaves exactly the Capacity most recent ones, newest first. */
  lemma InsertAllKeepsLatest(h: seq<Record>, rs: seq<Record>)
    requires |h| <= Capacity && |rs| >= Capacity
    ensures InsertAll(h, rs) == Reverse(rs[|rs| - Capacity..])
  {
    InsertAllNewestFirst(h, rs);
    var latest := rs[|rs| - Capacity..];
    var front := (Reverse(rs) + h)[..Capacity];
    assert Min(Capacity, |rs| + |h|) == Capacity;
    assert |front| == |Reverse(latest)| == Capacity;
    forall i | 0 <= i < Capacity
      ensures front[i] == Reverse(latest)[i]
    {
      assert front[i] == Reverse(rs)[i] == rs[|rs| - 1 - i];
      assert Reverse(latest)[i] == latest[Capacity - 1 - i] == rs[|rs| - 1 - i];
    }
  }

  /**
   * The history state of script.js: `items` is `urlHistoryData`, `stored` the
   * value under the 'urlHistory' key of durable storage (None while the key is absent).
   */
  class HistoryStore {
    var items: seq<Record>
    var stored: Option<seq<Record>>

    /** A reload would give back exactly the history in memory. */
    ghost predicate Valid()
      reads this
    {
      LoadHistory(stored) == items
    }

    /** Page start: read the storage key once. */
    constructor Load(saved: Option<seq<Record>>)
      ensures Valid()
      ensures stored == saved && items == LoadHistory(saved)
    {
      stored := saved;
      items := LoadHistory(saved);
    }

    /** `addToHistory`: unshift the new record, pop once if over Capacity, then write the mirror. */
    method AddToHistory(originalUrl: string, shortenedUrl: string, timestamp: string)
      requires Valid()
      modifies this
      ensures Valid()
      ensures items == Inserted(old(items), Record(originalUrl, shortenedUrl, timestamp))
      ensures stored == Some(items)
      ensures |old(items)| <= Capacity ==> |items| <= Capacity
    {
      items := [Record(originalUrl, shortenedUrl, timestamp)] + items;
      if |items| > Capacity {
        items := items[..|items| - 1];
      }
      stored := Some(items);
    }

    /** `deleteFromHistory`: `splice(index, 1)`, then write the mirror, whether or not anything was removed. */
    method DeleteFromHistory(index: int)
      requires Valid()
      modifies this
      ensures Valid()
      ensures items == Spliced(old(items), index)
      ensures stored == Some(items)
      ensures |old(items)| <= Capacity ==> |items| <= Capacity
    {
      var k := SpliceStart(|items|, index);
      if k < |items| {
        items := items[..k] + items[k + 1..];
      }
      stored := Some(items);
    }

    /**
     * `clearHistory`, with the user's answer to the confirmation dialog as
     * `confirmed`: an empty history is reported and nothing is written; a
     * declined confirmation changes nothing.
     */
    method ClearHistory(confirmed: bool) returns (outcome: ClearOutcome)
      requires Valid()
      modifies this
      ensures Valid()
      ensures outcome == (if old(items) == [] then AlreadyEmpty else if confirmed then Cleared else Declined)
      ensures outcome == Cleared ==> items == [] && stored == Some([])
      ensures outcome != Cleared ==> items == old(items) && stored == old(stored)
    {
      if |items| == 0 {
        return AlreadyEmpty;
      }
      if confirmed {
        items := [];
        stored := Some(items);
        return Cleared;
      }
      return Declined;
    }
  }

  /** What `clearHistory` reports: "already empty", "cleared", or nothing (the dialog was declined). */
  datatype ClearOutcome = AlreadyEmpty | Cleared | Declined
}
