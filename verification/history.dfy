/**
 * The in-memory history list: how loaded records are cleaned and ordered,
 * and what saving and deleting a record do to the list.
 */
module History {
  import opened Wrappers
  import opened Session

  /**
   * The sort key of a record. The comparator `b.timestamp - a.timestamp`
   * coerces a null timestamp to 0.
   */
  function TimeKey(r: EmotionData): (k: int) {
    match r.timestamp
    case Some(t) => t
    case None => 0
  }

  /** Newest first: timestamps never increase along the list. */
  ghost predicate SortedNewestFirst(h: seq<EmotionData>) {
    forall i, j :: 0 <= i < j < |h| ==> TimeKey(h[i]) >= TimeKey(h[j])
  }

  /**
   * `records.filter(Boolean)`: the records whose read returned something,
   * each as often as it was read.
   */
  function Present(records: seq<Option<EmotionData>>): (r: seq<EmotionData>)
    ensures forall x :: x in r <==> Some(x) in records
    ensures forall x :: multiset(r)[x] == multiset(records)[Some(x)]
    ensures |r| <= |records|
  {
    if records == [] then []
    else
      var rest := Present(records[1..]);
      assert records == [records[0]] + records[1..];
      match records[0]
      case Some(x) => [x] + rest
      case None => rest
  }

  /** The filter works read by read, so the kept records stay in their order. */
  lemma {:induction false} PresentDistributes(a: seq<Option<EmotionData>>, b: seq<Option<EmotionData>>)
    ensures Present(a + b) == Present(a) + Present(b)
  {
    if a != [] {
      var ab := a + b;
      assert ab[0] == a[0] && ab[1..] == a[1..] + b;
      PresentDistributes(a[1..], b);
      match a[0]
      case Some(x) =>
        assert Present(ab) == [x] + Present(ab[1..]);
        assert Present(a) == [x] + Present(a[1..]);
      case None =>
        assert Present(ab) == Present(ab[1..]);
        assert Present(a) == Present(a[1..]);
    } else {
      assert a + b == b;
    }
  }

  /** A record whose key is at least every key of a sorted list can be put in front of it. */
  lemma ConsSorted(y: EmotionData, t: seq<EmotionData>)
    requires SortedNewestFirst(t)
    requires forall z :: z in t ==> TimeKey(z) <= TimeKey(y)
    ensures SortedNewestFirst([y] + t)
  {
    var s := [y] + t;
    forall i, j | 0 <= i < j < |s| ensures TimeKey(s[i]) >= TimeKey(s[j]) {
      assert s[j] == t[j - 1];
      if i > 0 { assert s[i] == t[i - 1]; } else { assert s[j] in t; }
    }
  }

  /**
   * One step of a stable sort by descending timestamp: `x`, which came
   * before every record of `h` in the input, goes before the first record
   * whose timestamp is not newer than its own.
   */
  function Insert(x: EmotionData, h: seq<EmotionData>): (r: seq<EmotionData>)
    ensures multiset(r) == multiset(h) + multiset{x}
    ensures forall z :: z in r <==> z == x || z in h
    ensures SortedNewestFirst(h) ==> SortedNewestFirst(r)
  {
    if h == [] then [x]
    else if TimeKey(x) >= TimeKey(h[0]) then
      var r := [x] + h;
      SortedCons(x, h);
      r
    else
      var t := Insert(x, h[1..]);
      assert h == [h[0]] + h[1..];
      SortedTail(h);
      SortedHead(h);
      AboveAll(h[0], x, h[1..], t);
      [h[0]] + t
  }

  /** The tail of a sorted list is sorted. */
  lemma SortedTail(h: seq<EmotionData>)
    ensures h != [] && SortedNewestFirst(h) ==> SortedNewestFirst(h[1..])
  {
    if h != [] && SortedNewestFirst(h) {
      forall i, j | 0 <= i < j < |h| - 1 ensures TimeKey(h[1..][i]) >= TimeKey(h[1..][j]) {
        assert h[1..][i] == h[i + 1] && h[1..][j] == h[j + 1];
      }
    }
  }

  /** The head of a sorted list is at least as new as every other record. */
  lemma SortedHead(h: seq<EmotionData>)
    ensures h != [] && SortedNewestFirst(h) ==> forall z :: z in h[1..] ==> TimeKey(z) <= TimeKey(h[0])
  {
    if h != [] && SortedNewestFirst(h) {
      forall z | z in h[1..] ensures TimeKey(z) <= TimeKey(h[0]) {
        var j :| 0 <= j < |h[1..]| && h[1..][j] == z;
        assert h[j + 1] == z;
      }
    }
  }

  /** `[x] + h` is sorted when `h` is and `x` is at least as new as its head. */
  lemma SortedCons(x: EmotionData, h: seq<EmotionData>)
    requires h != [] && TimeKey(x) >= TimeKey(h[0])
    ensures SortedNewestFirst(h) ==> SortedNewestFirst([x] + h)
  {
    if SortedNewestFirst(h) {
      SortedHead(h);
      assert h == [h[0]] + h[1..];
      ConsSorted(x, h);
    }
  }

  /** The step case of `Insert`: the head stays in front of the rest with `x` inserted. */
  lemma AboveAll(y: EmotionData, x: EmotionData, ys: seq<EmotionData>, t: seq<EmotionData>)
    requires TimeKey(y) > TimeKey(x)
    requires forall z :: z in t <==> z == x || z in ys
    ensures SortedNewestFirst([y] + ys) && SortedNewestFirst(t) ==> SortedNewestFirst([y] + t)
  {
    if SortedNewestFirst([y] + ys) && SortedNewestFirst(t) {
      SortedHead([y] + ys);
      assert ([y] + ys)[1..] == ys;
      ConsSorted(y, t);
    }
  }

  /** `.sort((a, b) => b.timestamp - a.timestamp)`, a stable sort, newest first. */
  function SortNewestFirst(s: seq<EmotionData>): (r: seq<EmotionData>)
    ensures SortedNewestFirst(r)
    ensures multiset(r) == multiset(s)
  {
    if s == [] then []
    else
      assert s == [s[0]] + s[1..];
      Insert(s[0], SortNewestFirst(s[1..]))
  }

  /** The records of `s` with timestamp key `k`, in their order in `s`. */
  function WithKey(s: seq<EmotionData>, k: int): (r: seq<EmotionData>) {
    if s == [] then []
    else (if TimeKey(s[0]) == k then [s[0]] else []) + WithKey(s[1..], k)
  }

  lemma {:induction false} InsertWithKey(x: EmotionData, h: seq<EmotionData>, k: int)
    ensures WithKey(Insert(x, h), k) == (if TimeKey(x) == k then [x] else []) + WithKey(h, k)
  {
    if h != [] && TimeKey(x) < TimeKey(h[0]) {
      InsertWithKey(x, h[1..], k);
      assert ([h[0]] + Insert(x, h[1..]))[1..] == Insert(x, h[1..]);
    } else {
      assert ([x] + h)[1..] == h;
    }
  }

  /** The sort is stable: records with equal timestamps keep their input order. */
  lemma {:induction false} SortKeepsTiesInOrder(s: seq<EmotionData>, k: int)
    ensures WithKey(SortNewestFirst(s), k) == WithKey(s, k)
  {
    if s != [] {
      SortKeepsTiesInOrder(s[1..], k);
      InsertWithKey(s[0], SortNewestFirst(s[1..]), k);
    }
  }

  /**
   * The history after a load: null reads dropped, then sorted newest first.
   * It is a permutation of the non-null reads.
   */
  function LoadedHistory(records: seq<Option<EmotionData>>): (h: seq<EmotionData>)
    ensures SortedNewestFirst(h)
    ensures multiset(h) == multiset(Present(records))
    ensures forall x :: multiset(h)[x] == multiset(records)[Some(x)]
    ensures forall x :: x in h <==> Some(x) in records
    ensures |h| <= |records|
  {
    var present := Present(records);
    var h := SortNewestFirst(present);
    assert forall x :: x in h <==> x in multiset(present);
    assert |h| == |multiset(h)|;
    h
  }

  /**
   * Records read with the same timestamp keep their read order in the
   * loaded history.
   */
  lemma LoadKeepsTiesInOrder(records: seq<Option<EmotionData>>, k: int)
    ensures WithKey(LoadedHistory(records), k) == WithKey(Present(records), k)
  {
    SortKeepsTiesInOrder(Present(records), k);
  }

  /**
   * `history.filter(h => h.timestamp !== ts)`. The timestamp passed is the
   * record's own, so it is null for a record stored without one, and then
   * every record without a timestamp goes.
   */
  function WithoutStamp(h: seq<EmotionData>, ts: Option<int>): (r: seq<EmotionData>)
    ensures forall x :: x in r <==> x in h && x.timestamp != ts
    ensures |r| <= |h|
  {
    if h == [] then []
    else
      var rest := WithoutStamp(h[1..], ts);
      assert h == [h[0]] + h[1..];
      if h[0].timestamp == ts then rest else [h[0]] + rest
  }

  /** The filter works element by element, so the kept records stay in order. */
  lemma {:induction false} WithoutStampDistributes(a: seq<EmotionData>, b: seq<EmotionData>, ts: Option<int>)
    ensures WithoutStamp(a + b, ts) == WithoutStamp(a, ts) + WithoutStamp(b, ts)
  {
    if a != [] {
      assert (a + b)[0] == a[0] && (a + b)[1..] == a[1..] + b;
      WithoutStampDistributes(a[1..], b, ts);
    } else {
      assert a + b == b;
    }
  }

  /** Deleting a timestamp no record has changes nothing. */
  lemma {:induction false} WithoutStampAbsent(h: seq<EmotionData>, ts: Option<int>)
    requires forall x :: x in h ==> x.timestamp != ts
    ensures WithoutStamp(h, ts) == h
  {
    if h != [] {
      assert forall x :: x in h[1..] ==> x in h;
      WithoutStampAbsent(h[1..], ts);
      assert h == [h[0]] + h[1..];
    }
  }

  /** Deleting keeps a sorted history sorted. */
  lemma {:induction false} WithoutStampKeepsSorted(h: seq<EmotionData>, ts: Option<int>)
    requires SortedNewestFirst(h)
    ensures SortedNewestFirst(WithoutStamp(h, ts))
  {
    if h != [] {
      SortedTail(h);
      SortedHead(h);
      WithoutStampKeepsSorted(h[1..], ts);
      if h[0].timestamp != ts {
        ConsSorted(h[0], WithoutStamp(h[1..], ts));
      }
    }
  }

  /** The history after a successful save: the new record in front of the old list. */
  function SavedHistory(h: seq<EmotionData>, d: EmotionData, now: int): (r: seq<EmotionData>)
    ensures |r| == |h| + 1 && r[0] == Stamped(d, now) && r[1..] == h
  {
    [Stamped(d, now)] + h
  }

  /** Deleting a record just saved under a fresh timestamp gives back the old history. */
  lemma DeleteUndoesSave(h: seq<EmotionData>, d: EmotionData, now: int)
    requires forall x :: x in h ==> x.timestamp != Some(now)
    ensures WithoutStamp(SavedHistory(h, d, now), Some(now)) == h
  {
    var r := SavedHistory(h, d, now);
    assert r == [r[0]] + h;
    WithoutStampDistributes([r[0]], h, Some(now));
    WithoutStampAbsent(h, Some(now));
  }

  /**
   * The clock is read, not trusted: a save keeps a sorted history sorted
   * exactly when the new timestamp is not older than the newest record.
   */
  lemma SaveKeepsSortedIff(h: seq<EmotionData>, d: EmotionData, now: int)
    requires SortedNewestFirst(h)
    ensures SortedNewestFirst(SavedHistory(h, d, now)) <==> (h == [] || now >= TimeKey(h[0]))
  {
    var r := SavedHistory(h, d, now);
    assert TimeKey(r[0]) == now;
    if h == [] || now >= TimeKey(h[0]) {
      SortedHead(h);
      assert h != [] ==> h == [h[0]] + h[1..];
      ConsSorted(Stamped(d, now), h);
    } else {
      assert r[1] == h[0];
    }
  }
}
