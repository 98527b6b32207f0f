/** The trajectory endpoint `GET /position/<self_id>`: the rows of one vessel
    inside the resolved window, in ascending timestamp order, rendered as a
    GPX document with one track holding one segment of track points. */
module Trajectory {
  import opened Wrappers
  import opened Store
  import opened Identity
  import opened TimeWindow

  /** A coordinate as stored; only its textual rendering reaches the document. */
  datatype Coord = Coord(text: string)

  /** The columns of a `navigation_position` row that the handler uses:
      the vessel context, the timestamp (column 1), the longitude (column 4)
      and the latitude (column 5). */
  datatype PositionRow = PositionRow(context: string, timestamp: int, lon: Coord, lat: Coord)

  datatype Trkpt = Trkpt(lat: Coord, lon: Coord, time: int)
  datatype Trkseg = Trkseg(points: seq<Trkpt>)
  datatype Trk = Trk(segment: Trkseg)
  datatype Gpx = Gpx(xmlns: string, track: Trk)

  const GpxNamespace: string := "http://www.topografix.com/GPX/1/1"

  /** `trkpt` with `lat` from column 5, `lon` from column 4 and `time` from column 1. */
  function PointOf(row: PositionRow): Trkpt {
    Trkpt(row.lat, row.lon, row.timestamp)
  }

  function PointsOf(gpx: Gpx): seq<Trkpt> {
    gpx.track.segment.points
  }

  /** The `WHERE timestamp ...` condition the resolved window contributes;
      `now` is the store's `NOW()`. */
  predicate InWindow(w: Window, now: int, t: int) {
    match w
    case Range(s, e) => s <= t <= e
    case Lookback15 => now - LookbackSeconds <= t
  }

  predicate Matches(id: string, w: Window, now: int, row: PositionRow) {
    row.context == id && InWindow(w, now, row.timestamp)
  }

  /** The rows the `WHERE` clause keeps, in store order. */
  function Matching(id: string, w: Window, now: int, rows: seq<PositionRow>): (kept: seq<PositionRow>)
    ensures forall row :: multiset(kept)[row] == if Matches(id, w, now, row) then multiset(rows)[row] else 0
    ensures |kept| <= |rows|
  {
    if |rows| == 0 then []
    else
      var rest := Matching(id, w, now, rows[1..]);
      assert rows == [rows[0]] + rows[1..];
      if Matches(id, w, now, rows[0]) then [rows[0]] + rest else rest
  }

  predicate SortedByTime(rows: seq<PositionRow>) {
    forall i, j :: 0 <= i < j < |rows| ==> rows[i].timestamp <= rows[j].timestamp
  }

  /** Insert `row` before the first row with a timestamp not below its own. */
  function Insert(row: PositionRow, rows: seq<PositionRow>): (r: seq<PositionRow>)
    requires SortedByTime(rows)
    ensures SortedByTime(r)
    ensures multiset(r) == multiset(rows) + multiset{row}
    ensures |r| > 0 && (r[0] == row || (|rows| > 0 && r[0] == rows[0]))
  {
    if |rows| == 0 then [row]
    else if row.timestamp <= rows[0].timestamp then
      ConsSorted(row, rows);
      [row] + rows
    else
      var tail := rows[1..];
      assert SortedByTime(tail);
      var rest := Insert(row, tail);
      assert rows == [rows[0]] + tail;
      assert multiset(rows) == multiset{rows[0]} + multiset(tail);
      ConsSorted(rows[0], rest);
      var r := [rows[0]] + rest;
      assert multiset(r) == multiset{rows[0]} + multiset(rest);
      r
  }

  /** A row no later than the head of an ascending sequence can go in front. */
  lemma ConsSorted(x: PositionRow, s: seq<PositionRow>)
    requires SortedByTime(s)
    requires |s| == 0 || x.timestamp <= s[0].timestamp
    ensures SortedByTime([x] + s)
  {
    var r := [x] + s;
    forall i, j | 0 <= i < j < |r|
      ensures r[i].timestamp <= r[j].timestamp
    {
      if i == 0 {
        assert r[j] == s[j - 1];
        assert s[0].timestamp <= s[j - 1].timestamp;
      } else {
        assert r[i] == s[i - 1] && r[j] == s[j - 1];
      }
    }
  }

  /** `ORDER BY timestamp ASC`: a stable insertion sort. */
  function SortByTime(rows: seq<PositionRow>): (r: seq<PositionRow>)
    ensures SortedByTime(r)
    ensures multiset(r) == multiset(rows)
  {
    if |rows| == 0 then []
    else
      assert rows == [rows[0]] + rows[1..];
      Insert(rows[0], SortByTime(rows[1..]))
  }

  /** The query of the handler: the vessel's rows inside the window,
      ascending by timestamp, each matching row exactly as often as stored. */
  function Select(id: string, w: Window, now: int, store: seq<PositionRow>): (r: seq<PositionRow>)
    ensures SortedByTime(r)
    ensures forall row :: multiset(r)[row] == if Matches(id, w, now, row) then multiset(store)[row] else 0
  {
    SortByTime(Matching(id, w, now, store))
  }

  /** The document for a sequence of rows, one point per row, in row order. */
  function TrackOf(rows: seq<PositionRow>): Gpx {
    Gpx(GpxNamespace, Trk(Trkseg(seq(|rows|, i requires 0 <= i < |rows| => PointOf(rows[i])))))
  }

  /** The document-building loop: a `trkpt` is appended to the single
      `trkseg` for each row the cursor yields. */
  method BuildTrack(rows: seq<PositionRow>) returns (gpx: Gpx)
    ensures gpx.xmlns == GpxNamespace
    ensures |PointsOf(gpx)| == |rows|
    ensures forall i :: 0 <= i < |rows| ==> PointsOf(gpx)[i] == PointOf(rows[i])
    ensures gpx == TrackOf(rows)
  {
    var points: seq<Trkpt> := [];
    for i := 0 to |rows|
      invariant |points| == i
      invariant forall k :: 0 <= k < i ==> points[k] == PointOf(rows[k])
    {
      points := points + [PointOf(rows[i])];
    }
    gpx := Gpx(GpxNamespace, Trk(Trkseg(points)));
  }

  /** The whole handler: normalise the identifier, resolve the window, run
      the query, and render whatever rows the cursor delivers. */
  function Position(selfId: string, args: QueryArgs, now: int, store: seq<PositionRow>, delivery: Delivery): (g: Gpx)
    ensures g.xmlns == GpxNamespace
    ensures |PointsOf(g)| <= |Matching(Normalize(selfId), ResolveWindow(args), now, store)|
    ensures delivery.Complete? ==> |PointsOf(g)| == |Matching(Normalize(selfId), ResolveWindow(args), now, store)|
    ensures forall i, j :: 0 <= i < j < |PointsOf(g)| ==> PointsOf(g)[i].time <= PointsOf(g)[j].time
  {
    var id, w := Normalize(selfId), ResolveWindow(args);
    SelectCount(id, w, now, store);
    var sel := Select(id, w, now, store);
    var seen := Delivered(sel, delivery);
    SortedPrefix(seen, sel);
    TrackAscending(seen);
    TrackOf(seen)
  }

  /** A prefix of an ascending sequence ascends. */
  lemma SortedPrefix(prefix: seq<PositionRow>, rows: seq<PositionRow>)
    requires prefix <= rows && SortedByTime(rows)
    ensures SortedByTime(prefix)
  {
    assert forall i :: 0 <= i < |prefix| ==> prefix[i] == rows[i];
  }

  /** The points of the document for ascending rows ascend in time. */
  lemma TrackAscending(rows: seq<PositionRow>)
    requires SortedByTime(rows)
    ensures var points := PointsOf(TrackOf(rows));
      forall i, j :: 0 <= i < j < |points| ==> points[i].time <= points[j].time
  {
    var points := PointsOf(TrackOf(rows));
    assert forall i :: 0 <= i < |points| ==> points[i].time == rows[i].timestamp;
  }

  /** The points of the document are in ascending time order, however
      many rows the cursor delivered. */
  lemma PositionAscending(selfId: string, args: QueryArgs, now: int, store: seq<PositionRow>, delivery: Delivery)
    ensures var points := PointsOf(Position(selfId, args, now, store, delivery));
      forall i, j :: 0 <= i < j < |points| ==> points[i].time <= points[j].time
  {
    var sel := Select(Normalize(selfId), ResolveWindow(args), now, store);
    var seen := Delivered(sel, delivery);
    var points := PointsOf(TrackOf(seen));
    forall i, j | 0 <= i < j < |points|
      ensures points[i].time <= points[j].time
    {
      assert points[i].time == sel[i].timestamp && points[j].time == sel[j].timestamp;
    }
  }

  /** With a complete cursor the document holds exactly one point per
      stored row of the normalised vessel inside the window, and nothing
      else. */
  lemma PositionExact(selfId: string, args: QueryArgs, now: int, store: seq<PositionRow>)
    ensures
      var id := Normalize(selfId);
      var w := ResolveWindow(args);
      var points := PointsOf(Position(selfId, args, now, store, Complete));
      && |points| == |Matching(id, w, now, store)|
      && (forall row :: row in store && Matches(id, w, now, row) ==> PointOf(row) in points)
      && (forall p :: p in points ==> exists row :: row in store && Matches(id, w, now, row) && p == PointOf(row))
      && (forall row :: Matches(id, w, now, row) ==> multiset(points)[PointOf(row)] == multiset(store)[row])
  {
    var id := Normalize(selfId);
    var w := ResolveWindow(args);
    var sel := Select(id, w, now, store);
    var points := PointsOf(TrackOf(sel));
    assert Position(selfId, args, now, store, Complete) == TrackOf(sel);
    SelectCount(id, w, now, store);
    forall row | row in store && Matches(id, w, now, row)
      ensures PointOf(row) in points
    {
      var k := SelectComplete(id, w, now, store, row);
      assert points[k] == PointOf(row);
    }
    forall p | p in points
      ensures exists row :: row in store && Matches(id, w, now, row) && p == PointOf(row)
    {
      var k :| 0 <= k < |points| && points[k] == p;
      SelectSound(id, w, now, store, k);
      assert p == PointOf(sel[k]);
    }
    forall k | 0 <= k < |sel|
      ensures sel[k].context == id
    {
      SelectSound(id, w, now, store, k);
    }
    forall row | Matches(id, w, now, row)
      ensures multiset(points)[PointOf(row)] == multiset(store)[row]
    {
      PointCount(id, sel, row);
    }
  }

  /** Rows of one vessel render to distinct points unless they are the same
      row, so a point occurs in the track as often as its row occurs. */
  lemma {:induction false} PointCount(id: string, rows: seq<PositionRow>, row: PositionRow)
    requires forall k :: 0 <= k < |rows| ==> rows[k].context == id
    requires row.context == id
    ensures multiset(PointsOf(TrackOf(rows)))[PointOf(row)] == multiset(rows)[row]
  {
    if |rows| > 0 {
      var tail := rows[1..];
      PointCount(id, tail, row);
      assert rows == [rows[0]] + tail;
      assert PointsOf(TrackOf(rows)) == [PointOf(rows[0])] + PointsOf(TrackOf(tail));
      assert PointOf(rows[0]) == PointOf(row) <==> rows[0] == row;
    }
  }

  /** The query returns as many rows as the `WHERE` clause keeps. */
  lemma SelectCount(id: string, w: Window, now: int, store: seq<PositionRow>)
    ensures |Select(id, w, now, store)| == |Matching(id, w, now, store)|
  {
    var sel := Select(id, w, now, store);
    var kept := Matching(id, w, now, store);
    assert multiset(sel) == multiset(kept);
    assert |sel| == |multiset(sel)| == |multiset(kept)| == |kept|;
  }

  /** Every stored row of the vessel inside the window is returned. */
  lemma SelectComplete(id: string, w: Window, now: int, store: seq<PositionRow>, row: PositionRow) returns (k: nat)
    requires row in store && Matches(id, w, now, row)
    ensures k < |Select(id, w, now, store)| && Select(id, w, now, store)[k] == row
  {
    var sel := Select(id, w, now, store);
    assert multiset(sel)[row] == multiset(store)[row] > 0;
    k :| 0 <= k < |sel| && sel[k] == row;
  }

  /** Every returned row is a stored row of the vessel inside the window. */
  lemma SelectSound(id: string, w: Window, now: int, store: seq<PositionRow>, k: nat)
    requires k < |Select(id, w, now, store)|
    ensures Select(id, w, now, store)[k] in store
    ensures Matches(id, w, now, Select(id, w, now, store)[k])
  {
    var sel := Select(id, w, now, store);
    assert sel[k] in multiset(sel);
  }

  /** An empty store, or a cursor that fails before its first row, yields a
      well-formed document with no points. */
  lemma PositionEmpty(selfId: string, args: QueryArgs, now: int, store: seq<PositionRow>, delivery: Delivery)
    requires store == [] || delivery == FailedAfter(0)
    ensures Position(selfId, args, now, store, delivery) == Gpx(GpxNamespace, Trk(Trkseg([])))
  {
    var sel := Select(Normalize(selfId), ResolveWindow(args), now, store);
    if store == [] {
      assert multiset(sel) == multiset{};
    }
  }

  /** A cursor failing part-way leaves a prefix of the full document's points. */
  lemma PositionPartialIsPrefix(selfId: string, args: QueryArgs, now: int, store: seq<PositionRow>, n: nat)
    ensures PointsOf(Position(selfId, args, now, store, FailedAfter(n)))
         <= PointsOf(Position(selfId, args, now, store, Complete))
    ensures var total := |PointsOf(Position(selfId, args, now, store, Complete))|;
      |PointsOf(Position(selfId, args, now, store, FailedAfter(n)))| == if n < total then n else total
  {
  }

  /** A bare identifier and its `vessels.` form give the same document. */
  lemma PositionIdentifierForms(selfId: string, args: QueryArgs, now: int, store: seq<PositionRow>, delivery: Delivery)
    ensures Position(selfId, args, now, store, delivery) == Position(VesselsPrefix + selfId, args, now, store, delivery)
       || StartsWith(selfId, VesselsPrefix)
    ensures Position(selfId, args, now, store, delivery) == Position(Normalize(selfId), args, now, store, delivery)
  {
    NormalizeIdempotent(selfId);
    NormalizeBareAndPrefixed(selfId);
  }

  /** A window whose end precedes its start (a negative duration, or
      `end` before `start`) selects no rows. */
  lemma ReversedWindowIsEmpty(selfId: string, args: QueryArgs, now: int, store: seq<PositionRow>, delivery: Delivery)
    requires ResolveWindow(args).Range? && ResolveWindow(args).end < ResolveWindow(args).start
    ensures PointsOf(Position(selfId, args, now, store, delivery)) == []
  {
  }

  /** The look-back has no upper bound: with no parameters, a row stamped
      `now` or later is kept and one stamped twenty minutes ago is not. */
  lemma LookbackScenario(selfId: string, now: int, later: int, recent: PositionRow, stale: PositionRow)
    requires later >= now
    requires recent.context == Normalize(selfId) && recent.timestamp == later
    requires stale.context == Normalize(selfId) && stale.timestamp == now - 20 * 60
    ensures PointsOf(Position(selfId, QueryArgs(None, None, None, None, None), now, [stale, recent], Complete))
         == [PointOf(recent)]
  {
    NoTimestampFallsBack(QueryArgs(None, None, None, None, None));
    var w := Lookback15;
    assert Matching(Normalize(selfId), w, now, [stale, recent]) == [recent] by {
      assert [stale, recent][1..] == [recent];
    }
  }

  /** Sorting is determined when timestamps are distinct: two ascending
      sequences holding the same rows are equal. */
  lemma {:induction false} SortedUnique(x: seq<PositionRow>, y: seq<PositionRow>)
    requires SortedByTime(x) && SortedByTime(y)
    requires multiset(x) == multiset(y)
    requires forall i, j :: 0 <= i < j < |x| ==> x[i].timestamp != x[j].timestamp
    ensures x == y
  {
    assert |x| == |multiset(x)| == |multiset(y)| == |y|;
    if |x| > 0 {
      SameHead(x, y);
      MultisetTail(x);
      MultisetTail(y);
      assert multiset(x[1..]) == multiset(y[1..]);
      TailSorted(x);
      TailSorted(y);
      SortedUnique(x[1..], y[1..]);
      assert x == [x[0]] + x[1..];
      assert y == [y[0]] + y[1..];
    }
  }

  /** Two ascending sequences holding the same rows, with distinct
      timestamps, start with the same row. */
  lemma SameHead(x: seq<PositionRow>, y: seq<PositionRow>)
    requires |x| > 0 && |y| > 0
    requires SortedByTime(x) && SortedByTime(y)
    requires multiset(x) == multiset(y)
    requires forall i, j :: 0 <= i < j < |x| ==> x[i].timestamp != x[j].timestamp
    ensures x[0] == y[0]
  {
    var k := IndexOf(x, y[0]);
    var m := IndexOf(y, x[0]);
    assert x[0].timestamp <= x[k].timestamp;
    assert y[0].timestamp <= y[m].timestamp;
    assert k == 0;
  }

  /** Dropping the head keeps a sequence ascending, and keeps distinct
      timestamps distinct. */
  lemma TailSorted(s: seq<PositionRow>)
    requires |s| > 0 && SortedByTime(s)
    ensures SortedByTime(s[1..])
    ensures (forall i, j :: 0 <= i < j < |s| ==> s[i].timestamp != s[j].timestamp) ==>
      forall i, j :: 0 <= i < j < |s| - 1 ==> s[1..][i].timestamp != s[1..][j].timestamp
  {
  }

  /** A position at which an element of the sequence occurs. */
  lemma IndexOf(s: seq<PositionRow>, row: PositionRow) returns (k: nat)
    requires row in multiset(s)
    ensures k < |s| && s[k] == row
  {
    k :| 0 <= k < |s| && s[k] == row;
  }

  lemma MultisetTail(s: seq<PositionRow>)
    requires |s| > 0
    ensures multiset(s[1..]) == multiset(s) - multiset{s[0]}
  {
    assert s == [s[0]] + s[1..];
  }

  /** One hour between `start` and `end`, three rows inside (two of them on
      the bounds) and two just outside, stored in any order: the document
      holds exactly the three, ascending. */
  lemma RangeScenario(selfId: string, now: int, st: string, en: string, a: int, store: seq<PositionRow>,
                      r1: PositionRow, r2: PositionRow, r3: PositionRow, r4: PositionRow, r5: PositionRow)
    requires Timestamp.ParseTimestamp(st) == Some(a) && Timestamp.ParseTimestamp(en) == Some(a + 3600)
    requires r1.context == r2.context == r3.context == r4.context == r5.context == Normalize(selfId)
    requires r1.timestamp == a + 1800 && r2.timestamp == a - 60 && r3.timestamp == a + 3600
    requires r4.timestamp == a && r5.timestamp == a + 3601
    requires multiset(store) == multiset{r1, r3, r4} + multiset{r2, r5}
    ensures PointsOf(Position(selfId, QueryArgs(Some(st), Some(en), None, None, None), now, store, Complete))
         == [PointOf(r4), PointOf(r1), PointOf(r3)]
  {
    var args := QueryArgs(Some(st), Some(en), None, None, None);
    BothGivenIsExact(args, a, a + 3600);
    var id, w := Normalize(selfId), Range(a, a + 3600);
    assert Matches(id, w, now, r1) && !Matches(id, w, now, r2) && Matches(id, w, now, r3);
    assert Matches(id, w, now, r4) && !Matches(id, w, now, r5);
    SelectScenario(id, w, now, store, r1, r2, r3, r4, r5);
    PositionOfSelection(selfId, now, args, w, store, [r4, r1, r3]);
    ThreePoints(r4, r1, r3);
  }

  lemma SelectScenario(id: string, w: Window, now: int, store: seq<PositionRow>,
                       r1: PositionRow, r2: PositionRow, r3: PositionRow, r4: PositionRow, r5: PositionRow)
    requires multiset(store) == multiset{r1, r3, r4} + multiset{r2, r5}
    requires Matches(id, w, now, r1) && !Matches(id, w, now, r2) && Matches(id, w, now, r3)
    requires Matches(id, w, now, r4) && !Matches(id, w, now, r5)
    requires r4.timestamp < r1.timestamp < r3.timestamp
    ensures Select(id, w, now, store) == [r4, r1, r3]
  {
    var sel := Select(id, w, now, store);
    ScenarioSelection(id, w, now, store, sel, r1, r2, r3, r4, r5);
    ScenarioOrder(sel, r1, r3, r4);
  }

  lemma ScenarioOrder(sel: seq<PositionRow>, r1: PositionRow, r3: PositionRow, r4: PositionRow)
    requires SortedByTime(sel) && multiset(sel) == multiset{r1, r3, r4}
    requires r4.timestamp < r1.timestamp < r3.timestamp
    ensures sel == [r4, r1, r3]
  {
    var expected := [r4, r1, r3];
    assert multiset(expected) == multiset{r1, r3, r4};
    assert SortedByTime(expected);
    SortedUnique(expected, sel);
  }

  lemma ScenarioSelection(id: string, w: Window, now: int, store: seq<PositionRow>, sel: seq<PositionRow>,
                          r1: PositionRow, r2: PositionRow, r3: PositionRow, r4: PositionRow, r5: PositionRow)
    requires multiset(store) == multiset{r1, r3, r4} + multiset{r2, r5}
    requires Matches(id, w, now, r1) && !Matches(id, w, now, r2) && Matches(id, w, now, r3)
    requires Matches(id, w, now, r4) && !Matches(id, w, now, r5)
    requires forall row :: multiset(sel)[row] == if Matches(id, w, now, row) then multiset(store)[row] else 0
    ensures multiset(sel) == multiset{r1, r3, r4}
  {
    var kept, dropped := multiset{r1, r3, r4}, multiset{r2, r5};
    forall row
      ensures multiset(sel)[row] == kept[row]
    {
      ScenarioRowSplit(id, w, now, r1, r2, r3, r4, r5, row);
      CountSplit(Matches(id, w, now, row), multiset(sel)[row], multiset(store), kept, dropped, row);
    }
  }

  /** A row's count after filtering, when the store splits into the rows
      the filter keeps and the rows it drops. */
  lemma CountSplit(matches: bool, count: nat, all: multiset<PositionRow>,
                   kept: multiset<PositionRow>, dropped: multiset<PositionRow>, row: PositionRow)
    requires all == kept + dropped
    requires count == if matches then all[row] else 0
    requires matches ==> dropped[row] == 0
    requires !matches ==> kept[row] == 0
    ensures count == kept[row]
  {
  }

  lemma ScenarioRowSplit(id: string, w: Window, now: int,
                         r1: PositionRow, r2: PositionRow, r3: PositionRow, r4: PositionRow, r5: PositionRow, row: PositionRow)
    requires Matches(id, w, now, r1) && !Matches(id, w, now, r2) && Matches(id, w, now, r3)
    requires Matches(id, w, now, r4) && !Matches(id, w, now, r5)
    ensures Matches(id, w, now, row) ==> multiset{r2, r5}[row] == 0
    ensures !Matches(id, w, now, row) ==> multiset{r1, r3, r4}[row] == 0
  {
  }

  lemma PositionOfSelection(selfId: string, now: int, args: QueryArgs, w: Window, store: seq<PositionRow>, sel: seq<PositionRow>)
    requires ResolveWindow(args) == w
    requires Select(Normalize(selfId), w, now, store) == sel
    ensures Position(selfId, args, now, store, Complete) == TrackOf(sel)
  {
  }

  lemma ThreePoints(x: PositionRow, y: PositionRow, z: PositionRow)
    ensures PointsOf(TrackOf([x, y, z])) == [PointOf(x), PointOf(y), PointOf(z)]
  {
    var points := PointsOf(TrackOf([x, y, z]));
    assert |points| == 3 && points[0] == PointOf(x) && points[1] == PointOf(y) && points[2] == PointOf(z);
  }
}
