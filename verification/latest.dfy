/** The projection of `GET /lastPosition`: each row the store returns
    (context, timestamp, context value, position) becomes a record whose `id`
    is the part of the context after its last `:` (`split(":")[-1]`). */
module LatestPosition {
  import opened Store
  import Identity

  /** Python's `s.split(sep)` for a one-character separator: the pieces
      between separators, empty ones included; never an empty list. */
  function Split(s: string, sep: char): (parts: seq<string>)
    ensures |parts| >= 1
    ensures forall i :: 0 <= i < |parts| ==> sep !in parts[i]
  {
    if |s| == 0 then [""]
    else
      var rest := Split(s[1..], sep);
      if s[0] == sep then [""] + rest
      else [[s[0]] + rest[0]] + rest[1..]
  }

  /** `sep.join(parts)`. */
  function Join(parts: seq<string>, sep: char): string {
    if |parts| == 0 then ""
    else if |parts| == 1 then parts[0]
    else parts[0] + [sep] + Join(parts[1..], sep)
  }

  /** Splitting and joining again gives the original string back. */
  lemma {:induction false} JoinSplit(s: string, sep: char)
    ensures Join(Split(s, sep), sep) == s
  {
    if |s| > 0 {
      var rest := Split(s[1..], sep);
      JoinSplit(s[1..], sep);
      if s[0] == sep {
        assert ([""] + rest)[1..] == rest;
      } else {
        var parts := [[s[0]] + rest[0]] + rest[1..];
        if |rest| > 1 {
          assert parts[1..] == rest[1..];
          assert Join(rest, sep) == rest[0] + [sep] + Join(rest[1..], sep);
        }
        assert s == [s[0]] + s[1..];
      }
    }
  }

  /** Joining pieces free of the separator and splitting again gives the
      pieces back: the split is the only decomposition of its kind. */
  lemma {:induction false} SplitJoin(parts: seq<string>, sep: char)
    requires |parts| >= 1
    requires forall i :: 0 <= i < |parts| ==> sep !in parts[i]
    ensures Split(Join(parts, sep), sep) == parts
    decreases |parts|, |parts[0]|
  {
    var s := Join(parts, sep);
    if |parts[0]| == 0 {
      if |parts| == 1 {
      } else {
        assert s == [sep] + Join(parts[1..], sep);
        assert s[1..] == Join(parts[1..], sep);
        SplitJoin(parts[1..], sep);
        assert parts == [""] + parts[1..];
      }
    } else {
      var c := parts[0][0];
      var shorter := [parts[0][1..]] + parts[1..];
      assert shorter[1..] == parts[1..];
      assert forall i :: 0 <= i < |shorter| ==> sep !in shorter[i] by {
        forall i | 0 <= i < |shorter|
          ensures sep !in shorter[i]
        {
          if i == 0 {
            assert forall x :: x in parts[0][1..] ==> x in parts[0];
          }
        }
      }
      assert s == [c] + Join(shorter, sep) by {
        assert parts[0] == [c] + parts[0][1..];
      }
      assert s[1..] == Join(shorter, sep);
      SplitJoin(shorter, sep);
      assert c != sep by {
        assert c in parts[0];
      }
      assert parts[0] == [c] + parts[0][1..];
      assert parts == [parts[0]] + parts[1..];
    }
  }

  /** With at least two pieces, the string is everything up to the last
      separator, the separator, and the last piece. */
  lemma {:induction false} JoinLast(parts: seq<string>, sep: char)
    requires |parts| >= 2
    ensures Join(parts, sep) == Join(parts[..|parts| - 1], sep) + [sep] + parts[|parts| - 1]
    decreases |parts|
  {
    if |parts| > 2 {
      JoinLast(parts[1..], sep);
      assert parts[1..][..|parts| - 2] == parts[..|parts| - 1][1..];
    }
  }

  /** `context.split(":")[-1]`: the text after the last `:`, or the whole
      context when it has none. */
  function ContextId(context: string): (id: string)
    ensures ':' !in id
    ensures Identity.EndsWith(context, id)
    ensures |id| == |context| || context[|context| - |id| - 1] == ':'
    ensures ':' !in context ==> id == context
  {
    var parts := Split(context, ':');
    JoinSplit(context, ':');
    if |parts| >= 2 then
      JoinLast(parts, ':');
      parts[|parts| - 1]
    else
      parts[0]
  }

  /** A row of the latest-position query: context, timestamp, the context's
      value, and the stored position. */
  datatype ContextRow = ContextRow(context: string, timestamp: int, info: string, position: string)

  datatype LatestRecord = LatestRecord(id: string, timestamp: int, info: string, position: string)

  function Project(row: ContextRow): LatestRecord {
    LatestRecord(ContextId(row.context), row.timestamp, row.info, row.position)
  }

  /** The handler's result list: one record per delivered row, in row order;
      a failing store yields the records appended before the failure. */
  function LastPositions(rows: seq<ContextRow>, delivery: Delivery): (records: seq<LatestRecord>)
    ensures |records| <= |rows|
    ensures delivery.Complete? ==> |records| == |rows|
    ensures delivery == FailedAfter(0) ==> records == []
    ensures delivery.FailedAfter? ==> |records| == if delivery.count < |rows| then delivery.count else |rows|
    ensures forall i :: 0 <= i < |records| ==>
      && records[i].id == ContextId(rows[i].context)
      && records[i].timestamp == rows[i].timestamp
      && records[i].info == rows[i].info
      && records[i].position == rows[i].position
  {
    var seen := Delivered(rows, delivery);
    seq(|seen|, i requires 0 <= i < |seen| => Project(seen[i]))
  }
}
