/**
 * Identifier extraction: `findBookId` (main.js:75-79) and the csv-parse
 * `data` handler's choice of fields (main.js:120-128).
 */
module BookIds {
  import opened Wrappers

  /** Number of occurrences of `c` in `s`. */
  function Count(s: string, c: char): nat {
    if s == [] then 0 else (if s[0] == c then 1 else 0) + Count(s[1..], c)
  }

  /**
   * JavaScript's `s.split(sep)` for a one-character separator: always at
   * least one segment (the empty string splits into `[""]`), one more
   * segment than there are separators, and no segment holds the separator.
   */
  function Split(s: string, sep: char): (r: seq<string>)
    ensures |r| == Count(s, sep) + 1
    ensures forall k :: 0 <= k < |r| ==> sep !in r[k]
  {
    if s == [] then [""]
    else
      var rest := Split(s[1..], sep);
      if s[0] == sep then [""] + rest
      else [[s[0]] + rest[0]] + rest[1..]
  }

  /** `parts.join(sep)`. */
  function Join(parts: seq<string>, sep: char): string {
    if |parts| <= 1 then (if parts == [] then "" else parts[0])
    else parts[0] + [sep] + Join(parts[1..], sep)
  }

  /** Joining the segments gives back the string that was split. */
  lemma {:induction false} JoinSplit(s: string, sep: char)
    ensures Join(Split(s, sep), sep) == s
  {
    if s != [] {
      JoinSplit(s[1..], sep);
      var rest := Split(s[1..], sep);
      if s[0] == sep {
        assert ([""] + rest)[1..] == rest;
      } else {
        var r := [[s[0]] + rest[0]] + rest[1..];
        if |rest| > 1 {
          assert r[1..] == rest[1..];
          assert Join(rest, sep) == rest[0] + [sep] + Join(rest[1..], sep);
        }
      }
    }
  }

  /** Splitting a join of separator-free parts gives back the parts. */
  lemma {:induction false} SplitJoin(parts: seq<string>, sep: char)
    requires |parts| >= 1
    requires forall k :: 0 <= k < |parts| ==> sep !in parts[k]
    ensures Split(Join(parts, sep), sep) == parts
    decreases |parts|, |parts[0]|
  {
    var p0 := parts[0];
    if p0 == [] {
      if |parts| > 1 {
        var s := Join(parts, sep);
        assert s == [sep] + Join(parts[1..], sep);
        assert s[1..] == Join(parts[1..], sep);
        SplitJoin(parts[1..], sep);
        assert [""] + parts[1..] == parts;
      }
    } else {
      var tail := [p0[1..]] + parts[1..];
      assert tail[1..] == parts[1..];
      SplitJoin(tail, sep);
      var s := Join(parts, sep);
      assert s == [p0[0]] + Join(tail, sep) by {
        if |parts| > 1 {
          assert Join(tail, sep) == p0[1..] + [sep] + Join(parts[1..], sep);
        }
      }
      assert s[1..] == Join(tail, sep);
      assert p0[0] != sep by { assert p0[0] in parts[0]; }
      assert [p0[0]] + p0[1..] == p0;
      assert [[p0[0]] + p0[1..]] + parts[1..] == parts;
    }
  }

  /**
   * `findBookId(bookPath)`: segment 5 of the path split on '/', or
   * `undefined` (None) when the path has fewer than six segments.
   */
  function FindBookId(path: string): (r: Option<string>)
    ensures r.Some? <==> Count(path, '/') >= 5
    ensures r.Some? ==> '/' !in r.value
  {
    var segments := Split(path, '/');
    if |segments| > 5 then Some(segments[5]) else None
  }

  /** The id of a path built from '/'-free segments is its sixth segment. */
  lemma FindBookIdOfJoin(parts: seq<string>)
    requires |parts| >= 6
    requires forall k :: 0 <= k < |parts| ==> '/' !in parts[k]
    ensures FindBookId(Join(parts, '/')) == Some(parts[5])
  {
    SplitJoin(parts, '/');
  }

  /** One record of the input file: its fields, as csv-parse splits them. */
  type Row = seq<string>

  /** `row[k]?.length > 0`: field k exists and is not empty. */
  predicate HasPath(row: Row, k: nat) {
    k < |row| && |row[k]| > 0
  }

  /**
   * What the `data` handler pushes for one row: the id of field 1, then the
   * id of field 6, each only when that field is present and non-empty.
   * An id that `findBookId` could not find is pushed as `undefined`.
   */
  function RowIds(row: Row): (ids: seq<Option<string>>)
    ensures |ids| == (if HasPath(row, 1) then 1 else 0) + (if HasPath(row, 6) then 1 else 0)
    ensures HasPath(row, 1) ==> ids[0] == FindBookId(row[1])
    ensures HasPath(row, 6) ==> ids[|ids| - 1] == FindBookId(row[6])
  {
    (if HasPath(row, 1) then [FindBookId(row[1])] else []) +
    (if HasPath(row, 6) then [FindBookId(row[6])] else [])
  }

  /** When both fields hold paths of six or more segments, the row yields exactly their two ids. */
  lemma RowWithTwoPaths(row: Row)
    requires |row| > 6
    requires |Split(row[1], '/')| >= 6 && |Split(row[6], '/')| >= 6
    ensures RowIds(row) == [Some(Split(row[1], '/')[5]), Some(Split(row[6], '/')[5])]
  {
    JoinSplit(row[1], '/');
    JoinSplit(row[6], '/');
  }

  /** The queue built from a sequence of rows: their ids, row after row, duplicates kept. */
  function QueueOf(rows: seq<Row>): seq<Option<string>> {
    if rows == [] then [] else QueueOf(rows[..|rows| - 1]) + RowIds(rows[|rows| - 1])
  }

  /** Reading more rows only extends the queue. */
  lemma {:induction false} QueueOfAppend(a: seq<Row>, b: seq<Row>)
    ensures QueueOf(a + b) == QueueOf(a) + QueueOf(b)
    decreases |b|
  {
    if b != [] {
      var b' := b[..|b| - 1];
      assert (a + b)[..|a + b| - 1] == a + b';
      QueueOfAppend(a, b');
    } else {
      assert a + b == a;
    }
  }
}
