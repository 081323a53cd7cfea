// Grouping the recognised text boxes of a screenshot into rows: boxes are
// taken top to bottom, each joins the first row whose running centre line
// is within the tolerance, and every row is finally ordered left to right.

module OcrRows {
  import opened Base

  /** One recognised text box: its text, the recogniser's confidence and its centre. */
  datatype Detection = Detection(text: string, confidence: real, centerX: real, centerY: real)

  datatype Axis = X | Y

  function Key(d: Detection, axis: Axis): real
  {
    if axis == X then d.centerX else d.centerY
  }

  predicate SortedBy(s: seq<Detection>, axis: Axis)
  {
    forall i, j :: 0 <= i < j < |s| ==> Key(s[i], axis) <= Key(s[j], axis)
  }

  /** Inserts `d` after every element whose key is not greater than its own. */
  function InsertBy(d: Detection, s: seq<Detection>, axis: Axis): (r: seq<Detection>)
    ensures multiset(r) == multiset(s) + multiset{d} && |r| == |s| + 1
    ensures r[0] == d || (s != [] && r[0] == s[0])
  {
    if s == [] then [d]
    else if Key(d, axis) < Key(s[0], axis) then [d] + s
    else
      assert s == [s[0]] + s[1..];
      [s[0]] + InsertBy(d, s[1..], axis)
  }

  /** Inserting into a sorted sequence keeps it sorted. */
  lemma {:induction false} InsertBySorted(d: Detection, s: seq<Detection>, axis: Axis)
    requires SortedBy(s, axis)
    ensures SortedBy(InsertBy(d, s, axis), axis)
  {
    if s != [] && Key(d, axis) >= Key(s[0], axis) {
      var rest := InsertBy(d, s[1..], axis);
      InsertBySorted(d, s[1..], axis);
      assert Key(s[0], axis) <= Key(rest[0], axis);
    }
  }

  /** Python's stable `sorted(..., key=...)`: later elements go after earlier ones of equal key. */
  function SortBy(s: seq<Detection>, axis: Axis): (r: seq<Detection>)
    ensures |r| == |s|
  {
    if s == [] then []
    else
      InsertBy(s[|s| - 1], SortBy(s[..|s| - 1], axis), axis)
  }

  /** The sort orders by the key and keeps every element. */
  lemma {:induction false} SortByFacts(s: seq<Detection>, axis: Axis)
    ensures SortedBy(SortBy(s, axis), axis) && multiset(SortBy(s, axis)) == multiset(s)
    decreases |s|
  {
    if s != [] {
      SplitLast(s);
      SortByFacts(s[..|s| - 1], axis);
      InsertBySorted(s[|s| - 1], SortBy(s[..|s| - 1], axis), axis);
    }
  }

  lemma SplitLast<T>(s: seq<T>)
    requires s != []
    ensures s == s[..|s| - 1] + [s[|s| - 1]]
    ensures multiset(s) == multiset(s[..|s| - 1]) + multiset{s[|s| - 1]}
  {
  }

  function Abs(x: real): real { if x < 0.0 then -x else x }

  function SumY(row: seq<Detection>): real
  {
    if row == [] then 0.0 else SumY(row[..|row| - 1]) + row[|row| - 1].centerY
  }

  /** The centre line of a row: the mean `center_y` of its boxes. */
  function Mean(row: seq<Detection>): real
    requires row != []
  {
    SumY(row) / (|row| as real)
  }

  lemma MeanSingle(d: Detection)
    ensures Mean([d]) == d.centerY
  {
    assert [d][..0] == [];
    assert SumY([d]) == d.centerY;
  }

  /** The first row at or after `from` whose centre is within `tolerance` of `y`. */
  function NearRowFrom(centers: seq<real>, y: real, tolerance: real, from: nat): (r: Option<nat>)
    requires from <= |centers|
    ensures r.Some? ==> from <= r.value < |centers| && Abs(centers[r.value] - y) <= tolerance
    ensures r.Some? ==> forall i :: from <= i < r.value ==> Abs(centers[i] - y) > tolerance
    ensures r.None? ==> forall i :: from <= i < |centers| ==> Abs(centers[i] - y) > tolerance
    decreases |centers| - from
  {
    if from == |centers| then None
    else if Abs(centers[from] - y) <= tolerance then Some(from)
    else NearRowFrom(centers, y, tolerance, from + 1)
  }

  /** The rows and their centre lines while grouping. */
  datatype Grouping = Grouping(rows: seq<seq<Detection>>, centers: seq<real>)

  ghost predicate WellFormed(g: Grouping)
  {
    |g.rows| == |g.centers| && forall i :: 0 <= i < |g.rows| ==> g.rows[i] != []
  }

  /** One box placed: it joins the first near row and moves that row's centre, or opens a row. */
  function Place(g: Grouping, d: Detection, tolerance: real): (r: Grouping)
    requires |g.rows| == |g.centers|
    ensures |r.rows| == |r.centers|
  {
    match NearRowFrom(g.centers, d.centerY, tolerance, 0)
    case Some(i) =>
      var row := g.rows[i] + [d];
      Grouping(g.rows[i := row], g.centers[i := Mean(row)])
    case None => Grouping(g.rows + [[d]], g.centers + [d.centerY])
  }

  /** The grouping of boxes already in top-to-bottom order. */
  function Grouped(ds: seq<Detection>, tolerance: real): (r: Grouping)
    ensures |r.rows| == |r.centers|
  {
    if ds == [] then Grouping([], [])
    else Place(Grouped(ds[..|ds| - 1], tolerance), ds[|ds| - 1], tolerance)
  }

  /** Every row sorted left to right. */
  function SortRows(rows: seq<seq<Detection>>): (r: seq<seq<Detection>>)
    ensures |r| == |rows| && forall i :: 0 <= i < |rows| ==> r[i] == SortBy(rows[i], X)
  {
    seq(|rows|, i requires 0 <= i < |rows| => SortBy(rows[i], X))
  }

  /** The rows `_group_by_rows` returns. */
  function GroupRows(detections: seq<Detection>, tolerance: real): seq<seq<Detection>>
  {
    SortRows(Grouped(SortBy(detections, Y), tolerance).rows)
  }

  function Flatten(rows: seq<seq<Detection>>): seq<Detection>
  {
    if rows == [] then [] else Flatten(rows[..|rows| - 1]) + rows[|rows| - 1]
  }

  /**
   * `_group_by_rows`: every box lands in exactly one row, no row is empty,
   * and each row is ordered by `center_x`.
   */
  method GroupByRows(detections: seq<Detection>, tolerance: real) returns (rows: seq<seq<Detection>>)
    ensures rows == GroupRows(detections, tolerance)
    ensures multiset(Flatten(rows)) == multiset(detections)
    ensures forall i :: 0 <= i < |rows| ==> rows[i] != [] && SortedBy(rows[i], X)
    ensures |rows| <= |detections|
  {
    var sorted := SortBy(detections, Y);
    var g := Grouping([], []);
    var k := 0;
    while k < |sorted|
      invariant 0 <= k <= |sorted|
      invariant g == Grouped(sorted[..k], tolerance)
    {
      g := PlaceDetection(g, sorted[k], tolerance);
      assert sorted[..k + 1][..k] == sorted[..k];
      k := k + 1;
    }
    assert sorted[..k] == sorted;
    rows := SortEachRow(g.rows);
    GroupRowsFacts(detections, tolerance);
  }

  /** The closing loop: every row sorted by `center_x`. */
  method SortEachRow(grouped: seq<seq<Detection>>) returns (rows: seq<seq<Detection>>)
    ensures rows == SortRows(grouped)
  {
    rows := grouped;
    var i := 0;
    while i < |rows|
      invariant 0 <= i <= |rows| && |rows| == |grouped|
      invariant forall j :: 0 <= j < i ==> rows[j] == SortBy(grouped[j], X)
      invariant forall j :: i <= j < |rows| ==> rows[j] == grouped[j]
    {
      rows := rows[i := SortBy(rows[i], X)];
      i := i + 1;
    }
  }

  /** The inner loop: the first row within the tolerance takes the box. */
  method PlaceDetection(g: Grouping, detection: Detection, tolerance: real) returns (r: Grouping)
    requires |g.rows| == |g.centers|
    ensures r == Place(g, detection, tolerance)
  {
    var rows := g.rows;
    var centers := g.centers;
    var placed := false;
    var idx := 0;
    while idx < |centers|
      invariant 0 <= idx <= |centers|
      invariant NearRowFrom(g.centers, detection.centerY, tolerance, 0)
        == NearRowFrom(g.centers, detection.centerY, tolerance, idx)
      invariant rows == g.rows && centers == g.centers && !placed
    {
      if Abs(centers[idx] - detection.centerY) <= tolerance {
        rows := rows[idx := rows[idx] + [detection]];
        centers := centers[idx := Mean(rows[idx])];
        placed := true;
        break;
      }
      idx := idx + 1;
    }
    if !placed {
      rows := rows + [[detection]];
      centers := centers + [detection.centerY];
    }
    r := Grouping(rows, centers);
  }

  // ---------------------------------------------------------------------
  // Every box in exactly one row

  lemma {:induction false} FlattenAppend(rows: seq<seq<Detection>>, row: seq<Detection>)
    ensures Flatten(rows + [row]) == Flatten(rows) + row
  {
    assert (rows + [row])[..|rows|] == rows;
  }

  lemma {:induction false} FlattenGrow(rows: seq<seq<Detection>>, i: nat, d: Detection)
    requires i < |rows|
    ensures multiset(Flatten(rows[i := rows[i] + [d]])) == multiset(Flatten(rows)) + multiset{d}
  {
    var n := |rows|;
    var grown := rows[i := rows[i] + [d]];
    assert grown[..n - 1] == if i == n - 1 then rows[..n - 1] else rows[..n - 1][i := rows[i] + [d]];
    if i < n - 1 {
      FlattenGrow(rows[..n - 1], i, d);
    }
  }

  /** The grouping keeps every box once and opens no empty row. */
  lemma {:induction false} GroupedPartition(ds: seq<Detection>, tolerance: real)
    ensures WellFormed(Grouped(ds, tolerance))
    ensures multiset(Flatten(Grouped(ds, tolerance).rows)) == multiset(ds)
    ensures |Grouped(ds, tolerance).rows| <= |ds|
  {
    if ds != [] {
      var before := ds[..|ds| - 1];
      var d := ds[|ds| - 1];
      assert ds == before + [d];
      GroupedPartition(before, tolerance);
      var g := Grouped(before, tolerance);
      match NearRowFrom(g.centers, d.centerY, tolerance, 0)
      case Some(i) =>
        FlattenGrow(g.rows, i, d);
      case None =>
        FlattenAppend(g.rows, [d]);
    }
  }

  /** Each row's centre line is the mean height of the boxes in it. */
  lemma {:induction false} GroupedCenters(ds: seq<Detection>, tolerance: real)
    ensures WellFormed(Grouped(ds, tolerance))
    ensures forall i :: 0 <= i < |Grouped(ds, tolerance).rows| ==>
      Grouped(ds, tolerance).centers[i] == Mean(Grouped(ds, tolerance).rows[i])
  {
    GroupedPartition(ds, tolerance);
    if ds != [] {
      var before := ds[..|ds| - 1];
      var d := ds[|ds| - 1];
      GroupedCenters(before, tolerance);
      var g := Grouped(before, tolerance);
      match NearRowFrom(g.centers, d.centerY, tolerance, 0)
      case Some(i) =>
      case None =>
        MeanSingle(d);
    }
  }

  /** Rows that hold the same boxes one by one flatten to the same boxes. */
  lemma {:induction false} FlattenRowwise(a: seq<seq<Detection>>, b: seq<seq<Detection>>)
    requires |a| == |b| && forall i :: 0 <= i < |a| ==> multiset(a[i]) == multiset(b[i])
    ensures multiset(Flatten(a)) == multiset(Flatten(b))
  {
    if a != [] {
      var n := |a|;
      FlattenRowwise(a[..n - 1], b[..n - 1]);
    }
  }

  lemma SortRowsFlatten(rows: seq<seq<Detection>>)
    ensures multiset(Flatten(SortRows(rows))) == multiset(Flatten(rows))
  {
    forall i | 0 <= i < |rows| ensures multiset(SortRows(rows)[i]) == multiset(rows[i]) {
      SortByFacts(rows[i], X);
    }
    FlattenRowwise(SortRows(rows), rows);
  }

  /** `_group_by_rows` places every box in exactly one row, and each row is ordered left to right. */
  lemma GroupRowsFacts(detections: seq<Detection>, tolerance: real)
    ensures multiset(Flatten(GroupRows(detections, tolerance))) == multiset(detections)
    ensures forall i :: 0 <= i < |GroupRows(detections, tolerance)| ==>
      GroupRows(detections, tolerance)[i] != [] && SortedBy(GroupRows(detections, tolerance)[i], X)
    ensures |GroupRows(detections, tolerance)| <= |detections|
  {
    var sorted := SortBy(detections, Y);
    SortByFacts(detections, Y);
    GroupedPartition(sorted, tolerance);
    var grouped := Grouped(sorted, tolerance).rows;
    SortRowsFlatten(grouped);
    var rows := GroupRows(detections, tolerance);
    forall i | 0 <= i < |rows| ensures rows[i] != [] && SortedBy(rows[i], X) {
      assert |rows[i]| == |grouped[i]|;
      SortByFacts(grouped[i], X);
    }
  }
}
