/** Lines without their hyperlinks and images for the wire, and the hyperlinks put back with their identity. */
module Hyperlinks {
  import opened Wrappers

  /** A shared link object; cells hold references to it, and only the reference tells two equal links apart. */
  class Hyperlink<U> {
    const url: U

    constructor (url: U)
      ensures this.url == url
    {
      this.url := url;
    }
  }

  datatype Cell<T, U, I> = Cell(content: T, link: Option<Hyperlink<U>>, images: seq<I>)

  datatype Row<T, U, I> = Row(stableIdx: int, cells: seq<Cell<T, U, I>>)

  datatype Range = Range(start: nat, end: nat)

  function RangeUnion(r1: Range, r2: Range): Range {
    if r1.start == r1.end then r2
    else if r2.start == r2.end then r1
    else Range(if r1.start < r2.start then r1.start else r2.start, if r1.end > r2.end then r1.end else r2.end)
  }

  datatype CellCoordinates = CellCoordinates(lineIdx: nat, cols: Range)

  datatype LineHyperlink<U> = LineHyperlink(link: U, coords: seq<CellCoordinates>)

  datatype SerializedImageCell<I> = SerializedImageCell(lineIdx: int, cellIdx: nat, image: I)

  datatype SerializedLines<T, U, I> = SerializedLines(
    lines: seq<Row<T, U, I>>, hyperlinks: seq<LineHyperlink<U>>, images: seq<SerializedImageCell<I>>)

  // ---- streaks -----------------------------------------------------------------------------------

  predicate IsLinked<T, U, I>(cells: seq<Cell<T, U, I>>, x: int) {
    0 <= x < |cells| && cells[x].link.Some?
  }

  /** Two cells hold the same link object. */
  predicate SameLink<T, U, I>(cells: seq<Cell<T, U, I>>, x: int, y: int) {
    IsLinked(cells, x) && IsLinked(cells, y) && cells[x].link == cells[y].link
  }

  /** Neighbouring cells with one link object, as many as there are. */
  ghost predicate IsStreak<T, U, I>(cells: seq<Cell<T, U, I>>, cols: Range) {
    && cols.start < cols.end <= |cells|
    && (forall x :: cols.start <= x < cols.end ==> SameLink(cells, cols.start, x))
    && !SameLink(cells, cols.start - 1, cols.start)
    && !SameLink(cells, cols.start, cols.end)
  }

  ghost predicate IsStreakOf<T, U, I>(rows: seq<Row<T, U, I>>, h: LineHyperlink<U>) {
    && |h.coords| == 1 && h.coords[0].lineIdx < |rows|
    && var cells, cols := rows[h.coords[0].lineIdx].cells, h.coords[0].cols;
       IsStreak(cells, cols) && IsLinked(cells, cols.start) && h.link == cells[cols.start].link.value.url
  }

  predicate Covers<U>(h: LineHyperlink<U>, r: nat, x: int) {
    |h.coords| == 1 && h.coords[0].lineIdx == r && h.coords[0].cols.start <= x < h.coords[0].cols.end
  }

  predicate Precedes<U>(h: LineHyperlink<U>, i: LineHyperlink<U>) {
    && |h.coords| == 1 == |i.coords|
    && (h.coords[0].lineIdx < i.coords[0].lineIdx
        || (h.coords[0].lineIdx == i.coords[0].lineIdx && h.coords[0].cols.end <= i.coords[0].cols.start))
  }

  ghost predicate IsCovered<U>(hs: seq<LineHyperlink<U>>, r: nat, x: int) {
    exists k :: 0 <= k < |hs| && Covers(hs[k], r, x)
  }

  /** The streaks of the first `n` rows, in order, each once: they cover exactly the linked cells. */
  ghost predicate AreStreaksOf<T, U, I>(rows: seq<Row<T, U, I>>, hs: seq<LineHyperlink<U>>, n: nat) {
    && n <= |rows|
    && (forall k :: 0 <= k < |hs| ==> IsStreakOf(rows, hs[k]) && hs[k].coords[0].lineIdx < n)
    && (forall j, k :: 0 <= j < k < |hs| ==> Precedes(hs[j], hs[k]))
    && (forall r: nat, x :: r < n && IsLinked(rows[r].cells, x) ==> IsCovered(hs, r, x))
  }

  // ---- what is sent ------------------------------------------------------------------------------

  function Bare<T, U, I>(c: Cell<T, U, I>): Cell<T, U, I> {
    Cell(c.content, None, [])
  }

  function ImagesOf<I>(stableIdx: int, x: nat, images: seq<I>): (r: seq<SerializedImageCell<I>>)
    ensures |r| == |images| && forall k :: 0 <= k < |r| ==> r[k] == SerializedImageCell(stableIdx, x, images[k])
  {
    seq(|images|, k requires 0 <= k < |images| => SerializedImageCell(stableIdx, x, images[k]))
  }

  function ImagesBefore<T, U, I>(row: Row<T, U, I>, n: nat): seq<SerializedImageCell<I>>
    requires n <= |row.cells|
  {
    if n == 0 then [] else ImagesBefore(row, n - 1) + ImagesOf(row.stableIdx, n - 1, row.cells[n - 1].images)
  }

  /** All images, in row and cell order. */
  function AllImages<T, U, I>(rows: seq<Row<T, U, I>>): seq<SerializedImageCell<I>> {
    if rows == [] then []
    else AllImages(rows[..|rows| - 1]) + ImagesBefore(rows[|rows| - 1], |rows[|rows| - 1].cells|)
  }

  ghost predicate IsBareRow<T, U, I>(row: Row<T, U, I>, bare: Row<T, U, I>) {
    && bare.stableIdx == row.stableIdx && |bare.cells| == |row.cells|
    && forall x :: 0 <= x < |row.cells| ==> bare.cells[x] == Bare(row.cells[x])
  }

  ghost predicate IsSerialized<T, U, I>(rows: seq<Row<T, U, I>>, s: SerializedLines<T, U, I>) {
    && |s.lines| == |rows|
    && (forall r :: 0 <= r < |rows| ==> IsBareRow(rows[r], s.lines[r]))
    && AreStreaksOf(rows, s.hyperlinks, |rows|)
    && s.images == AllImages(rows)
  }

  // ---- one row -----------------------------------------------------------------------------------

  function Single<U>(link: U, lineIdx: nat, cols: Range): LineHyperlink<U> {
    LineHyperlink(link, [CellCoordinates(lineIdx, cols)])
  }

  ghost predicate IsRowStreak<T, U, I>(cells: seq<Cell<T, U, I>>, lineIdx: nat, h: LineHyperlink<U>) {
    && |h.coords| == 1 && h.coords[0].lineIdx == lineIdx
    && var cols := h.coords[0].cols;
       IsStreak(cells, cols) && IsLinked(cells, cols.start) && h.link == cells[cols.start].link.value.url
  }

  /** All streaks before cell `x`, none of which reaches past it. */
  ghost predicate RowStreaks<T, U, I>(cells: seq<Cell<T, U, I>>, lineIdx: nat, hs: seq<LineHyperlink<U>>, x: nat) {
    && (forall k :: 0 <= k < |hs| ==> IsRowStreak(cells, lineIdx, hs[k]) && hs[k].coords[0].cols.end <= x)
    && (forall j, k :: 0 <= j < k < |hs| ==> Precedes(hs[j], hs[k]))
    && (forall y :: 0 <= y < x && IsLinked(cells, y) ==> IsCovered(hs, lineIdx, y))
  }

  /** A streak that has reached cell `x`. */
  ghost predicate IsOpen<T, U, I>(cells: seq<Cell<T, U, I>>, current: Option<Hyperlink<U>>, range: Range, x: nat) {
    && range.start < range.end == x <= |cells|
    && (forall y :: range.start <= y < x ==> IsLinked(cells, y) && cells[y].link == current)
    && !SameLink(cells, range.start - 1, range.start)
  }

  /** Before cell `x`: the streaks pushed as `hs`, and perhaps an open one. */
  ghost predicate Scanned<T, U, I>(
    cells: seq<Cell<T, U, I>>, lineIdx: nat, hs: seq<LineHyperlink<U>>, current: Option<Hyperlink<U>>, range: Range,
    x: nat)
  {
    if current.Some? then RowStreaks(cells, lineIdx, hs, range.start) && IsOpen(cells, current, range, x)
    else RowStreaks(cells, lineIdx, hs, x) && !IsLinked(cells, x - 1)
  }

  /** The streaks once the open one, if any, is pushed. */
  function Pushed<U>(
    hs: seq<LineHyperlink<U>>, lineIdx: nat, current: Option<Hyperlink<U>>, range: Range): seq<LineHyperlink<U>> {
    if current.Some? then hs + [Single(current.value.url, lineIdx, range)] else hs
  }

  lemma CoveredOrNew<U>(hs: seq<LineHyperlink<U>>, h: LineHyperlink<U>, lineIdx: nat, y: int, start: nat)
    requires (y < start && IsCovered(hs, lineIdx, y)) || Covers(h, lineIdx, y)
    ensures IsCovered(hs + [h], lineIdx, y)
  {
    var hs' := hs + [h];
    if Covers(h, lineIdx, y) {
      assert Covers(hs'[|hs|], lineIdx, y);
    } else {
      var k :| 0 <= k < |hs| && Covers(hs[k], lineIdx, y);
      assert Covers(hs'[k], lineIdx, y);
    }
  }

  /** No streak goes on at cell `x`. */
  lemma CloseStreak<T, U, I>(
    cells: seq<Cell<T, U, I>>, lineIdx: nat, hs: seq<LineHyperlink<U>>, current: Option<Hyperlink<U>>, range: Range,
    x: nat)
    requires Scanned(cells, lineIdx, hs, current, range, x)
    requires current.Some? ==> !SameLink(cells, x - 1, x)
    ensures RowStreaks(cells, lineIdx, Pushed(hs, lineIdx, current, range), x)
  {
    if current.Some? {
      var h := Single(current.value.url, lineIdx, range);
      var hs' := hs + [h];
      assert IsRowStreak(cells, lineIdx, h);
      hide IsRowStreak;
      forall k | 0 <= k < |hs|
        ensures hs[k].coords[0].cols.end <= range.start && Precedes(hs[k], h)
      {
      }
      forall y | 0 <= y < x && IsLinked(cells, y)
        ensures IsCovered(hs', lineIdx, y)
      {
        CoveredOrNew(hs, h, lineIdx, y, range.start);
      }
    }
  }

  method ExtractImages<I>(stableIdx: int, x: nat, found: seq<I>, before: seq<SerializedImageCell<I>>)
    returns (images: seq<SerializedImageCell<I>>)
    ensures images == before + ImagesOf(stableIdx, x, found)
  {
    images := before;
    for k := 0 to |found|
      invariant images == before + ImagesOf(stableIdx, x, found[..k])
    {
      images := images + [SerializedImageCell(stableIdx, x, found[k])];
      assert found[..k + 1] == found[..k] + [found[k]];
    }
    assert found[..|found|] == found;
  }

  lemma ImagesStart<T, U, I>(row: Row<T, U, I>)
    ensures ImagesBefore(row, 0) == []
  {
  }

  lemma ImagesNext<T, U, I>(row: Row<T, U, I>, x: nat, before: seq<SerializedImageCell<I>>)
    requires x < |row.cells|
    ensures before + ImagesBefore(row, x) + ImagesOf(row.stableIdx, x, row.cells[x].images) ==
      before + ImagesBefore(row, x + 1)
  {
  }

  lemma RowEnds<T, U, I>(cells: seq<Cell<T, U, I>>)
    ensures !SameLink(cells, |cells| - 1, |cells|)
  {
  }

  lemma NothingScanned<T, U, I>(cells: seq<Cell<T, U, I>>, lineIdx: nat)
    ensures Scanned(cells, lineIdx, [], None, Range(0, 0), 0)
  {
  }

  /** The scan of cell `x`: the open streak goes on, or it is pushed and perhaps another one opens. */
  lemma ScanNext<T, U, I>(
    cells: seq<Cell<T, U, I>>, lineIdx: nat, hs: seq<LineHyperlink<U>>, current: Option<Hyperlink<U>>, range: Range,
    x: nat)
    requires Scanned(cells, lineIdx, hs, current, range, x) && x < |cells|
    ensures if current.Some? && cells[x].link == current
      then Scanned(cells, lineIdx, hs, current, RangeUnion(range, Range(x, x + 1)), x + 1)
      else
        var hs' := Pushed(hs, lineIdx, current, range);
        if cells[x].link.Some? then Scanned(cells, lineIdx, hs', cells[x].link, Range(x, x + 1), x + 1)
        else Scanned(cells, lineIdx, hs', None, Range(0, 0), x + 1)
  {
    hide IsRowStreak;
    if !(current.Some? && cells[x].link == current) {
      CloseStreak(cells, lineIdx, hs, current, range, x);
    }
  }

  /** The hyperlinks and images of one row, taken out of its cells. */
  method ExtractRow<T, U, I>(
    lineIdx: nat, row: Row<T, U, I>, hyperlinksBefore: seq<LineHyperlink<U>>, imagesBefore: seq<SerializedImageCell<I>>)
    returns (bare: Row<T, U, I>, hyperlinks: seq<LineHyperlink<U>>, images: seq<SerializedImageCell<I>>,
      ghost hs: seq<LineHyperlink<U>>)
    ensures IsBareRow(row, bare)
    ensures RowStreaks(row.cells, lineIdx, hs, |row.cells|) && hyperlinks == hyperlinksBefore + hs
    ensures images == imagesBefore + ImagesBefore(row, |row.cells|)
  {
    hide IsStreak, RowStreaks, Scanned, RangeUnion, ImagesBefore, ImagesOf, SameLink, IsLinked;
    ImagesStart(row);
    RowEnds(row.cells);
    var cells := row.cells;
    hyperlinks, images, hs := hyperlinksBefore, imagesBefore, [];
    var currentLink: Option<Hyperlink<U>> := None;
    var currentRange := Range(0, 0);
    NothingScanned(cells, lineIdx);
    for x := 0 to |cells|
      invariant |cells| == |row.cells|
      invariant forall y :: 0 <= y < |cells| ==> cells[y] == if y < x then Bare(row.cells[y]) else row.cells[y]
      invariant Scanned(row.cells, lineIdx, hs, currentLink, currentRange, x)
      invariant currentLink.None? ==> currentRange == Range(0, 0)
      invariant hyperlinks == hyperlinksBefore + hs
      invariant images == imagesBefore + ImagesBefore(row, x)
    {
      ghost var pushed := Pushed(hs, lineIdx, currentLink, currentRange);
      ScanNext(row.cells, lineIdx, hs, currentLink, currentRange, x);
      ImagesNext(row, x, imagesBefore);
      if cells[x].link.Some? {
        var link := cells[x].link.value;
        cells := cells[x := cells[x].(link := None)];
        if currentLink.Some? && currentLink.value == link {
          currentRange := RangeUnion(currentRange, Range(x, x + 1));
        } else {
          if currentLink.Some? {
            hyperlinks := hyperlinks + [Single(currentLink.value.url, lineIdx, currentRange)];
          }
          hs := pushed;
          currentRange := Range(x, x + 1);
          currentLink := Some(link);
        }
      } else if currentLink.Some? {
        hyperlinks := hyperlinks + [Single(currentLink.value.url, lineIdx, currentRange)];
        hs := pushed;
        currentRange := Range(0, 0);
        currentLink := None;
      }
      images := ExtractImages(row.stableIdx, x, cells[x].images, images);
      cells := cells[x := cells[x].(images := [])];
    }
    CloseStreak(row.cells, lineIdx, hs, currentLink, currentRange, |row.cells|);
    if currentLink.Some? {
      hyperlinks := hyperlinks + [Single(currentLink.value.url, lineIdx, currentRange)];
      hs := hs + [Single(currentLink.value.url, lineIdx, currentRange)];
    }
    bare := Row(row.stableIdx, cells);
  }

  // ---- all rows ----------------------------------------------------------------------------------

  lemma OneCoordinate<T, U, I>(rows: seq<Row<T, U, I>>, h: LineHyperlink<U>)
    requires IsStreakOf(rows, h)
    ensures |h.coords| == 1
  {
  }

  lemma CoveredByEither<U>(a: seq<LineHyperlink<U>>, b: seq<LineHyperlink<U>>, r: nat, x: int)
    ensures IsCovered(a, r, x) || IsCovered(b, r, x) ==> IsCovered(a + b, r, x)
  {
    if k :| 0 <= k < |a| && Covers(a[k], r, x) {
      assert Covers((a + b)[k], r, x);
    }
    if k :| 0 <= k < |b| && Covers(b[k], r, x) {
      assert Covers((a + b)[|a| + k], r, x);
    }
  }

  lemma AddRow<T, U, I>(rows: seq<Row<T, U, I>>, before: seq<LineHyperlink<U>>, hs: seq<LineHyperlink<U>>, n: nat)
    requires AreStreaksOf(rows, before, n) && n < |rows|
    requires RowStreaks(rows[n].cells, n, hs, |rows[n].cells|)
    ensures AreStreaksOf(rows, before + hs, n + 1)
  {
    hide IsStreak;
    var all := before + hs;
    forall k | 0 <= k < |all|
      ensures IsStreakOf(rows, all[k]) && all[k].coords[0].lineIdx < n + 1
    {
      if k >= |before| {
        assert IsRowStreak(rows[n].cells, n, hs[k - |before|]);
      }
    }
    hide IsRowStreak, IsStreakOf, Covers;
    forall j, k | 0 <= j < k < |all|
      ensures Precedes(all[j], all[k])
    {
      if j < |before| <= k {
        OneCoordinate(rows, before[j]);
      }
    }
    forall r: nat, x | r < n + 1 && IsLinked(rows[r].cells, x)
      ensures IsCovered(all, r, x)
    {
      CoveredByEither(before, hs, r, x);
    }
  }

  lemma NoRows<T, U, I>(rows: seq<Row<T, U, I>>)
    ensures AreStreaksOf(rows, [], 0) && rows[..0] == []
  {
  }

  /** Takes the hyperlinks and images out of the cells, each streak once and each image in row and cell order. */
  method SerializeLines<T, U, I>(rows: seq<Row<T, U, I>>) returns (s: SerializedLines<T, U, I>)
    ensures IsSerialized(rows, s)
  {
    hide RowStreaks, AreStreaksOf, IsBareRow;
    var lines := rows;
    var hyperlinks: seq<LineHyperlink<U>> := [];
    var images: seq<SerializedImageCell<I>> := [];
    NoRows(rows);
    for lineIdx := 0 to |rows|
      invariant |lines| == |rows|
      invariant forall r :: 0 <= r < lineIdx ==> IsBareRow(rows[r], lines[r])
      invariant forall r :: lineIdx <= r < |rows| ==> lines[r] == rows[r]
      invariant AreStreaksOf(rows, hyperlinks, lineIdx)
      invariant images == AllImages(rows[..lineIdx])
    {
      ghost var before := hyperlinks;
      var bare;
      ghost var hs;
      bare, hyperlinks, images, hs := ExtractRow(lineIdx, lines[lineIdx], hyperlinks, images);
      lines := lines[lineIdx := bare];
      AddRow(rows, before, hs, lineIdx);
      assert rows[..lineIdx + 1][..lineIdx] == rows[..lineIdx];
    }
    assert rows[..|rows|] == rows;
    s := SerializedLines(lines, hyperlinks, images);
  }

  // ---- what is restored --------------------------------------------------------------------------

  /** Some coordinates whose columns fit a row of `width` cells hold the cell. */
  predicate Names(coords: seq<CellCoordinates>, r: nat, x: int, width: nat) {
    exists c :: 0 <= c < |coords| && coords[c].lineIdx == r && coords[c].cols.start <= x < coords[c].cols.end <= width
  }

  /** The last of the first `n` hyperlinks that names the cell. */
  function LastCover<U>(hs: seq<LineHyperlink<U>>, n: nat, r: nat, x: int, width: nat): (k: Option<nat>)
    requires n <= |hs|
    ensures k.Some? ==> k.value < n && Names(hs[k.value].coords, r, x, width)
    ensures k.None? ==> forall j :: 0 <= j < n ==> !Names(hs[j].coords, r, x, width)
  {
    if n == 0 then None
    else if Names(hs[n - 1].coords, r, x, width) then Some(n - 1)
    else LastCover(hs, n - 1, r, x, width)
  }

  ghost predicate RestoresCell<T, U, I>(
    line: Row<T, U, I>, hs: seq<LineHyperlink<U>>, n: nat, objects: seq<Hyperlink<U>>, r: nat, x: nat,
    cell: Cell<T, U, I>)
    requires n <= |hs| && n <= |objects| && x < |line.cells|
  {
    var k := LastCover(hs, n, r, x, |line.cells|);
    cell == if k.Some? then line.cells[x].(link := Some(objects[k.value])) else line.cells[x]
  }

  ghost predicate RestoresRow<T, U, I>(
    line: Row<T, U, I>, hs: seq<LineHyperlink<U>>, n: nat, objects: seq<Hyperlink<U>>, r: nat, restored: Row<T, U, I>)
    requires n <= |hs| && n <= |objects|
  {
    && restored.stableIdx == line.stableIdx && |restored.cells| == |line.cells|
    && forall x :: 0 <= x < |line.cells| ==> RestoresCell(line, hs, n, objects, r, x, restored.cells[x])
  }

  /** The cells of `lines`, with the shared object of their last hyperlink where they have one. */
  ghost predicate Restores<T, U, I>(
    lines: seq<Row<T, U, I>>, hs: seq<LineHyperlink<U>>, n: nat, objects: seq<Hyperlink<U>>,
    restored: seq<Row<T, U, I>>)
    requires n <= |hs| && n <= |objects|
  {
    && |restored| == |lines|
    && forall r :: 0 <= r < |lines| ==> RestoresRow(lines[r], hs, n, objects, r, restored[r])
  }

  /** New objects, one for each hyperlink. */
  ghost predicate AreObjects<U>(hs: seq<LineHyperlink<U>>, objects: seq<Hyperlink<U>>) {
    && |objects| <= |hs|
    && (forall k :: 0 <= k < |objects| ==> objects[k].url == hs[k].link)
    && (forall j, k :: 0 <= j < k < |objects| ==> objects[j] != objects[k])
  }

  ghost predicate IsRowLinkedTo<T, U, I>(
    line: Row<T, U, I>, coords: seq<CellCoordinates>, url: Hyperlink<U>, i: nat, r: Row<T, U, I>) {
    && r.stableIdx == line.stableIdx && |r.cells| == |line.cells|
    && forall x :: 0 <= x < |line.cells| ==>
         r.cells[x] == if Names(coords, i, x, |line.cells|) then line.cells[x].(link := Some(url)) else line.cells[x]
  }

  ghost predicate IsLinkedTo<T, U, I>(
    lines: seq<Row<T, U, I>>, coords: seq<CellCoordinates>, url: Hyperlink<U>, r: seq<Row<T, U, I>>) {
    && |r| == |lines|
    && forall i :: 0 <= i < |lines| ==> IsRowLinkedTo(lines[i], coords, url, i, r[i])
  }

  /** Puts one shared object into the cells that the coordinates name. */
  method SetLinks<T, U, I>(
    lines: seq<Row<T, U, I>>, coords: seq<CellCoordinates>, url: Hyperlink<U>)
    returns (r: seq<Row<T, U, I>>)
    ensures IsLinkedTo(lines, coords, url, r)
  {
    r := lines;
    for c := 0 to |coords|
      invariant IsLinkedTo(lines, coords[..c], url, r)
    {
      var i, cols := coords[c].lineIdx, coords[c].cols;
      ghost var before := r;
      if i < |r| && cols.start <= cols.end <= |r[i].cells| {
        var cells := r[i].cells;
        for x := cols.start to cols.end
          invariant |cells| == |r[i].cells|
          invariant forall y :: 0 <= y < |cells| ==>
            cells[y] == if cols.start <= y < x then r[i].cells[y].(link := Some(url)) else r[i].cells[y]
        {
          cells := cells[x := cells[x].(link := Some(url))];
        }
        r := r[i := r[i].(cells := cells)];
      }
    }
    assert coords[..|coords|] == coords;
  }

  lemma NothingRestored<T, U, I>(lines: seq<Row<T, U, I>>, hs: seq<LineHyperlink<U>>)
    ensures Restores(lines, hs, 0, [], lines) && AreObjects(hs, [])
  {
  }

  lemma RestoreNext<T, U, I>(
    lines: seq<Row<T, U, I>>, hs: seq<LineHyperlink<U>>, k: nat, objects: seq<Hyperlink<U>>, url: Hyperlink<U>,
    before: seq<Row<T, U, I>>, after: seq<Row<T, U, I>>)
    requires k < |hs| && |objects| == k && Restores(lines, hs, k, objects, before)
    requires IsLinkedTo(before, hs[k].coords, url, after)
    ensures Restores(lines, hs, k + 1, objects + [url], after)
  {
    forall r | 0 <= r < |lines|
      ensures RestoresRow(lines[r], hs, k + 1, objects + [url], r, after[r])
    {
      assert RestoresRow(lines[r], hs, k, objects, r, before[r]);
      assert IsRowLinkedTo(before[r], hs[k].coords, url, r, after[r]);
      hide Names;
      forall x | 0 <= x < |lines[r].cells|
        ensures RestoresCell(lines[r], hs, k + 1, objects + [url], r, x, after[r].cells[x])
      {
        assert RestoresCell(lines[r], hs, k, objects, r, x, before[r].cells[x]);
      }
    }
  }

  /** Restores the hyperlinks: the cells of one entry share one new object. */
  method ExtractData<T, U, I>(s: SerializedLines<T, U, I>)
    returns (lines: seq<Row<T, U, I>>, images: seq<SerializedImageCell<I>>, ghost objects: seq<Hyperlink<U>>)
    ensures |objects| == |s.hyperlinks| && AreObjects(s.hyperlinks, objects)
    ensures Restores(s.lines, s.hyperlinks, |s.hyperlinks|, objects, lines) && images == s.images
  {
    hide IsRowLinkedTo, RestoresRow;
    lines, images, objects := s.lines, s.images, [];
    NothingRestored(s.lines, s.hyperlinks);
    if |s.hyperlinks| == 0 {
      return;
    }
    for k := 0 to |s.hyperlinks|
      invariant |objects| == k && AreObjects(s.hyperlinks, objects)
      invariant Restores(s.lines, s.hyperlinks, k, objects, lines)
    {
      ghost var before := lines;
      var url := new Hyperlink(s.hyperlinks[k].link);
      lines := SetLinks(lines, s.hyperlinks[k].coords, url);
      RestoreNext(s.lines, s.hyperlinks, k, objects, url, before, lines);
      objects := objects + [url];
    }
  }

  // ---- the round trip ----------------------------------------------------------------------------

  /** All cells from `x` to `y`, in either direction, hold one link object. */
  ghost predicate InOneStreak<T, U, I>(cells: seq<Cell<T, U, I>>, x: int, y: int) {
    forall z :: (x <= z <= y || y <= z <= x) ==> SameLink(cells, x, z)
  }

  lemma NamedIsLinked<T, U, I>(rows: seq<Row<T, U, I>>, h: LineHyperlink<U>, r: nat, x: int)
    requires IsStreakOf(rows, h) && r < |rows| && Names(h.coords, r, x, |rows[r].cells|)
    ensures Covers(h, r, x) && IsLinked(rows[r].cells, x) && h.link == rows[r].cells[x].link.value.url
  {
    assert SameLink(rows[r].cells, h.coords[0].cols.start, x);
  }

  lemma NamesCovered<T, U, I>(rows: seq<Row<T, U, I>>, h: LineHyperlink<U>, r: nat, x: int)
    requires IsStreakOf(rows, h) && Covers(h, r, x) && r < |rows|
    ensures Names(h.coords, r, x, |rows[r].cells|)
  {
    assert h.coords[0].lineIdx == r;
  }

  /** A cell is covered exactly if it is linked, and then by the entry that restores it. */
  lemma CoverIs<T, U, I>(rows: seq<Row<T, U, I>>, hs: seq<LineHyperlink<U>>, r: nat, x: nat)
    requires AreStreaksOf(rows, hs, |rows|) && r < |rows| && x < |rows[r].cells|
    ensures var k := LastCover(hs, |hs|, r, x, |rows[r].cells|);
      && (k.Some? <==> IsLinked(rows[r].cells, x))
      && (k.Some? ==> Covers(hs[k.value], r, x) && hs[k.value].link == rows[r].cells[x].link.value.url)
  {
    var k := LastCover(hs, |hs|, r, x, |rows[r].cells|);
    hide LastCover, Names, Covers, IsStreakOf, Precedes;
    if k.Some? {
      NamedIsLinked(rows, hs[k.value], r, x);
    } else if IsLinked(rows[r].cells, x) {
      var j :| 0 <= j < |hs| && Covers(hs[j], r, x);
      NamesCovered(rows, hs[j], r, x);
    }
  }

  /** Beyond a streak, the sharing ends. */
  lemma StreakEnds<T, U, I>(cells: seq<Cell<T, U, I>>, cols: Range, x: int, y: int)
    requires IsStreak(cells, cols) && cols.start <= x < cols.end
    ensures InOneStreak(cells, x, y) <==> cols.start <= y < cols.end
  {
    assert SameLink(cells, cols.start, x);
    assert !SameLink(cells, x, cols.end) && !SameLink(cells, x, cols.start - 1);
    if cols.start <= y < cols.end {
      forall z | x <= z <= y || y <= z <= x
        ensures SameLink(cells, x, z)
      {
        assert SameLink(cells, cols.start, z);
      }
    }
  }

  /** What is restored has the content and the link values of the original, and no images. */
  lemma {:induction false} LinksRestored<T, U, I>(
    rows: seq<Row<T, U, I>>, s: SerializedLines<T, U, I>, objects: seq<Hyperlink<U>>, lines: seq<Row<T, U, I>>, r: nat,
    x: nat)
    requires IsSerialized(rows, s) && |objects| == |s.hyperlinks| && AreObjects(s.hyperlinks, objects)
    requires Restores(s.lines, s.hyperlinks, |s.hyperlinks|, objects, lines)
    requires r < |rows| && x < |rows[r].cells|
    ensures |lines| == |rows| && lines[r].stableIdx == rows[r].stableIdx && |lines[r].cells| == |rows[r].cells|
    ensures lines[r].cells[x].content == rows[r].cells[x].content && lines[r].cells[x].images == []
    ensures lines[r].cells[x].link.Some? <==> rows[r].cells[x].link.Some?
    ensures rows[r].cells[x].link.Some? ==> lines[r].cells[x].link.value.url == rows[r].cells[x].link.value.url
    ensures var k := LastCover(s.hyperlinks, |s.hyperlinks|, r, x, |rows[r].cells|);
      k.Some? ==> lines[r].cells[x].link == Some(objects[k.value])
  {
    CoverIs(rows, s.hyperlinks, r, x);
    hide LastCover, AreStreaksOf;
    assert IsBareRow(rows[r], s.lines[r]);
    assert RestoresRow(s.lines[r], s.hyperlinks, |s.hyperlinks|, objects, r, lines[r]);
    assert RestoresCell(s.lines[r], s.hyperlinks, |s.hyperlinks|, objects, r, x, lines[r].cells[x]);
  }

  lemma SameEntry<T, U, I>(
    rows: seq<Row<T, U, I>>, hs: seq<LineHyperlink<U>>, k: nat, k': nat, r: nat, x: nat, r': nat, x': nat)
    requires AreStreaksOf(rows, hs, |rows|) && k < |hs| && k' < |hs| && r < |rows| && r' < |rows|
    requires Covers(hs[k], r, x) && Covers(hs[k'], r', x')
    ensures k == k' <==> r == r' && InOneStreak(rows[r].cells, x, x')
  {
    assert IsStreakOf(rows, hs[k]);
    hide IsStreak, InOneStreak, SameLink, IsLinked;
    if r == r' {
      StreakEnds(rows[r].cells, hs[k].coords[0].cols, x, x');
      assert Precedes(hs[k], hs[k']) || Precedes(hs[k'], hs[k]) || k == k';
    }
  }

  /** Two cells share a link object again exactly if they were in one streak of one row. */
  lemma {:induction false} SharingRestored<T, U, I>(
    rows: seq<Row<T, U, I>>, s: SerializedLines<T, U, I>, objects: seq<Hyperlink<U>>, lines: seq<Row<T, U, I>>,
    r: nat, x: nat, r': nat, x': nat)
    requires IsSerialized(rows, s) && |objects| == |s.hyperlinks| && AreObjects(s.hyperlinks, objects)
    requires Restores(s.lines, s.hyperlinks, |s.hyperlinks|, objects, lines)
    requires r < |rows| && IsLinked(rows[r].cells, x) && r' < |rows| && IsLinked(rows[r'].cells, x')
    ensures |lines| == |rows| && IsLinked(lines[r].cells, x) && IsLinked(lines[r'].cells, x')
    ensures lines[r].cells[x].link == lines[r'].cells[x'].link <==> r == r' && InOneStreak(rows[r].cells, x, x')
  {
    var hs := s.hyperlinks;
    LinksRestored(rows, s, objects, lines, r, x);
    LinksRestored(rows, s, objects, lines, r', x');
    CoverIs(rows, hs, r, x);
    CoverIs(rows, hs, r', x');
    var k := LastCover(hs, |hs|, r, x, |rows[r].cells|).value;
    var k' := LastCover(hs, |hs|, r', x', |rows[r'].cells|).value;
    hide LastCover, Restores;
    SameEntry(rows, hs, k, k', r, x, r', x');
  }
}
