/**
 * Which parts of the screen need a redraw (src/dirty_rects.cpp) and the rectangles that a refresh sends
 * (src/hostscreen.cpp): 16 by 16 tiles are marked dirty, and each row's runs of dirty tiles are merged.
 */
module DirtyRects {
  import opened Arith

  datatype Rect = Rect(x: int, y: int, w: int, h: int) {
    predicate Contains(px: int, py: int) {
      x <= px < x + w && y <= py < y + h
    }

    /** The tiles that setDirtyRect marks: columns and rows from the first to the last touched. */
    predicate Touches(tx: int, ty: int) {
      x / 16 <= tx < (x + w + 15) / 16 && y / 16 <= ty < (y + h + 15) / 16
    }
  }

  /** For a rectangle with pixels, the marked tiles are the tiles that hold one of its pixels. */
  lemma TouchesMeansPixel(r: Rect, tx: int, ty: int)
    requires r.w > 0 && r.h > 0
    ensures r.Touches(tx, ty) <==> exists px, py :: r.Contains(px, py) && px / 16 == tx && py / 16 == ty
  {
    if r.Touches(tx, ty) {
      var px := if r.x / 16 == tx then r.x else 16 * tx;
      var py := if r.y / 16 == ty then r.y else 16 * ty;
      assert r.Contains(px, py) && px / 16 == tx && py / 16 == ty;
    }
  }

  /** dirtyMarker[y * dirtyW + x] */
  function Index(tx: int, ty: int, w: int): int {
    ty * w + tx
  }

  lemma IndexInRange(tx: int, ty: int, w: int, h: int)
    requires 0 <= tx < w && 0 <= ty < h
    ensures 0 <= Index(tx, ty, w) < w * h
  {
    ProductBound(ty, w, h - 1, w);
    assert (h - 1) * w == w * h - w;
  }

  lemma IndexDistinct(tx: int, ty: int, tx': int, ty': int, w: int)
    requires 0 <= tx < w && 0 <= tx' < w && Index(tx, ty, w) == Index(tx', ty', w)
    ensures tx == tx' && ty == ty'
  {
    DivModIs(Index(tx, ty, w), w, ty, tx);
    DivModIs(Index(tx', ty', w), w, ty', tx');
  }

  /** A run of dirty tiles in one row, columns first up to end. */
  datatype Run = Run(row: int, first: int, end: int) {
    predicate Has(tx: int, ty: int) {
      ty == row && first <= tx < end
    }
  }

  class Area {
    var dirtyMarker: array<bool>
    var dirtyW: int
    var dirtyH: int
    var areaW: int
    var areaH: int
    var minDirtX: int
    var minDirtY: int
    var maxDirtX: int
    var maxDirtY: int

    /** The rectangles dirtied since the last clear. */
    ghost var dirtied: seq<Rect>

    ghost predicate Shaped()
      reads `dirtyMarker, `dirtyW, `dirtyH, `areaW, `areaH
    {
      && 0 <= areaW && 0 <= areaH && dirtyW == (areaW + 15) / 16 && dirtyH == (areaH + 15) / 16
      && dirtyMarker.Length == dirtyW * dirtyH
    }

    ghost predicate OnScreen(tx: int, ty: int)
      reads `dirtyW, `dirtyH
    {
      0 <= tx < dirtyW && 0 <= ty < dirtyH
    }

    ghost predicate Marked(tx: int, ty: int)
      requires Shaped() && OnScreen(tx, ty)
      reads `dirtyMarker, `dirtyW, `dirtyH, `areaW, `areaH, dirtyMarker
    {
      IndexInRange(tx, ty, dirtyW, dirtyH);
      dirtyMarker[Index(tx, ty, dirtyW)]
    }

    /** Each edge of the bounding box is where a clear leaves it or at a dirtied rectangle, rounded out to 16 pixels. */
    ghost predicate Tight()
      reads `minDirtX, `minDirtY, `maxDirtX, `maxDirtY, `areaW, `areaH, `dirtied
    {
      && (minDirtX == areaW || exists r :: r in dirtied && minDirtX == r.x - r.x % 16)
      && (minDirtY == areaH || exists r :: r in dirtied && minDirtY == r.y - r.y % 16)
      && (maxDirtX == 0 || exists r :: r in dirtied && maxDirtX == r.x + r.w - 1)
      && (maxDirtY == 0 || exists r :: r in dirtied && maxDirtY == r.y + r.h - 1)
    }

    /** A tile is marked exactly when a dirtied rectangle touches it, and the bounding box holds them all. */
    ghost predicate Valid()
      reads this, dirtyMarker
    {
      && Shaped()
      && (forall tx, ty :: OnScreen(tx, ty) ==> (Marked(tx, ty) <==> exists r :: r in dirtied && r.Touches(tx, ty)))
      && (forall r :: r in dirtied ==>
            minDirtX <= r.x && r.x + r.w - 1 <= maxDirtX && minDirtY <= r.y && r.y + r.h - 1 <= maxDirtY)
      && (dirtied == [] ==> minDirtX == areaW && maxDirtX == 0)
      && Tight()
    }

    method MarkTile(tx: int, ty: int)
      requires Shaped() && OnScreen(tx, ty)
      modifies dirtyMarker
      ensures forall x, y :: OnScreen(x, y) ==> Marked(x, y) == (old(Marked(x, y)) || (x == tx && y == ty))
    {
      IndexInRange(tx, ty, dirtyW, dirtyH);
      dirtyMarker[ty * dirtyW + tx] := true;
      forall x, y | OnScreen(x, y)
        ensures Marked(x, y) == (old(Marked(x, y)) || (x == tx && y == ty))
      {
        IndexInRange(x, y, dirtyW, dirtyH);
        if Index(x, y, dirtyW) == Index(tx, ty, dirtyW) {
          IndexDistinct(x, y, tx, ty, dirtyW);
        }
      }
    }

    /** The tiles that a number of pixels takes. */
    static method Tiles(pixels: int) returns (n: int)
      requires pixels >= 0
      ensures n == (pixels + 15) / 16
    {
      n := pixels / 16;
      if pixels % 16 != 0 {
        n := n + 1;
      }
    }

    /** A new size marks everything dirty. */
    method ResizeDirty(width: int, height: int)
      requires width >= 0 && height >= 0
      modifies this
      ensures Valid() && fresh(dirtyMarker) && areaW == width && areaH == height
      ensures dirtied == [Rect(0, 0, width, height)]
    {
      areaW, areaH := width, height;
      dirtyW := Tiles(width);
      dirtyH := Tiles(height);
      ProductBound(dirtyW, dirtyH, dirtyW, dirtyH);
      dirtyMarker := new bool[dirtyW * dirtyH](_ => true);
      minDirtX, minDirtY, maxDirtX, maxDirtY := 0, 0, areaW - 1, areaH - 1;
      dirtied := [Rect(0, 0, width, height)];
      forall tx, ty | OnScreen(tx, ty)
        ensures Marked(tx, ty) && exists r :: r in dirtied && r.Touches(tx, ty)
      {
        IndexInRange(tx, ty, dirtyW, dirtyH);
        assert dirtied[0].Touches(tx, ty);
      }
    }

    constructor (width: int, height: int)
      requires width >= 0 && height >= 0
      ensures Valid() && fresh(dirtyMarker) && areaW == width && areaH == height
      ensures dirtied == [Rect(0, 0, width, height)]
    {
      dirtyMarker := new bool[0];
      dirtyW, dirtyH, areaW, areaH := 0, 0, 0, 0;
      minDirtX, minDirtY, maxDirtX, maxDirtY := 0, 0, 0, 0;
      dirtied := [];
      new;
      ResizeDirty(width, height);
    }

    method MarkRow(x1: int, x2: int, y: int)
      requires Shaped()
      modifies dirtyMarker
      ensures forall tx, ty :: OnScreen(tx, ty) ==>
                Marked(tx, ty) == (old(Marked(tx, ty)) || (x1 <= tx < x2 && ty == y))
    {
      var x := x1;
      while x < x2
        invariant x1 <= x2 ==> x1 <= x <= x2
        invariant x1 > x2 ==> x == x1
        invariant forall tx, ty :: OnScreen(tx, ty) ==>
          Marked(tx, ty) == (old(Marked(tx, ty)) || (x1 <= tx < x && ty == y))
      {
        if x >= 0 && x < dirtyW && y >= 0 && y < dirtyH {
          MarkTile(x, y);
        }
        x := x + 1;
      }
    }

    /** Marks the on-screen tiles of a block of columns and rows. */
    method MarkTiles(x1: int, x2: int, y1: int, y2: int)
      requires Shaped()
      modifies dirtyMarker
      ensures forall tx, ty :: OnScreen(tx, ty) ==>
                Marked(tx, ty) == (old(Marked(tx, ty)) || (x1 <= tx < x2 && y1 <= ty < y2))
    {
      var y := y1;
      while y < y2
        invariant y1 <= y2 ==> y1 <= y <= y2
        invariant y1 > y2 ==> y == y1
        invariant forall tx, ty :: OnScreen(tx, ty) ==>
          Marked(tx, ty) == (old(Marked(tx, ty)) || (x1 <= tx < x2 && y1 <= ty < y))
      {
        MarkRow(x1, x2, y);
        y := y + 1;
      }
    }

    /** Round up to a multiple of 16 and divide: the tile after the last one touched. */
    static function TileAfter(x: int): (t: int)
      ensures t == (x + 15) / 16
    {
      (if x % 16 != 0 then x - x % 16 + 16 else x) / 16
    }

    /** Moves the bounding box out to a rectangle; its left and top edges go to multiples of 16. */
    method Widen(x: int, y: int, w: int, h: int)
      modifies `minDirtX, `minDirtY, `maxDirtX, `maxDirtY
      ensures minDirtX <= old(minDirtX) && minDirtX <= x && minDirtY <= old(minDirtY) && minDirtY <= y
      ensures maxDirtX >= old(maxDirtX) && maxDirtX >= x + w - 1 && maxDirtY >= old(maxDirtY) && maxDirtY >= y + h - 1
      ensures minDirtX == old(minDirtX) || minDirtX == x - x % 16
      ensures minDirtY == old(minDirtY) || minDirtY == y - y % 16
      ensures maxDirtX == old(maxDirtX) || maxDirtX == x + w - 1
      ensures maxDirtY == old(maxDirtY) || maxDirtY == y + h - 1
    {
      if x < minDirtX {
        minDirtX := x - x % 16;
      }
      if y < minDirtY {
        minDirtY := y - y % 16;
      }
      if x + w - 1 > maxDirtX {
        maxDirtX := x + w - 1;
      }
      if y + h - 1 > maxDirtY {
        maxDirtY := y + h - 1;
      }
    }

    /** Adds a rectangle to the dirty area; parts outside the screen widen only the bounding box. */
    method SetDirtyRect(x: int, y: int, w: int, h: int)
      requires Valid()
      modifies `minDirtX, `minDirtY, `maxDirtX, `maxDirtY, `dirtied, dirtyMarker
      ensures Valid() && dirtied == old(dirtied) + [Rect(x, y, w, h)]
    {
      Widen(x, y, w, h);
      MarkTiles(x / 16, TileAfter(x + w), y / 16, TileAfter(y + h));
      ghost var was, r := dirtied, Rect(x, y, w, h);
      dirtied := dirtied + [r];
      assert forall q :: q in dirtied <==> q in was || q == r;
      forall tx, ty | OnScreen(tx, ty)
        ensures Marked(tx, ty) <==> exists q :: q in dirtied && q.Touches(tx, ty)
      {
        assert Marked(tx, ty) == (old(Marked(tx, ty)) || r.Touches(tx, ty));
        assert r in dirtied;
      }
    }

    method SetDirtyLine(x1: int, y1: int, x2: int, y2: int)
      requires Valid()
      modifies `minDirtX, `minDirtY, `maxDirtX, `maxDirtY, `dirtied, dirtyMarker
      ensures Valid()
      ensures dirtied == old(dirtied) + [Rect(Min(x1, x2), Min(y1, y2), Max(x1, x2) - Min(x1, x2) + 1,
                                              Max(y1, y2) - Min(y1, y2) + 1)]
    {
      var minX, maxX := if x1 <= x2 then x1 else x2, if x1 <= x2 then x2 else x1;
      var minY, maxY := if y1 <= y2 then y1 else y2, if y1 <= y2 then y2 else y1;
      SetDirtyRect(minX, minY, maxX - minX + 1, maxY - minY + 1);
    }

    method ClearDirtyRects()
      requires Shaped()
      modifies `minDirtX, `minDirtY, `maxDirtX, `maxDirtY, `dirtied, dirtyMarker
      ensures Valid() && dirtied == [] && minDirtX == areaW && maxDirtX == 0 && minDirtY == areaH && maxDirtY == 0
    {
      forall i | 0 <= i < dirtyMarker.Length {
        dirtyMarker[i] := false;
      }
      minDirtX, minDirtY, maxDirtX, maxDirtY := areaW, areaH, 0, 0;
      dirtied := [];
      forall tx, ty | OnScreen(tx, ty)
        ensures !Marked(tx, ty)
      {
        IndexInRange(tx, ty, dirtyW, dirtyH);
      }
    }

    /** On a screen with columns and with rectangles that have pixels: whether anything was dirtied. */
    method HasDirtyRect() returns (b: bool)
      requires Valid()
      ensures b == (minDirtX <= maxDirtX)
      ensures areaW > 0 && (forall r :: r in dirtied ==> r.w > 0) ==> b == (dirtied != [])
    {
      assert dirtied != [] ==> dirtied[0] in dirtied;
      b := minDirtX <= maxDirtX;
    }

    // -------------------------------------------------------------- refresh

    /** The right edge in pixels of the columns before x. */
    ghost function RightEdge(x: int): int
      reads `areaW
    {
      Min(16 * x, areaW)
    }

    /** The rectangle sent for a run of tiles, clipped to the screen. */
    ghost function RunRect(run: Run): Rect
      reads `areaW, `areaH
    {
      Rect(16 * run.first, 16 * run.row, RightEdge(run.end) - 16 * run.first, Min(16, areaH - 16 * run.row))
    }

    /** The runs hold exactly the marked tiles before column x of row y, and no tile twice. */
    ghost predicate Covers(runs: seq<Run>, x: int, y: int)
      requires Shaped()
      reads `dirtyMarker, `dirtyW, `dirtyH, `areaW, `areaH, dirtyMarker
    {
      && (forall tx, ty :: OnScreen(tx, ty) && (ty < y || (ty == y && tx < x)) ==>
            (Marked(tx, ty) <==> exists k :: 0 <= k < |runs| && runs[k].Has(tx, ty)))
      && (forall k :: 0 <= k < |runs| ==>
            var r := runs[k];
            0 <= r.first < r.end <= dirtyW && 0 <= r.row < dirtyH && (r.row < y || (r.row == y && r.end <= x)))
      && (forall j, k :: 0 <= j < k < |runs| ==>
            runs[j].row < runs[k].row || (runs[j].row == runs[k].row && runs[j].end <= runs[k].first))
    }

    lemma SkipClean(runs: seq<Run>, x: int, y: int)
      requires Shaped() && OnScreen(x, y) && Covers(runs, x, y) && !Marked(x, y)
      ensures Covers(runs, x + 1, y)
    {
    }

    lemma NextRow(runs: seq<Run>, y: int)
      requires Shaped() && Covers(runs, dirtyW, y)
      ensures Covers(runs, 0, y + 1)
    {
    }

    /** A run of marked tiles is added to the runs before it. */
    lemma AddRun(runs: seq<Run>, first: int, end: int, y: int)
      requires Shaped() && 0 <= first < end <= dirtyW && 0 <= y < dirtyH && Covers(runs, first, y)
      requires forall tx :: first <= tx < end ==> Marked(tx, y)
      ensures Covers(runs + [Run(y, first, end)], end, y)
    {
      var runs' := runs + [Run(y, first, end)];
      forall tx, ty | OnScreen(tx, ty) && (ty < y || (ty == y && tx < end))
        ensures Marked(tx, ty) <==> exists k :: 0 <= k < |runs'| && runs'[k].Has(tx, ty)
      {
        if ty == y && tx >= first {
          assert runs'[|runs|].Has(tx, ty);
        } else {
          assert !runs'[|runs|].Has(tx, ty);
          assert forall k :: 0 <= k < |runs| ==> runs'[k] == runs[k];
        }
      }
    }

    ghost predicate Sent(rects: array<Rect>, i: nat, runs: seq<Run>)
      requires Shaped()
      reads `dirtyMarker, `dirtyW, `dirtyH, `areaW, `areaH, rects
    {
      i == |runs| <= rects.Length == dirtyW * dirtyH && forall k :: 0 <= k < i ==> rects[k] == RunRect(runs[k])
    }

    /** A row in progress: the runs before a pending block of marked tiles, or before column x. */
    ghost predicate Pending(rects: array<Rect>, i: nat, runs: seq<Run>, blockX: int, blockW: int, x: int, y: int)
      requires Shaped()
      reads `dirtyMarker, `dirtyW, `dirtyH, `areaW, `areaH, dirtyMarker, rects
    {
      && 0 <= x <= dirtyW && 0 <= y < dirtyH && blockW >= 0 && Sent(rects, i, runs) && i <= y * dirtyW + x
      && Covers(runs, if blockW > 0 then blockX else x, y)
      && (blockW > 0 ==> 0 <= blockX < x && blockW == RightEdge(x) - 16 * blockX && i < y * dirtyW + x
                         && forall tx :: blockX <= tx < x ==> Marked(tx, y))
    }

    /** Sends the pending block as one rectangle. */
    method Flush(rects: array<Rect>, i0: nat, ghost runs0: seq<Run>, blockX: int, blockW: int, ghost x: int,
                 y: int, maxh: int)
        returns (i: nat, ghost runs: seq<Run>)
      requires Shaped() && Pending(rects, i0, runs0, blockX, blockW, x, y) && blockW > 0
      requires maxh == Min(16, areaH - 16 * y)
      modifies rects
      ensures Pending(rects, i, runs, blockX, 0, x, y)
    {
      AddRun(runs0, blockX, x, y);
      ghost var run := Run(y, blockX, x);
      IndexInRange(x - 1, y, dirtyW, dirtyH);
      rects[i0] := Rect(16 * blockX, 16 * y, blockW, maxh);
      i, runs := i0 + 1, runs0 + [run];
    }

    /** Column x is dirty: it starts a block or extends the pending one. */
    lemma Extend(rects: array<Rect>, i: nat, runs: seq<Run>, blockX: int, blockW: int, x: int, y: int)
      requires Shaped() && Pending(rects, i, runs, blockX, blockW, x, y) && x < dirtyW && Marked(x, y)
      ensures var first := if blockW == 0 then x else blockX;
              Pending(rects, i, runs, first, blockW + Min(16, areaW - 16 * x), x + 1, y)
    {
    }

    /** One tile: it extends the run of dirty tiles or ends it, and the last column flushes. */
    method RefreshTile(rects: array<Rect>, i0: nat, x: int, y: int, maxh: int, blockX0: int, blockW0: int,
                       ghost runs0: seq<Run>)
      returns (i: nat, blockX: int, blockW: int, ghost runs: seq<Run>)
      requires Shaped() && 0 <= x < dirtyW && 0 <= y < dirtyH && Pending(rects, i0, runs0, blockX0, blockW0, x, y)
      requires maxh == if areaH - 16 * y < 16 then areaH - 16 * y else 16
      modifies rects
      ensures Pending(rects, i, runs, blockX, blockW, x + 1, y) && (x + 1 == dirtyW ==> blockW == 0)
    {
      i, runs, blockX, blockW := i0, runs0, blockX0, blockW0;
      var blockUpdate := x == dirtyW - 1;  // no run goes on beyond the row
      var maxw := 16;
      if areaW - 16 * x < 16 {
        maxw := areaW - 16 * x;
      }
      IndexInRange(x, y, dirtyW, dirtyH);
      if dirtyMarker[y * dirtyW + x] {
        Extend(rects, i, runs, blockX, blockW, x, y);
        if blockW == 0 {
          blockX := x;
        }
        blockW := blockW + maxw;
        if blockUpdate && blockW > 0 {
          i, runs := Flush(rects, i, runs, blockX, blockW, x + 1, y, maxh);
          blockW := 0;
        }
      } else {
        blockUpdate := true;
        if blockUpdate && blockW > 0 {
          i, runs := Flush(rects, i, runs, blockX, blockW, x, y, maxh);
          blockW := 0;
        }
        SkipClean(runs, x, y);
      }
    }

    /** One row: runs of dirty tiles are merged. */
    method RefreshRow(rects: array<Rect>, i0: nat, y: int, ghost runs0: seq<Run>) returns (i: nat, ghost runs: seq<Run>)
      requires Shaped() && 0 <= y < dirtyH && Sent(rects, i0, runs0) && Covers(runs0, 0, y) && i0 <= y * dirtyW
      modifies rects
      ensures Sent(rects, i, runs) && Covers(runs, 0, y + 1) && i <= (y + 1) * dirtyW
    {
      i, runs := i0, runs0;
      var blockW, blockX := 0, 0;
      var maxh := 16;
      if areaH - 16 * y < 16 {
        maxh := areaH - 16 * y;
      }
      for x := 0 to dirtyW
        invariant Pending(rects, i, runs, blockX, blockW, x, y) && (x == dirtyW ==> blockW == 0)
      {
        i, blockX, blockW, runs := RefreshTile(rects, i, x, y, maxh, blockX, blockW, runs);
      }
      NextRow(runs, y);
      assert (y + 1) * dirtyW == y * dirtyW + dirtyW;
    }

    ghost predicate Inside(r: Rect)
      reads `areaW, `areaH
    {
      0 <= r.x && 0 <= r.y && r.w > 0 && r.h > 0 && r.x + r.w <= areaW && r.y + r.h <= areaH
    }

    /** The rectangle of a run holds the on-screen pixels of its tiles, and only pixels on the screen. */
    lemma RunRectPixels(run: Run, px: int, py: int)
      requires Shaped() && 0 <= run.first < run.end <= dirtyW && 0 <= run.row < dirtyH
      ensures Inside(RunRect(run))
      ensures 0 <= px < areaW && 0 <= py < areaH ==> (RunRect(run).Contains(px, py) <==> run.Has(px / 16, py / 16))
    {
    }

    static ghost predicate Disjoint(a: Rect, b: Rect) {
      forall px, py :: !(a.Contains(px, py) && b.Contains(px, py))
    }

    static ghost predicate Drawn(rects: seq<Rect>, px: int, py: int) {
      exists k :: 0 <= k < |rects| && rects[k].Contains(px, py)
    }

    /** A refresh in rectangles: inside the screen, no two overlap, together the pixels of the dirty tiles. */
    ghost predicate Redraws(rects: seq<Rect>, dirty: seq<Rect>)
      reads `areaW, `areaH
    {
      && (forall k :: 0 <= k < |rects| ==> Inside(rects[k]))
      && (forall j, k :: 0 <= j < k < |rects| ==> Disjoint(rects[j], rects[k]))
      && (forall px, py :: 0 <= px < areaW && 0 <= py < areaH ==>
            (Drawn(rects, px, py) <==> exists r :: r in dirty && r.Touches(px / 16, py / 16)))
    }

    ghost predicate RectsOf(rects: seq<Rect>, runs: seq<Run>)
      reads `areaW, `areaH
    {
      |rects| == |runs| && forall k :: 0 <= k < |runs| ==> rects[k] == RunRect(runs[k])
    }

    lemma RunsDisjoint(runs: seq<Run>, j: int, k: int)
      requires Shaped() && Covers(runs, 0, dirtyH) && 0 <= j < k < |runs|
      ensures Disjoint(RunRect(runs[j]), RunRect(runs[k]))
    {
      forall px, py | RunRect(runs[j]).Contains(px, py)
        ensures !RunRect(runs[k]).Contains(px, py)
      {
        RunRectPixels(runs[j], px, py);
        RunRectPixels(runs[k], px, py);
      }
    }

    lemma RunsCover(rects: seq<Rect>, runs: seq<Run>, px: int, py: int)
      requires Valid() && Covers(runs, 0, dirtyH) && RectsOf(rects, runs) && 0 <= px < areaW && 0 <= py < areaH
      ensures Drawn(rects, px, py) <==> exists r :: r in dirtied && r.Touches(px / 16, py / 16)
    {
      var tx, ty := px / 16, py / 16;
      assert OnScreen(tx, ty);
      forall k | 0 <= k < |runs|
        ensures rects[k].Contains(px, py) <==> runs[k].Has(tx, ty)
      {
        RunRectPixels(runs[k], px, py);
      }
    }

    lemma RunsRedraw(rects: seq<Rect>, runs: seq<Run>)
      requires Valid() && Covers(runs, 0, dirtyH) && RectsOf(rects, runs)
      ensures Redraws(rects, dirtied)
    {
      forall k | 0 <= k < |rects|
        ensures Inside(rects[k])
      {
        RunRectPixels(runs[k], 0, 0);
      }
      forall j, k | 0 <= j < k < |rects|
        ensures Disjoint(rects[j], rects[k])
      {
        RunsDisjoint(runs, j, k);
      }
      forall px, py | 0 <= px < areaW && 0 <= py < areaH
        ensures Drawn(rects, px, py) <==> exists r :: r in dirtied && r.Touches(px / 16, py / 16)
      {
        RunsCover(rects, runs, px, py);
      }
    }

    /** The rows of a refresh, into a vector with room for one rectangle per tile. */
    method RefreshRows() returns (rects: array<Rect>, i: nat)
      requires Valid()
      ensures fresh(rects) && i <= rects.Length == dirtyW * dirtyH && Redraws(rects[..i], dirtied)
    {
      ProductBound(dirtyW, dirtyH, dirtyW, dirtyH);
      rects := new Rect[dirtyW * dirtyH](_ => Rect(0, 0, 0, 0));
      ghost var runs: seq<Run>;
      i, runs := 0, [];
      for y := 0 to dirtyH
        invariant Sent(rects, i, runs) && Covers(runs, 0, y) && i <= y * dirtyW
      {
        i, runs := RefreshRow(rects, i, y, runs);
      }
      RunsRedraw(rects[..i], runs);
    }

    /** A box with each edge at a rectangle, left and top rounded down to 16 pixels, or where a clear leaves it. */
    ghost predicate Bounds(box: Rect, rects: seq<Rect>)
      reads `areaW, `areaH
    {
      && (box.x == areaW || exists r :: r in rects && box.x == r.x - r.x % 16)
      && (box.y == areaH || exists r :: r in rects && box.y == r.y - r.y % 16)
      && (box.x + box.w == 1 || exists r :: r in rects && box.x + box.w == r.x + r.w)
      && (box.y + box.h == 1 || exists r :: r in rects && box.y + box.h == r.y + r.h)
    }

    /**
     * Sends the dirty area and clears it: as disjoint rectangles that cover exactly the dirty tiles on the
     * screen, or as one bounding box that holds every dirtied pixel.
     */
    method RefreshScreen(singleBlitRefresh: bool) returns (rects: seq<Rect>)
      requires Valid()
      modifies `minDirtX, `minDirtY, `maxDirtX, `maxDirtY, `dirtied, dirtyMarker
      ensures Valid()
      ensures areaW > 0 && (forall r :: r in old(dirtied) ==> r.w > 0 && r.h > 0) ==>
                && dirtied == []
                && (old(dirtied) == [] ==> rects == [])
                && (!singleBlitRefresh ==> Redraws(rects, old(dirtied)))
                && (singleBlitRefresh ==> forall r, px, py :: r in old(dirtied) && r.Contains(px, py) ==>
                      |rects| == 1 && rects[0].Contains(px, py))
                && (singleBlitRefresh && old(dirtied) != [] ==> |rects| == 1 && Bounds(rects[0], old(dirtied)))
    {
      rects := [];
      var dirty := HasDirtyRect();
      if !dirty {
        return;
      }
      if singleBlitRefresh {
        rects := [Rect(minDirtX, minDirtY, maxDirtX - minDirtX + 1, maxDirtY - minDirtY + 1)];
      } else {
        var updateRects, i := RefreshRows();
        rects := updateRects[..i];
      }
      ClearDirtyRects();
    }
  }
}
