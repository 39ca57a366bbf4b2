/** The tile screen: one tile per host, on the grid whose tiles are largest. */
module Tiles {

  import opened Division
  import opened PanelSize

  datatype Grid = Grid(cols: nat, rows: nat, gx: nat, gy: nat)

  function CeilDiv(n: nat, r: nat): nat
    requires r > 0
  {
    (n + r - 1) / r
  }

  /** The side of a tile when `count` of them share `length` LEDs with gutters between. */
  function Side(length: nat, count: nat, gutter: nat): int
    requires count > 0
  {
    (length - (count - 1) * gutter) / count
  }

  function Width(g: Grid): int
    requires g.cols > 0
  {
    Side(PANEL_WIDTH, g.cols, g.gx)
  }

  function Height(g: Grid): int
    requires g.rows > 0
  {
    Side(PANEL_HEIGHT, g.rows, g.gy)
  }

  /** The grids the screen considers for n hosts. */
  predicate Candidate(n: nat, g: Grid)
  {
    && 1 <= g.rows <= PANEL_HEIGHT && 1 <= n && g.cols == CeilDiv(n, g.rows) && 1 <= g.cols <= PANEL_WIDTH
    && g.gx <= 1 && g.gy <= 1 && Width(g) >= 1 && Height(g) >= 1
  }

  /** No worse: larger tiles, or the same area with at least as many gutters. */
  predicate NoWorse(g: Grid, h: Grid)
    requires g.cols > 0 && g.rows > 0 && h.cols > 0 && h.rows > 0
  {
    var a, b := Width(g) * Height(g), Width(h) * Height(h);
    a > b || (a == b && g.gx + g.gy >= h.gx + h.gy)
  }

  /** The search meets g before h. */
  predicate Before(g: Grid, h: Grid)
  {
    g.rows < h.rows || (g.rows == h.rows && g.gx + 2 * g.gy < h.gx + 2 * h.gy)
  }

  /** The best of the candidates with rows below r, or with r rows and gutters below u. */
  ghost predicate BestSoFar(n: nat, best: Grid, found: bool, r: nat, u: nat)
  {
    && (if found then Candidate(n, best) && (best.rows < r || (best.rows == r && best.gx + 2 * best.gy < u)) else best == Grid(1, 1, 0, 0))
    && forall h :: Candidate(n, h) && (h.rows < r || (h.rows == r && h.gx + 2 * h.gy < u)) ==>
      found && NoWorse(best, h) && (Before(h, best) ==> !NoWorse(h, best))
  }

  /** The grid search: the result is the first best candidate, if there is any. */
  method Choose(n: nat) returns (g: Grid, found: bool)
    requires n >= 1
    ensures found ==> Candidate(n, g)
    ensures forall h :: Candidate(n, h) ==> found && NoWorse(g, h) && (Before(h, g) ==> !NoWorse(h, g))
    ensures !found ==> g == Grid(1, 1, 0, 0)
  {
    hide Width, Height, CeilDiv;
    g, found := Grid(1, 1, 0, 0), false;
    var area, gutters := -1, -1;
    for r := 1 to PANEL_HEIGHT + 1
      invariant BestSoFar(n, g, found, r, 0)
      invariant if found then area == Width(g) * Height(g) && gutters == g.gx + g.gy else area == gutters == -1
    {
      var c := CeilDiv(n, r);
      if c > PANEL_WIDTH {
        SkipRow(n, g, found, r);
      } else {
        CeilPositive(n, r);
        for u := 0 to 4
          invariant BestSoFar(n, g, found, r, u)
          invariant if found then area == Width(g) * Height(g) && gutters == g.gx + g.gy else area == gutters == -1
        {
          var h := Grid(c, r, u % 2, u / 2);
          var w, t := Width(h), Height(h);
          if w >= 1 && t >= 1 {
            PositiveArea(w, t);
            if w * t > area || (w * t == area && h.gx + h.gy > gutters) {
              TakeBest(n, g, found, r, u, h);
              area, gutters, g, found := w * t, h.gx + h.gy, h, true;
            } else {
              KeepBest(n, g, found, r, u, h);
            }
          } else {
            KeepBest(n, g, found, r, u, h);
          }
        }
        NextRow(n, g, found, r);
      }
    }
  }

  lemma PositiveArea(w: int, t: int)
    requires w >= 1 && t >= 1
    ensures w * t >= 1
  {
  }

  lemma CeilPositive(n: nat, r: nat)
    requires n >= 1 && r >= 1
    ensures CeilDiv(n, r) >= 1
  {
  }

  lemma SkipRow(n: nat, g: Grid, found: bool, r: nat)
    requires r >= 1 && BestSoFar(n, g, found, r, 0) && CeilDiv(n, r) > PANEL_WIDTH
    ensures BestSoFar(n, g, found, r + 1, 0)
  {
    hide NoWorse, CeilDiv;
  }

  lemma NextRow(n: nat, g: Grid, found: bool, r: nat)
    requires BestSoFar(n, g, found, r, 4)
    ensures BestSoFar(n, g, found, r + 1, 0)
  {
    hide NoWorse, CeilDiv, Width, Height;
  }

  lemma OnlyGrid(n: nat, r: nat, u: nat, h: Grid)
    requires Candidate(n, h) && h.rows == r && h.gx + 2 * h.gy == u < 4
    ensures h == Grid(CeilDiv(n, r), r, u % 2, u / 2)
  {
  }

  lemma KeepBest(n: nat, g: Grid, found: bool, r: nat, u: nat, h: Grid)
    requires BestSoFar(n, g, found, r, u) && r >= 1 && u < 4 && h == Grid(CeilDiv(n, r), r, u % 2, u / 2)
    requires Candidate(n, h) ==> found && NoWorse(g, h)
    ensures BestSoFar(n, g, found, r, u + 1)
  {
    hide NoWorse, CeilDiv, Width, Height;
    forall k | Candidate(n, k) && (k.rows < r || (k.rows == r && k.gx + 2 * k.gy < u + 1))
      ensures found && NoWorse(g, k) && (Before(k, g) ==> !NoWorse(k, g))
    {
      if k.rows == r && k.gx + 2 * k.gy == u {
        OnlyGrid(n, r, u, k);
      }
    }
  }

  lemma TakeBest(n: nat, g: Grid, found: bool, r: nat, u: nat, h: Grid)
    requires BestSoFar(n, g, found, r, u) && r >= 1 && u < 4 && h == Grid(CeilDiv(n, r), r, u % 2, u / 2)
    requires Candidate(n, h) && (found ==> !NoWorse(g, h))
    ensures BestSoFar(n, h, true, r, u + 1)
  {
    hide CeilDiv, Width, Height;
    forall k | Candidate(n, k) && (k.rows < r || (k.rows == r && k.gx + 2 * k.gy < u + 1))
      ensures NoWorse(h, k) && (Before(k, h) ==> !NoWorse(k, h))
    {
      if k.rows == r && k.gx + 2 * k.gy == u {
        OnlyGrid(n, r, u, k);
      }
    }
  }

  // ---- the tiles ----

  /** Where part k of `count` starts when they share `length` LEDs with gutters between. */
  function From(length: nat, count: nat, gutter: nat, k: nat): int
    requires count > 0
  {
    k * (length + gutter) / count
  }

  function To(length: nat, count: nat, gutter: nat, k: nat): int
    requires count > 0
  {
    (k + 1) * (length + gutter) / count - gutter
  }

  datatype Tile = Tile(x0: int, x1: int, y0: int, y1: int)

  function Col(g: Grid, i: nat): nat
    requires g.cols > 0
  {
    i % g.cols
  }

  function Row(g: Grid, i: nat): nat
    requires g.cols > 0
  {
    i / g.cols
  }

  function TileOf(g: Grid, i: nat): Tile
    requires g.cols > 0 && g.rows > 0
  {
    var col, row := Col(g, i), Row(g, i);
    Tile(From(PANEL_WIDTH, g.cols, g.gx, col), To(PANEL_WIDTH, g.cols, g.gx, col),
         From(PANEL_HEIGHT, g.rows, g.gy, row), To(PANEL_HEIGHT, g.rows, g.gy, row))
  }

  predicate Lights(t: Tile, x: int, y: int)
  {
    t.x0 <= x < t.x1 && t.y0 <= y < t.y1
  }

  lemma SidePlus(length: nat, count: nat, gutter: nat)
    requires count > 0
    ensures (length + gutter) / count == Side(length, count, gutter) + gutter
  {
    var rest := length - (count - 1) * gutter;
    assert length + gutter == rest + gutter * count;
    DivShift(rest, gutter, count);
  }

  /** A part is a side long, or one LED more. */
  lemma PartLong(length: nat, count: nat, gutter: nat, k: nat)
    requires k < count
    ensures
      var long := To(length, count, gutter, k) - From(length, count, gutter, k);
      Side(length, count, gutter) <= long <= Side(length, count, gutter) + 1
  {
    hide Side;
    SidePlus(length, count, gutter);
    OnePart(k, length + gutter, count);
  }

  lemma OnePart(k: nat, m: nat, count: nat)
    requires count > 0
    ensures m / count <= (k + 1) * m / count - k * m / count <= m / count + 1
  {
    var x := k * m;
    assert (k + 1) * m == x + m;
    DivAdds(x, m, count);
    DivAddsAtMost(x, m, count);
  }

  /** The first part starts at the edge and is exactly a side long; the last ends at the other edge. */
  lemma PartEnds(length: nat, count: nat, gutter: nat)
    requires count > 0
    ensures From(length, count, gutter, 0) == 0 && To(length, count, gutter, 0) == Side(length, count, gutter)
    ensures To(length, count, gutter, count - 1) == length
  {
    hide Side;
    SidePlus(length, count, gutter);
    WholeLength(length + gutter, count);
  }

  lemma WholeLength(m: nat, count: nat)
    requires count > 0
    ensures 0 * m / count == 0 && (0 + 1) * m / count == m / count && (count - 1 + 1) * m / count == m
  {
    DivExact(m, count);
    assert (count - 1 + 1) * m == m * count;
  }

  /** Later parts start behind earlier ones, with at least the gutter between. */
  lemma PartsInOrder(length: nat, count: nat, gutter: nat, j: nat, k: nat)
    requires j < k < count
    ensures To(length, count, gutter, j) + gutter <= From(length, count, gutter, k)
  {
    var m := length + gutter;
    MulMonotone(j + 1, k, m);
    DivMonotone((j + 1) * m, k * m, count);
  }

  lemma PartInside(length: nat, count: nat, gutter: nat, k: nat)
    requires k < count
    ensures 0 <= From(length, count, gutter, k) && To(length, count, gutter, k) <= length
  {
    var m := length + gutter;
    MulMonotone(0, k, m);
    DivAtLeast(k * m, count, 0);
    MulMonotone(k + 1, count, m);
    DivMonotone((k + 1) * m, m * count, count);
    DivExact(m, count);
  }

  /** Two parts that share a place are the same part. */
  lemma PartsMeet(length: nat, count: nat, gutter: nat, j: nat, k: nat, x: int)
    requires j < count && k < count
    requires From(length, count, gutter, j) <= x < To(length, count, gutter, j)
    requires From(length, count, gutter, k) <= x < To(length, count, gutter, k)
    ensures j == k
  {
    var m := length + gutter;
    if j < k {
      MulMonotone(j + 1, k, m);
      DivMonotone((j + 1) * m, k * m, count);
    } else if k < j {
      MulMonotone(k + 1, j, m);
      DivMonotone((k + 1) * m, j * m, count);
    }
  }

  lemma CeilCovers(n: nat, r: nat)
    requires r > 0
    ensures n <= CeilDiv(n, r) * r
  {
    DivBounds(n + r - 1, r);
  }

  lemma RowBelow(n: nat, i: nat, cols: nat, rows: nat)
    requires cols > 0 && i < n <= rows * cols
    ensures i % cols < cols && i / cols < rows
  {
    DivBelow(i, cols, rows);
  }

  lemma PlaceBelow(n: nat, g: Grid, i: nat)
    requires Candidate(n, g) && i < n
    ensures Col(g, i) < g.cols && Row(g, i) < g.rows
  {
    hide CeilDiv, Width, Height;
    CeilCovers(n, g.rows);
    RowBelow(n, i, g.cols, g.rows);
  }

  /** Each host's tile is as large as the grid promises and lies inside the panel. */
  lemma TileFits(n: nat, g: Grid, i: nat)
    requires Candidate(n, g) && i < n
    ensures
      var t := TileOf(g, i);
      && 1 <= Width(g) <= t.x1 - t.x0 <= Width(g) + 1 && 1 <= Height(g) <= t.y1 - t.y0 <= Height(g) + 1
      && 0 <= t.x0 && t.x1 <= PANEL_WIDTH && 0 <= t.y0 && t.y1 <= PANEL_HEIGHT
  {
    hide From, To, Side, CeilDiv, Col, Row;
    PlaceBelow(n, g, i);
    var col, row := Col(g, i), Row(g, i);
    PartLong(PANEL_WIDTH, g.cols, g.gx, col);
    PartInside(PANEL_WIDTH, g.cols, g.gx, col);
    PartLong(PANEL_HEIGHT, g.rows, g.gy, row);
    PartInside(PANEL_HEIGHT, g.rows, g.gy, row);
  }

  /** No two hosts share an LED. */
  lemma TilesApart(n: nat, g: Grid, i: nat, j: nat, x: int, y: int)
    requires Candidate(n, g) && i < n && j < n && Lights(TileOf(g, i), x, y) && Lights(TileOf(g, j), x, y)
    ensures i == j
  {
    hide From, To, Width, Height, CeilDiv, Col, Row;
    PlaceBelow(n, g, i);
    PlaceBelow(n, g, j);
    PartsMeet(PANEL_WIDTH, g.cols, g.gx, Col(g, i), Col(g, j), x);
    PartsMeet(PANEL_HEIGHT, g.rows, g.gy, Row(g, i), Row(g, j), y);
    SamePlace(g, i, j);
  }

  /** The first host's tile has exactly the promised size, in the corner; the last column ends at the edge. */
  lemma FirstTileExact(n: nat, g: Grid)
    requires Candidate(n, g)
    ensures TileOf(g, 0) == Tile(0, Width(g), 0, Height(g))
    ensures To(PANEL_WIDTH, g.cols, g.gx, g.cols - 1) == 53 && To(PANEL_HEIGHT, g.rows, g.gy, g.rows - 1) == 11
  {
    hide From, To, Side, CeilDiv;
    PartEnds(PANEL_WIDTH, g.cols, g.gx);
    PartEnds(PANEL_HEIGHT, g.rows, g.gy);
    FirstPlace(g);
  }

  lemma FirstPlace(g: Grid)
    requires g.cols > 0
    ensures Col(g, 0) == 0 && Row(g, 0) == 0
  {
  }

  /** Tiles follow each other as in reading: to the right on the same line, or on a lower one. */
  lemma ReadingOrder(n: nat, g: Grid, i: nat, j: nat)
    requires Candidate(n, g) && i < j < n
    ensures
      var a, b := TileOf(g, i), TileOf(g, j);
      (a.y0 == b.y0 && a.y1 == b.y1 && a.x1 + g.gx <= b.x0) || a.y1 + g.gy <= b.y0
  {
    hide From, To, Width, Height, CeilDiv, Col, Row;
    PlaceBelow(n, g, i);
    PlaceBelow(n, g, j);
    PlacesInOrder(g, i, j);
    if Row(g, i) < Row(g, j) {
      PartsInOrder(PANEL_HEIGHT, g.rows, g.gy, Row(g, i), Row(g, j));
    } else {
      PartsInOrder(PANEL_WIDTH, g.cols, g.gx, Col(g, i), Col(g, j));
    }
  }

  lemma PlacesInOrder(g: Grid, i: nat, j: nat)
    requires g.cols > 0 && i < j
    ensures Row(g, i) < Row(g, j) || (Row(g, i) == Row(g, j) && Col(g, i) < Col(g, j))
  {
    var cols := g.cols;
    DivMonotone(i, j, cols);
    assert i == i / cols * cols + i % cols;
    assert j == j / cols * cols + j % cols;
  }

  lemma SamePlace(g: Grid, i: nat, j: nat)
    requires g.cols > 0 && Col(g, i) == Col(g, j) && Row(g, i) == Row(g, j)
    ensures i == j
  {
    var cols := g.cols;
    assert i == i / cols * cols + i % cols;
    assert j == j / cols * cols + j % cols;
  }

  ghost predicate Inside(g: Grid, i: nat)
    requires g.cols > 0 && g.rows > 0
  {
    forall x, y :: Lights(TileOf(g, i), x, y) ==> 0 <= x < PANEL_WIDTH && 0 <= y < PANEL_HEIGHT
  }

  ghost predicate Lit(g: Grid, i: nat)
    requires g.cols > 0 && g.rows > 0
  {
    exists x, y :: Lights(TileOf(g, i), x, y)
  }

  ghost predicate Apart(g: Grid, i: nat, j: nat)
    requires g.cols > 0 && g.rows > 0
  {
    forall x, y :: !(Lights(TileOf(g, i), x, y) && Lights(TileOf(g, j), x, y))
  }

  /** Every host has LEDs of its own, all inside the panel. */
  ghost predicate AllShown(n: nat, g: Grid)
    requires g.cols > 0 && g.rows > 0
  {
    && (forall i: nat :: i < n ==> Lit(g, i) && Inside(g, i))
    && forall i: nat, j: nat :: i < n && j < n && i != j ==> Apart(g, i, j)
  }

  lemma CandidateShows(n: nat, g: Grid)
    requires Candidate(n, g)
    ensures AllShown(n, g)
  {
    hide TileOf, Width, Height, CeilDiv;
    forall i: nat | i < n
      ensures Lit(g, i) && Inside(g, i)
    {
      TileFits(n, g, i);
      assert Lights(TileOf(g, i), TileOf(g, i).x0, TileOf(g, i).y0);
    }
    forall i: nat, j: nat | i < n && j < n && i != j
      ensures Apart(g, i, j)
    {
      forall x, y | Lights(TileOf(g, i), x, y)
        ensures !Lights(TileOf(g, j), x, y)
      {
        if Lights(TileOf(g, j), x, y) {
          TilesApart(n, g, i, j, x, y);
        }
      }
    }
  }

  /** There is a candidate exactly when the hosts number at most one per LED. */
  lemma CandidateIff(n: nat)
    requires n >= 1
    ensures (exists g :: Candidate(n, g)) <==> n <= PANEL_WIDTH * PANEL_HEIGHT
  {
    if n <= PANEL_WIDTH * PANEL_HEIGHT {
      var c := CeilDiv(n, PANEL_HEIGHT);
      DivAtLeast(PANEL_WIDTH, c, 1);
      assert Candidate(n, Grid(c, PANEL_HEIGHT, 0, 0));
    }
    forall g | Candidate(n, g)
      ensures n <= PANEL_WIDTH * PANEL_HEIGHT
    {
      CeilCovers(n, g.rows);
      MulMonotone(g.cols, PANEL_WIDTH, g.rows);
    }
  }

  /** One row and one column put every host but the first outside the panel. */
  lemma FallbackHides(n: nat)
    requires n >= 2
    ensures !AllShown(n, Grid(1, 1, 0, 0))
  {
    var g := Grid(1, 1, 0, 0);
    var t := TileOf(g, 1);
    assert t.x0 == 0 && t.x1 == 53 && t.y0 == 11 && t.y1 == 22;
    assert Lights(t, 0, 11);
    assert !Inside(g, 1);
  }

  /** g has the larger tiles, or as large ones and more gutters, or comes first among equals. */
  predicate FirstBest(g: Grid, h: Grid)
    requires g.cols > 0 && g.rows > 0 && h.cols > 0 && h.rows > 0
  {
    var a, b := Width(g) * Height(g), Width(h) * Height(h);
    && a >= b
    && (a == b ==> g.gx + g.gy >= h.gx + h.gy)
    && (a == b && g.gx + g.gy == h.gx + h.gy ==>
          g.rows < h.rows || (g.rows == h.rows && g.gx + 2 * g.gy <= h.gx + 2 * h.gy))
  }

  lemma NoWorseIsBest(g: Grid, h: Grid)
    requires g.cols > 0 && g.rows > 0 && h.cols > 0 && h.rows > 0
    requires NoWorse(g, h) && (Before(h, g) ==> !NoWorse(h, g))
    ensures FirstBest(g, h)
  {
    hide Width, Height;
  }

  lemma NoneToShow()
    ensures AllShown(0, Grid(1, 1, 0, 0))
  {
  }

  /** The screen shows every host exactly when there are at most 583, and then on the best grid. */
  method Show(n: nat) returns (g: Grid, tiles: seq<Tile>)
    ensures g.cols > 0 && g.rows > 0 && |tiles| == n
    ensures forall i :: 0 <= i < n ==> tiles[i] == TileOf(g, i)
    ensures AllShown(n, g) <==> n <= 583
    ensures 1 <= n <= 583 ==> Candidate(n, g) && forall h :: Candidate(n, h) ==> FirstBest(g, h)
  {
    hide AllShown, TileOf, NoWorse, FirstBest;
    if n == 0 {
      NoneToShow();
      return Grid(1, 1, 0, 0), [];
    }
    var found;
    g, found := Choose(n);
    CandidateIff(n);
    if found {
      CandidateShows(n, g);
      forall h | Candidate(n, h) ensures FirstBest(g, h) {
        NoWorseIsBest(g, h);
      }
    } else {
      FallbackHides(n);
    }
    tiles := [];
    for i := 0 to n
      invariant |tiles| == i && forall j :: 0 <= j < i ==> tiles[j] == TileOf(g, j)
    {
      tiles := tiles + [TileOf(g, i)];
    }
  }
}
