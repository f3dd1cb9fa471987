/** The board of a "Hey, That's My Fish!" map: which cells of the R x C grid
    belong to each shape, and how the generators walk the grid in row-major
    order, popping one fish count from the end of `pts` for every cell
    inside the shape. */
module FishBoard {
  import opened Outcomes

  /** The three values of `MAP_CHOICES`. */
  datatype Shape = Rectangle | Triangle | Diamond

  /** `(r, c, fish)`, one entry of `_map`. */
  datatype Tile = Tile(r: int, c: int, fish: int)

  /** `MAP_CHOICES`, the names of the shapes, in the order of `Shape`. */
  const MAP_CHOICES: seq<string> := ["RECTANGLE", "TRIANGLE", "DIAMOND"]

  /** The entry of `MAP_CHOICES` that names a shape. */
  function ShapeName(s: Shape): (name: string)
    ensures name in MAP_CHOICES
  {
    match s
    case Rectangle => MAP_CHOICES[0]
    case Triangle => MAP_CHOICES[1]
    case Diamond => MAP_CHOICES[2]
  }

  /** The `type` strings the constructor recognises: exactly the entries of
      `MAP_CHOICES`, each as the shape it names. */
  function ShapeOf(kind: string): (s: Option<Shape>)
    ensures s.Some? <==> kind in MAP_CHOICES
    ensures s.Some? ==> ShapeName(s.value) == kind
  {
    if kind == "RECTANGLE" then Some(Rectangle)
    else if kind == "TRIANGLE" then Some(Triangle)
    else if kind == "DIAMOND" then Some(Diamond)
    else None
  }

  /** `len(range(n))` */
  function Range(n: int): nat
  {
    if n < 0 then 0 else n
  }

  /** Cell (r, c) of a map with R rows takes a fish count from `pts`. */
  predicate InShape(shape: Shape, R: int, r: int, c: int)
  {
    match shape
    case Rectangle => true
    case Triangle => c * 2 > r && c * 2 + r <= R * 2
    case Diamond => c * 2 > r && c * 2 <= r + R * 2
  }

  /** `int(x)` for x = n / 2: the half of n rounded toward zero, so twice
      the result is n itself, or one step closer to 0 than n. */
  function TruncHalf(n: int): (h: int)
    ensures n >= 0 ==> 0 <= n - 2 * h <= 1
    ensures n < 0 ==> 0 <= 2 * h - n <= 1
  {
    if n >= 0 then n / 2 else -((-n) / 2)
  }

  /** `int(R * 1.5 + 1)`, the `C` of a diamond; `R * 1.5 + 1` is (3R + 2) / 2. */
  function DiamondCols(R: int): int
  {
    TruncHalf(3 * R + 2)
  }

  /** The `C` property: R + 1 for a triangle, `int(R * 1.5 + 1)` for a
      diamond, the second size for a rectangle. */
  function Cols(shape: Shape, R: int, C: int): int
  {
    match shape
    case Rectangle => C
    case Triangle => R + 1
    case Diamond => DiamondCols(R)
  }

  /** The `area` each generator asks `_generate_pts` for. */
  function Area(shape: Shape, R: int, C: int): int
  {
    match shape
    case Rectangle => R * C
    case Triangle => R * (R + 1) / 2
    case Diamond => R * R
  }

  /** For R >= 0 the diamond has 3R/2 + 1 columns, rounded down; for
      negative R the truncation goes toward zero, so it rounds up. */
  lemma DiamondColsValue(R: int)
    ensures R >= 0 ==> DiamondCols(R) == 3 * R / 2 + 1
    ensures R < 0 ==> DiamondCols(R) == (3 * R + 3) / 2
  {
  }

  // ----- The walk over the grid -----

  /** The list built so far and what is left of `pts`. */
  datatype Progress = Progress(board: seq<Tile>, pts: seq<int>)

  /** (r, c) is a point the nested loops over n rows and W columns reach:
      before column c of row r, or past the last row. */
  predicate Cursor(n: nat, W: nat, r: int, c: int)
  {
    (0 <= r < n && 0 <= c <= W) || (r == n && c == 0)
  }

  /** One cell: a cell inside the shape gets `pts.pop()`, which raises on
      an empty list; any other cell gets 0. */
  function Visit(shape: Shape, R: int, st: Progress, r: int, c: int): Result<Progress>
  {
    if InShape(shape, R, r, c) then
      if |st.pts| == 0 then Err(IndexError)
      else Ok(Progress(st.board + [Tile(r, c, st.pts[|st.pts| - 1])], st.pts[..|st.pts| - 1]))
    else Ok(Progress(st.board + [Tile(r, c, 0)], st.pts))
  }

  /** The state of the walk over W columns when it reaches (r, c). */
  function FillTo(shape: Shape, R: int, W: nat, pts: seq<int>, r: int, c: int): Result<Progress>
    requires Cursor(Range(R), W, r, c)
    decreases r, c
  {
    if c > 0 then
      match FillTo(shape, R, W, pts, r, c - 1)
      case Err(e) => Err(e)
      case Ok(st) => Visit(shape, R, st, r, c - 1)
    else if r > 0 then FillTo(shape, R, W, pts, r - 1, W)
    else Ok(Progress([], pts))
  }

  /** The list a generator returns for R rows, C columns and the points
      `pts`, or the IndexError of a pop from an empty list. */
  function Board(shape: Shape, R: int, C: int, pts: seq<int>): Result<seq<Tile>>
  {
    match FillTo(shape, R, Range(C), pts, Range(R), 0)
    case Err(e) => Err(e)
    case Ok(st) => Ok(st.board)
  }

  /** The number of cells of row r before column c inside the shape. */
  function RowCount(shape: Shape, R: int, r: int, c: int): nat
  {
    if c <= 0 then 0
    else RowCount(shape, R, r, c - 1) + (if InShape(shape, R, r, c - 1) then 1 else 0)
  }

  /** The number of cells of the first n rows of width W inside the shape. */
  function RowsCount(shape: Shape, R: int, W: nat, n: int): nat
  {
    if n <= 0 then 0 else RowsCount(shape, R, W, n - 1) + RowCount(shape, R, n - 1, W)
  }

  /** The fish counts the tiles inside the shape received, in board order. */
  function Popped(shape: Shape, R: int, tiles: seq<Tile>): seq<int>
  {
    if tiles == [] then []
    else
      var t := tiles[|tiles| - 1];
      Popped(shape, R, tiles[..|tiles| - 1]) + (if InShape(shape, R, t.r, t.c) then [t.fish] else [])
  }

  /** The list backwards. */
  function Reverse(s: seq<int>): (r: seq<int>)
    ensures |r| == |s|
  {
    if s == [] then [] else [s[|s| - 1]] + Reverse(s[..|s| - 1])
  }

  /** Reversing keeps every value and its multiplicity. */
  lemma {:induction false} ReverseMultiset(s: seq<int>)
    ensures multiset(Reverse(s)) == multiset(s)
  {
    if s != [] {
      ReverseMultiset(s[..|s| - 1]);
      assert s == s[..|s| - 1] + [s[|s| - 1]];
    }
  }

  /** One step of the walk keeps the values taken so far at the end of
      `pts`, in the order they were popped, and adds one tile. */
  lemma VisitFacts(shape: Shape, R: int, st: Progress, r: int, c: int, pts: seq<int>)
    requires pts == st.pts + Reverse(Popped(shape, R, st.board))
    ensures Visit(shape, R, st, r, c).Ok? <==> !InShape(shape, R, r, c) || |st.pts| > 0
    ensures Visit(shape, R, st, r, c).Ok? ==>
      var next := Visit(shape, R, st, r, c).value;
      |next.board| == |st.board| + 1 &&
      |next.pts| + (if InShape(shape, R, r, c) then 1 else 0) == |st.pts| &&
      pts == next.pts + Reverse(Popped(shape, R, next.board))
  {
    var next := Visit(shape, R, st, r, c);
    if next.Ok? {
      var t := Tile(r, c, if InShape(shape, R, r, c) then st.pts[|st.pts| - 1] else 0);
      assert next.value.board == st.board + [t];
      PoppedSnoc(shape, R, st.board, t);
      var p := Popped(shape, R, st.board);
      if InShape(shape, R, r, c) {
        var x := st.pts[|st.pts| - 1];
        ReverseSnoc(p, x);
        assert Popped(shape, R, next.value.board) == p + [x];
        assert st.pts == next.value.pts + [x];
        assert pts == next.value.pts + ([x] + Reverse(p));
      } else {
        assert Popped(shape, R, next.value.board) == p + [];
        assert p + [] == p;
      }
    }
  }

  /** One more tile adds its fish count to the values taken exactly when
      it lies inside the shape. */
  lemma PoppedSnoc(shape: Shape, R: int, board: seq<Tile>, t: Tile)
    ensures Popped(shape, R, board + [t]) ==
      Popped(shape, R, board) + (if InShape(shape, R, t.r, t.c) then [t.fish] else [])
  {
    assert (board + [t])[..|board|] == board;
  }

  /** Reversing a list with one more value puts that value first. */
  lemma ReverseSnoc(p: seq<int>, x: int)
    ensures Reverse(p + [x]) == [x] + Reverse(p)
  {
    assert (p + [x])[..|p|] == p;
  }

  /** The cells inside the shape before (r, c) in row-major order. */
  function Before(shape: Shape, R: int, W: nat, r: int, c: int): nat
  {
    RowsCount(shape, R, W, r) + RowCount(shape, R, r, c)
  }

  /** What the walk has done when it reaches (r, c): it got there without an
      IndexError exactly when `pts` holds at least as many values as the
      cells inside the shape before (r, c); then the list has one tile per
      cell visited, `pts` has lost one value per cell inside the shape, and
      the values taken are the end of `pts` in the order they were popped. */
  ghost predicate Walked(shape: Shape, R: int, W: nat, pts: seq<int>, r: int, c: int)
    requires Cursor(Range(R), W, r, c)
  {
    (FillTo(shape, R, W, pts, r, c).Ok? <==> Before(shape, R, W, r, c) <= |pts|) &&
    (FillTo(shape, R, W, pts, r, c).Ok? ==>
      var st := FillTo(shape, R, W, pts, r, c).value;
      |st.board| == r * W + c &&
      |st.pts| + Before(shape, R, W, r, c) == |pts| &&
      pts == st.pts + Reverse(Popped(shape, R, st.board)))
  }

  /** Visiting column c - 1 of row r keeps `Walked`. */
  lemma WalkedColumn(shape: Shape, R: int, W: nat, pts: seq<int>, r: int, c: int)
    requires 0 <= r < Range(R) && 0 < c <= W
    requires Walked(shape, R, W, pts, r, c - 1)
    ensures Walked(shape, R, W, pts, r, c)
  {
    if FillTo(shape, R, W, pts, r, c - 1).Ok? {
      WalkedColumnOk(shape, R, W, pts, r, c);
    } else {
      WalkedColumnErr(shape, R, W, pts, r, c);
    }
  }

  /** After an IndexError the walk stays stopped, and there are still more
      cells inside the shape than values. */
  lemma WalkedColumnErr(shape: Shape, R: int, W: nat, pts: seq<int>, r: int, c: int)
    requires 0 <= r < Range(R) && 0 < c <= W
    requires Walked(shape, R, W, pts, r, c - 1)
    requires FillTo(shape, R, W, pts, r, c - 1).Err?
    ensures Walked(shape, R, W, pts, r, c)
  {
    assert Before(shape, R, W, r, c) >= Before(shape, R, W, r, c - 1);
  }

  /** A visit from a state the walk reached keeps `Walked`. */
  lemma WalkedColumnOk(shape: Shape, R: int, W: nat, pts: seq<int>, r: int, c: int)
    requires 0 <= r < Range(R) && 0 < c <= W
    requires Walked(shape, R, W, pts, r, c - 1)
    requires FillTo(shape, R, W, pts, r, c - 1).Ok?
    ensures Walked(shape, R, W, pts, r, c)
  {
    var prev := FillTo(shape, R, W, pts, r, c - 1).value;
    var inside := if InShape(shape, R, r, c - 1) then 1 else 0;
    assert Before(shape, R, W, r, c) == Before(shape, R, W, r, c - 1) + inside;
    VisitFacts(shape, R, prev, r, c - 1, pts);
    assert |prev.board| + 1 == r * W + c;
  }

  /** Moving from the end of row r - 1 to the start of row r keeps `Walked`. */
  lemma WalkedRow(shape: Shape, R: int, W: nat, pts: seq<int>, r: int)
    requires 0 < r <= Range(R)
    requires Walked(shape, R, W, pts, r - 1, W)
    ensures Walked(shape, R, W, pts, r, 0)
  {
    assert (r - 1) * W + W == r * W;
    assert Before(shape, R, W, r, 0) == Before(shape, R, W, r - 1, W);
  }

  /** The walk has done what `Walked` says at every point it reaches. */
  lemma {:induction false} FillToFacts(shape: Shape, R: int, W: nat, pts: seq<int>, r: int, c: int)
    requires Cursor(Range(R), W, r, c)
    ensures Walked(shape, R, W, pts, r, c)
    decreases r, c
  {
    if c > 0 {
      FillToFacts(shape, R, W, pts, r, c - 1);
      WalkedColumn(shape, R, W, pts, r, c);
    } else if r > 0 {
      FillToFacts(shape, R, W, pts, r - 1, W);
      WalkedRow(shape, R, W, pts, r);
    }
  }

  /** The walk only ever extends the list: when it reaches a later cursor,
      it reached every earlier one, whose list is a prefix of the later. */
  lemma {:induction false} FillToPrefix(shape: Shape, R: int, W: nat, pts: seq<int>, r1: int, c1: int, r2: int, c2: int)
    requires Cursor(Range(R), W, r1, c1) && Cursor(Range(R), W, r2, c2)
    requires r1 < r2 || (r1 == r2 && c1 <= c2)
    requires FillTo(shape, R, W, pts, r2, c2).Ok?
    ensures FillTo(shape, R, W, pts, r1, c1).Ok?
    ensures FillTo(shape, R, W, pts, r1, c1).value.board <= FillTo(shape, R, W, pts, r2, c2).value.board
    decreases r2, c2
  {
    if r1 == r2 && c1 == c2 {
    } else if c2 > 0 {
      FillToPrefix(shape, R, W, pts, r1, c1, r2, c2 - 1);
    } else {
      FillToPrefix(shape, R, W, pts, r1, c1, r2 - 1, W);
    }
  }

  /** The tile the walk adds at (r, c) sits at index r * W + c, carries its
      coordinates, and holds 0 fish when the cell is outside the shape. */
  lemma FillToCell(shape: Shape, R: int, W: nat, pts: seq<int>, r: int, c: int)
    requires 0 <= r < Range(R) && 0 <= c < W
    requires FillTo(shape, R, W, pts, r, c + 1).Ok?
    ensures 0 <= At(W, r, c) < |FillTo(shape, R, W, pts, r, c + 1).value.board|
    ensures var t := FillTo(shape, R, W, pts, r, c + 1).value.board[At(W, r, c)];
      t.r == r && t.c == c && (!InShape(shape, R, r, c) ==> t.fish == 0)
  {
    FillToFacts(shape, R, W, pts, r, c);
  }

  /** The index of cell (r, c) in a row-major list of rows of width W. */
  function At(W: nat, r: int, c: int): int
  {
    r * W + c
  }

  /** A successful walk lists the cells in row-major order, every cell
      once: the tile at index r * W + c is cell (r, c), and a cell outside
      the shape holds 0 fish. */
  lemma BoardCells(shape: Shape, R: int, C: int, pts: seq<int>)
    requires Board(shape, R, C, pts).Ok?
    ensures |Board(shape, R, C, pts).value| == Range(R) * Range(C)
    ensures forall r, c :: 0 <= r < Range(R) && 0 <= c < Range(C) ==>
      0 <= At(Range(C), r, c) < |Board(shape, R, C, pts).value| &&
      Board(shape, R, C, pts).value[At(Range(C), r, c)].r == r &&
      Board(shape, R, C, pts).value[At(Range(C), r, c)].c == c &&
      (!InShape(shape, R, r, c) ==> Board(shape, R, C, pts).value[At(Range(C), r, c)].fish == 0)
  {
    FillToFacts(shape, R, Range(C), pts, Range(R), 0);
    forall r, c | 0 <= r < Range(R) && 0 <= c < Range(C)
      ensures 0 <= At(Range(C), r, c) < |Board(shape, R, C, pts).value| &&
        Board(shape, R, C, pts).value[At(Range(C), r, c)].r == r &&
        Board(shape, R, C, pts).value[At(Range(C), r, c)].c == c &&
        (!InShape(shape, R, r, c) ==> Board(shape, R, C, pts).value[At(Range(C), r, c)].fish == 0)
    {
      BoardCell(shape, R, C, pts, r, c);
    }
  }

  /** The tile of cell (r, c) in a successful walk. */
  lemma BoardCell(shape: Shape, R: int, C: int, pts: seq<int>, r: int, c: int)
    requires Board(shape, R, C, pts).Ok?
    requires 0 <= r < Range(R) && 0 <= c < Range(C)
    ensures 0 <= At(Range(C), r, c) < |Board(shape, R, C, pts).value|
    ensures var t := Board(shape, R, C, pts).value[At(Range(C), r, c)];
      t.r == r && t.c == c && (!InShape(shape, R, r, c) ==> t.fish == 0)
  {
    var W := Range(C);
    FillToPrefix(shape, R, W, pts, r, c + 1, Range(R), 0);
    FillToCell(shape, R, W, pts, r, c);
  }

  // ----- Counting the cells of each shape -----

  /** When the cells of row r inside the shape are the columns lo to hi,
      the first c columns hold as many of them as [0, c) and [lo, hi]
      share. */
  lemma {:induction false} RowCountInterval(shape: Shape, R: int, r: int, c: int, lo: int, hi: int)
    requires 0 <= lo && 0 <= c
    requires forall x :: 0 <= x < c ==> (InShape(shape, R, r, x) <==> lo <= x <= hi)
    ensures RowCount(shape, R, r, c) ==
      var top := if c < hi + 1 then c else hi + 1;
      if top < lo then 0 else top - lo
    decreases c
  {
    if c > 0 {
      RowCountInterval(shape, R, r, c - 1, lo, hi);
    }
  }

  /** Row r of a triangle of R rows and R + 1 columns has R - r cells. */
  lemma TriangleRow(R: int, r: int)
    requires 0 <= r < R
    ensures RowCount(Triangle, R, r, R + 1) == R - r
  {
    var lo, hi := r / 2 + 1, (2 * R - r) / 2;
    forall x | 0 <= x
      ensures InShape(Triangle, R, r, x) <==> lo <= x <= hi
    {
    }
    RowCountInterval(Triangle, R, r, R + 1, lo, hi);
    assert hi - lo + 1 == R - r by {
      if r % 2 == 0 {
        assert r == 2 * (r / 2);
      } else {
        assert r == 2 * (r / 2) + 1;
      }
    }
  }

  /** Row r of a diamond of R rows and `int(R * 1.5 + 1)` columns has R cells. */
  lemma DiamondRow(R: int, r: int)
    requires 0 <= r < R
    ensures RowCount(Diamond, R, r, DiamondCols(R)) == R
  {
    var lo, hi := r / 2 + 1, r / 2 + R;
    forall x | 0 <= x
      ensures InShape(Diamond, R, r, x) <==> lo <= x <= hi
    {
    }
    assert hi + 1 <= DiamondCols(R);
    RowCountInterval(Diamond, R, r, DiamondCols(R), lo, hi);
  }

  /** Every row of a rectangle is full. */
  lemma RectangleRow(R: int, r: int, W: nat)
    ensures RowCount(Rectangle, R, r, W) == W
  {
    RowCountInterval(Rectangle, R, r, W, 0, W - 1);
  }

  /** Twice the cells of the first n triangle rows: n (2R - n + 1). */
  lemma {:induction false} TriangleRows(R: int, n: int)
    requires 0 <= n <= R
    ensures 2 * RowsCount(Triangle, R, R + 1, n) == n * (2 * R - n + 1)
  {
    if n > 0 {
      TriangleRows(R, n - 1);
      TriangleRow(R, n - 1);
    }
  }

  /** The first n diamond rows hold n R cells. */
  lemma {:induction false} DiamondRows(R: int, n: int)
    requires 0 <= n <= R
    ensures RowsCount(Diamond, R, DiamondCols(R), n) == n * R
  {
    if n > 0 {
      DiamondRows(R, n - 1);
      DiamondRow(R, n - 1);
      assert (n - 1) * R + R == n * R;
    }
  }

  /** The first n rows of a rectangle hold n W cells. */
  lemma {:induction false} RectangleRows(R: int, W: nat, n: int)
    requires 0 <= n
    ensures RowsCount(Rectangle, R, W, n) == n * W
  {
    if n > 0 {
      RectangleRows(R, W, n - 1);
      RectangleRow(R, n - 1, W);
    }
  }

  /** The cells inside the shape number exactly the area its generator asks
      `_generate_pts` for: R C for a rectangle, R (R + 1) / 2 for a
      triangle, R R for a diamond; or none, when the grid has no row or no
      column. A non-empty grid asks for a positive area. */
  lemma ShapeCount(shape: Shape, R: int, C: int)
    ensures var W := Range(Cols(shape, R, C));
      RowsCount(shape, R, W, Range(R)) ==
        if Range(R) == 0 || W == 0 then 0 else Area(shape, R, C)
    ensures Range(R) > 0 && Range(Cols(shape, R, C)) > 0 ==> Area(shape, R, C) >= 1
  {
    var W := Range(Cols(shape, R, C));
    if Range(R) > 0 && W > 0 {
      match shape
      case Rectangle => RectangleCount(R, C);
      case Triangle => TriangleCount(R);
      case Diamond => DiamondCount(R);
    } else if W == 0 {
      RowsZeroWidth(shape, R, Range(R));
    }
  }

  /** A rectangle of R >= 1 rows and C >= 1 columns holds R C cells. */
  lemma RectangleCount(R: int, C: int)
    requires R > 0 && C > 0
    ensures RowsCount(Rectangle, R, C, R) == R * C >= 1
  {
    RectangleRows(R, C, R);
  }

  /** A triangle of R >= 1 rows holds R (R + 1) / 2 cells. */
  lemma TriangleCount(R: int)
    requires R > 0
    ensures RowsCount(Triangle, R, R + 1, R) == R * (R + 1) / 2 >= 1
  {
    TriangleRows(R, R);
    assert R * (R + 1) >= 2;
  }

  /** A diamond of R >= 1 rows holds R R cells. */
  lemma DiamondCount(R: int)
    requires R > 0
    ensures RowsCount(Diamond, R, DiamondCols(R), R) == R * R >= 1
  {
    DiamondRows(R, R);
  }

  /** A grid without columns has no cell inside any shape. */
  lemma {:induction false} RowsZeroWidth(shape: Shape, R: int, n: int)
    requires 0 <= n
    ensures RowsCount(shape, R, 0, n) == 0
  {
    if n > 0 {
      RowsZeroWidth(shape, R, n - 1);
    }
  }

  /** The generators never pop an empty list and use every point: given as
      many points as cells inside the shape, the walk succeeds, leaves
      nothing of `pts`, and the tiles inside the shape received the points
      in the reverse of their order in `pts` (the same values, as often). */
  lemma BoardUsesAllPoints(shape: Shape, R: int, C: int, pts: seq<int>)
    requires RowsCount(shape, R, Range(C), Range(R)) == |pts|
    ensures Board(shape, R, C, pts).Ok?
    ensures Popped(shape, R, Board(shape, R, C, pts).value) == Reverse(pts)
    ensures multiset(Popped(shape, R, Board(shape, R, C, pts).value)) == multiset(pts)
  {
    FillToFacts(shape, R, Range(C), pts, Range(R), 0);
    var st := FillTo(shape, R, Range(C), pts, Range(R), 0).value;
    assert st.pts == [];
    assert pts == Reverse(Popped(shape, R, st.board));
    ReverseTwice(Popped(shape, R, st.board));
    ReverseMultiset(pts);
  }

  /** Reversing twice gives the list back. */
  lemma {:induction false} ReverseTwice(s: seq<int>)
    ensures Reverse(Reverse(s)) == s
  {
    if s != [] {
      var init, x := s[..|s| - 1], s[|s| - 1];
      ReverseTwice(init);
      ReverseAppend(x, Reverse(init));
      assert s == init + [x];
    }
  }

  /** Reversing `[x] + s` puts x last. */
  lemma {:induction false} ReverseAppend(x: int, s: seq<int>)
    ensures Reverse([x] + s) == Reverse(s) + [x]
  {
    if s != [] {
      var init, y := s[..|s| - 1], s[|s| - 1];
      ReverseAppend(x, init);
      assert ([x] + s)[..|s|] == [x] + init;
    } else {
      assert ([x] + s)[..0] == [];
    }
  }
}
