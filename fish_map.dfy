/** `MapObject`: a generated "Hey, That's My Fish!" map, its dimensions and
    the split of its tiles between fish counts. */
module FishMap {
  import opened Outcomes
  import opened FishPoints
  import opened FishBoard

  /** `tiles_cnt` for the stored `_ratio`: the sum of `_ratio[1:]`, a
      TypeError when no map, and so no ratio, was generated. For a six-count
      ratio it is the total minus the zeroes. */
  function TilesCount(ratio: Option<seq<int>>): (n: Result<int>)
    ensures n.Err? <==> ratio.None?
    ensures ratio.None? ==> n == Err(TypeError)
    ensures ratio.Some? && |ratio.value| == 6 ==> n == Ok(SumFrom(ratio.value, 0) - ratio.value[0])
  {
    match ratio
    case None => Err(TypeError)
    case Some(r) =>
      if |r| == 6 then SumOfSix(r); Ok(SumFrom(r, 1))
      else Ok(SumFrom(r, 1))
  }

  /** After `_generate_pts(area)` for a positive area, `tiles_cnt` is the
      number of generated points that are not zero: the tiles with fish. */
  lemma TilesCountOfPoints(area: int, zeroPct: int, roll: int, shuffle: seq<int> -> seq<int>)
    requires area >= 1
    requires ZERO_PERCENT_MIN <= zeroPct <= ZERO_PERCENT_MAX && 0 <= roll <= 100
    requires IsShuffle(shuffle)
    ensures TilesCount(Some(Ratio(area, zeroPct, roll))).Ok?
    ensures TilesCount(Some(Ratio(area, zeroPct, roll))).value ==
      |Points(area, zeroPct, roll, shuffle)| - multiset(Points(area, zeroPct, roll, shuffle))[0]
  {
    PointsFacts(area, zeroPct, roll, shuffle);
    TilesCountOfSix(Ratio(area, zeroPct, roll), |Points(area, zeroPct, roll, shuffle)| - multiset(Points(area, zeroPct, roll, shuffle))[0]);
  }

  /** `tiles_cnt` of any six counts that add up to n past the zeroes is n. */
  lemma TilesCountOfSix(r: seq<int>, n: int)
    requires |r| == 6 && SumFrom(r, 1) == n
    ensures TilesCount(Some(r)).Ok? && TilesCount(Some(r)).value == n
  {
  }

  /** The walk over the cells inside the shape leaves zeroes in all others:
      every tile outside the shape holds 0 fish, and every tile inside it
      holds one of the values it took. */
  lemma {:induction false} TilesFish(shape: Shape, R: int, tiles: seq<Tile>, i: int)
    requires 0 <= i < |tiles|
    requires InShape(shape, R, tiles[i].r, tiles[i].c)
    ensures tiles[i].fish in Popped(shape, R, tiles)
  {
    if i < |tiles| - 1 {
      TilesFish(shape, R, tiles[..|tiles| - 1], i);
    }
  }

  /** Every tile outside the shape that the walk adds holds 0 fish. */
  lemma {:induction false} FillToZeroes(shape: Shape, R: int, W: nat, pts: seq<int>, r: int, c: int)
    requires Cursor(Range(R), W, r, c)
    requires FillTo(shape, R, W, pts, r, c).Ok?
    ensures forall i :: 0 <= i < |FillTo(shape, R, W, pts, r, c).value.board| ==>
      var t := FillTo(shape, R, W, pts, r, c).value.board[i];
      !InShape(shape, R, t.r, t.c) ==> t.fish == 0
    decreases r, c
  {
    if c > 0 {
      FillToZeroes(shape, R, W, pts, r, c - 1);
    } else if r > 0 {
      FillToZeroes(shape, R, W, pts, r - 1, W);
    }
  }

  /** An IndexError stops the walk: every later point reports it too. */
  lemma {:induction false} FillToErrorStays(shape: Shape, R: int, W: nat, pts: seq<int>, r1: int, c1: int, r2: int, c2: int)
    requires Cursor(Range(R), W, r1, c1) && Cursor(Range(R), W, r2, c2)
    requires r1 < r2 || (r1 == r2 && c1 <= c2)
    requires FillTo(shape, R, W, pts, r1, c1).Err?
    ensures FillTo(shape, R, W, pts, r2, c2) == FillTo(shape, R, W, pts, r1, c1)
    decreases r2, c2
  {
    if r1 == r2 && c1 == c2 {
    } else if c2 > 0 {
      FillToErrorStays(shape, R, W, pts, r1, c1, r2, c2 - 1);
    } else {
      FillToErrorStays(shape, R, W, pts, r1, c1, r2 - 1, W);
    }
  }

  /** The nested loops of `_generate_rect_map`, `_generate_tri_map` and
      `_generate_diamond_map`: row by row, column by column, a cell inside
      the shape gets `pts.pop()`, any other cell gets 0. */
  method Walk(shape: Shape, R: int, C: int, pts: seq<int>) returns (res: Result<seq<Tile>>)
    ensures res == Board(shape, R, C, pts)
  {
    ghost var W := Range(C);
    var rv: seq<Tile> := [];
    var rest := pts;
    var r := 0;
    while r < R
      invariant 0 <= r <= Range(R)
      invariant FillTo(shape, R, W, pts, r, 0) == Ok(Progress(rv, rest))
    {
      var c := 0;
      while c < C
        invariant 0 <= c <= W
        invariant FillTo(shape, R, W, pts, r, c) == Ok(Progress(rv, rest))
      {
        var fish := 0;
        if InShape(shape, R, r, c) {
          if |rest| == 0 {
            FillToErrorStays(shape, R, W, pts, r, c + 1, Range(R), 0);
            return Err(IndexError);
          }
          fish := rest[|rest| - 1];
          rest := rest[..|rest| - 1];
        }
        rv := rv + [Tile(r, c, fish)];
        c := c + 1;
      }
      r := r + 1;
    }
    return Ok(rv);
  }

  /** A grid with no row or no column inside the shape: the walk takes
      nothing and succeeds whatever `pts` holds. */
  lemma EmptyGridBoard(shape: Shape, R: int, C: int, pts: seq<int>)
    requires RowsCount(shape, R, Range(C), Range(R)) == 0
    ensures Board(shape, R, C, pts).Ok?
    ensures Popped(shape, R, Board(shape, R, C, pts).value) == []
  {
    FillToFacts(shape, R, Range(C), pts, Range(R), 0);
    var st := FillTo(shape, R, Range(C), pts, Range(R), 0).value;
    assert |Reverse(Popped(shape, R, st.board))| == 0;
  }

  /** The tiles of a walk whose taken values are fish counts from 0 to 5
      hold fish counts from 0 to 5 only. */
  lemma TileFishBounds(shape: Shape, R: int, C: int, pts: seq<int>)
    requires Board(shape, R, C, pts).Ok?
    requires forall x :: x in Popped(shape, R, Board(shape, R, C, pts).value) ==> 0 <= x <= MAX_FISH
    ensures forall i :: 0 <= i < |Board(shape, R, C, pts).value| ==>
      0 <= Board(shape, R, C, pts).value[i].fish <= MAX_FISH
  {
    var tiles := Board(shape, R, C, pts).value;
    FillToZeroes(shape, R, Range(C), pts, Range(R), 0);
    forall i | 0 <= i < |tiles|
      ensures 0 <= tiles[i].fish <= MAX_FISH
    {
      if InShape(shape, R, tiles[i].r, tiles[i].c) {
        TilesFish(shape, R, tiles, i);
      }
    }
  }

  /** For the dimensions the constructor uses the generated map never pops
      an empty list. When the grid has a row and a column, `_generate_pts`
      is asked for exactly as many points as there are cells inside the
      shape, and those cells receive all of them, in the reverse of their
      order in `pts`; otherwise no cell takes a point. */
  lemma GeneratedOk(shape: Shape, R: int, C0: int, zeroPct: int, roll: int, shuffle: seq<int> -> seq<int>)
    requires ZERO_PERCENT_MIN <= zeroPct <= ZERO_PERCENT_MAX && 0 <= roll <= 100
    requires IsShuffle(shuffle)
    ensures var C := Cols(shape, R, C0);
      var pts := Points(Area(shape, R, C), zeroPct, roll, shuffle);
      Board(shape, R, C, pts).Ok? &&
      (Range(R) > 0 && Range(C) > 0 ==>
        Area(shape, R, C) >= 1 && |pts| == Area(shape, R, C) &&
        Popped(shape, R, Board(shape, R, C, pts).value) == Reverse(pts)) &&
      (Range(R) == 0 || Range(C) == 0 ==>
        Popped(shape, R, Board(shape, R, C, pts).value) == [])
  {
    var C := Cols(shape, R, C0);
    var area := Area(shape, R, C);
    var pts := Points(area, zeroPct, roll, shuffle);
    ShapeCount(shape, R, C0);
    assert area == Area(shape, R, C0);
    if Range(R) > 0 && Range(C) > 0 {
      PointsFacts(area, zeroPct, roll, shuffle);
      BoardUsesAllPoints(shape, R, C, pts);
    } else {
      EmptyGridBoard(shape, R, C, pts);
    }
  }

  /** The points, popped from the end, are fish counts from 0 to 5. */
  lemma PointValues(area: int, zeroPct: int, roll: int, shuffle: seq<int> -> seq<int>)
    requires area >= 1
    requires ZERO_PERCENT_MIN <= zeroPct <= ZERO_PERCENT_MAX && 0 <= roll <= 100
    requires IsShuffle(shuffle)
    ensures forall x :: x in Reverse(Points(area, zeroPct, roll, shuffle)) ==> 0 <= x <= MAX_FISH
  {
    var pts := Points(area, zeroPct, roll, shuffle);
    PointsFacts(area, zeroPct, roll, shuffle);
    ReverseMultiset(pts);
    forall x | x in Reverse(pts)
      ensures 0 <= x <= MAX_FISH
    {
      assert x in multiset(Reverse(pts));
      var j :| 0 <= j < |pts| && pts[j] == x;
    }
  }

  /** Every tile of a generated map holds a fish count from 0 to 5 (an
      index into `FISH_COLORS`), 0 outside the shape. */
  lemma GeneratedFish(shape: Shape, R: int, C0: int, zeroPct: int, roll: int, shuffle: seq<int> -> seq<int>)
    requires ZERO_PERCENT_MIN <= zeroPct <= ZERO_PERCENT_MAX && 0 <= roll <= 100
    requires IsShuffle(shuffle)
    ensures var C := Cols(shape, R, C0);
      var pts := Points(Area(shape, R, C), zeroPct, roll, shuffle);
      Board(shape, R, C, pts).Ok? &&
      forall i :: 0 <= i < |Board(shape, R, C, pts).value| ==>
        0 <= Board(shape, R, C, pts).value[i].fish <= MAX_FISH
  {
    var C := Cols(shape, R, C0);
    var area := Area(shape, R, C);
    var pts := Points(area, zeroPct, roll, shuffle);
    GeneratedOk(shape, R, C0, zeroPct, roll, shuffle);
    var taken := Popped(shape, R, Board(shape, R, C, pts).value);
    if Range(R) > 0 && Range(C) > 0 {
      PointValues(area, zeroPct, roll, shuffle);
      assert taken == Reverse(pts);
    } else {
      assert taken == [];
    }
    TileFishBounds(shape, R, C, pts);
  }

  /** A generated map. */
  class MapObject {
    /** `size`: the rows and the columns asked for. */
    var size: (int, int)
    /** `type`: "RECTANGLE", "TRIANGLE", "DIAMOND", or anything else. */
    var kind: string
    /** `_ratio`: the fish counts of the last generated points. */
    var ratio: Option<seq<int>>
    /** `_map`: the list of tiles, `None` for an unknown type. */
    var board: Option<seq<Tile>>

    /** The `R` property. */
    function R(): int
      reads this
    {
      size.0
    }

    /** The `C` property: decided by the type, the second size otherwise. */
    function C(): (c: int)
      reads this
      ensures kind == "TRIANGLE" ==> c == R() + 1
      ensures kind == "DIAMOND" ==> c == DiamondCols(R())
      ensures kind != "TRIANGLE" && kind != "DIAMOND" ==> c == size.1
    {
      match ShapeOf(kind)
      case Some(s) => Cols(s, R(), size.1)
      case None => size.1
    }

    /** The `tiles_cnt` property. */
    function TilesCnt(): Result<int>
      reads this
    {
      TilesCount(ratio)
    }

    /** `_generate_pts(area)` with the draws `randint(1, 10)`,
        `randint(0, 100)` and the shuffle given: stores the counts in
        `_ratio` and returns the shuffled points. */
    method GeneratePts(area: int, zeroPct: int, roll: int, shuffle: seq<int> -> seq<int>) returns (pts: seq<int>)
      modifies this
      ensures ratio == Some(Ratio(area, zeroPct, roll)) && pts == Points(area, zeroPct, roll, shuffle)
      ensures size == old(size) && kind == old(kind) && board == old(board)
    {
      var counts := Ratio(area, zeroPct, roll);
      pts := shuffle(Unshuffled(counts));
      ratio := Some(counts);
    }

    /** One of `_generate_rect_map`, `_generate_tri_map` and
        `_generate_diamond_map`: asks for the area of the shape, then walks
        the R x C grid. */
    method GenerateMap(shape: Shape, zeroPct: int, roll: int, shuffle: seq<int> -> seq<int>) returns (res: Result<seq<Tile>>)
      modifies this
      ensures ratio == Some(Ratio(Area(shape, R(), C()), zeroPct, roll))
      ensures res == Board(shape, R(), C(), Points(Area(shape, R(), C()), zeroPct, roll, shuffle))
      ensures size == old(size) && kind == old(kind) && board == old(board)
    {
      var rows, cols := R(), C();
      var area := match shape
        case Rectangle => rows * cols
        case Triangle => rows * (rows + 1) / 2
        case Diamond => rows * rows;
      var pts := GeneratePts(area, zeroPct, roll, shuffle);
      res := Walk(shape, rows, cols, pts);
    }

    /** `self._map = self._generate_..._map()` for the shape of the type:
        the generated map is always a full list of tiles. */
    method Install(shape: Shape, zeroPct: int, roll: int, shuffle: seq<int> -> seq<int>)
      requires ShapeOf(kind) == Some(shape)
      requires ZERO_PERCENT_MIN <= zeroPct <= ZERO_PERCENT_MAX && 0 <= roll <= 100
      requires IsShuffle(shuffle)
      modifies this
      ensures size == old(size) && kind == old(kind)
      ensures var cols := Cols(shape, size.0, size.1);
        ratio == Some(Ratio(Area(shape, size.0, cols), zeroPct, roll)) &&
        board.Some? &&
        Board(shape, size.0, cols, Points(Area(shape, size.0, cols), zeroPct, roll, shuffle)) == Ok(board.value)
    {
      ghost var cols := Cols(shape, size.0, size.1);
      assert R() == size.0 && C() == cols;
      GeneratedOk(shape, size.0, size.1, zeroPct, roll, shuffle);
      var res := GenerateMap(shape, zeroPct, roll, shuffle);
      board := Some(res.value);
    }

    /** `MapObject(type, size)`: the three known types generate their map;
        any other type leaves `_map` and `_ratio` as `None`. */
    constructor(kind: string, size: (int, int), zeroPct: int, roll: int, shuffle: seq<int> -> seq<int>)
      requires ZERO_PERCENT_MIN <= zeroPct <= ZERO_PERCENT_MAX && 0 <= roll <= 100
      requires IsShuffle(shuffle)
      ensures this.size == size && this.kind == kind
      ensures ShapeOf(kind).None? ==> board.None? && ratio.None?
      ensures ShapeOf(kind).Some? ==>
        var s := ShapeOf(kind).value;
        var cols := Cols(s, size.0, size.1);
        var pts := Points(Area(s, size.0, cols), zeroPct, roll, shuffle);
        ratio == Some(Ratio(Area(s, size.0, cols), zeroPct, roll)) &&
        board.Some? && Board(s, size.0, cols, pts) == Ok(board.value)
    {
      this.size := size;
      this.kind := kind;
      ratio := None;
      board := None;
      new;
      var shape := ShapeOf(kind);
      if shape.Some? {
        Install(shape.value, zeroPct, roll, shuffle);
      }
    }
  }
}
