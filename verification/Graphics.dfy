/** Lines and circles of the graphics layer, drawn pixel by pixel into a frame buffer. */
module Graphics {
  import opened NonLinear

  datatype Point = Point(x: int, y: int)

  /** A pixel of the frame buffer, 16 bits wide. */
  type Color = c: int | 0 <= c < 0x10000

  predicate Fits16(v: int) {
    -0x8000 <= v < 0x8000
  }

  function Abs(v: int): nat {
    if v < 0 then -v else v
  }

  // ---------------------------------------------------------------- the frame buffer

  predicate OnScreen(width: nat, height: nat, p: Point) {
    0 <= p.x < width && 0 <= p.y < height
  }

  /** Where a pixel lies in the frame buffer. */
  function Cell(width: nat, p: Point): int {
    p.x + p.y * width
  }

  lemma CellInBuffer(width: nat, height: nat, p: Point)
    requires OnScreen(width, height, p)
    ensures 0 <= Cell(width, p) < width * height
  {
    RowCell(width, p.y, p.x, height);
  }

  lemma CellsDiffer(width: nat, height: nat, p: Point, q: Point)
    requires OnScreen(width, height, p) && OnScreen(width, height, q)
    ensures Cell(width, p) == Cell(width, q) <==> p == q
  {
    RowCell(width, p.y, p.x, height);
    RowCell(width, q.y, q.x, height);
  }

  /** A canvas whose colours are opaque, as they are in the frame buffer. */
  class Canvas {
    const width: nat
    const height: nat
    const framebuffer: array<Color>
    /** All pixels that have been asked for, on the screen or off it. */
    ghost var plotted: seq<Point>

    ghost predicate Valid() {
      framebuffer.Length == width * height
    }

    constructor (width: nat, height: nat, framebuffer: array<Color>)
      requires framebuffer.Length == width * height
      ensures Valid() && this.width == width && this.height == height && this.framebuffer == framebuffer && plotted == []
    {
      this.width, this.height, this.framebuffer := width, height, framebuffer;
      plotted := [];
    }

    method SetPixel(p: Point, color: Color)
      requires Valid()
      modifies this, framebuffer
      ensures plotted == old(plotted) + [p]
      ensures Drawn(width, height, old(framebuffer[..]), framebuffer[..], [p], color)
      ensures RowByRow(width, old(framebuffer[..]), framebuffer[..], [p], color)
    {
      hide Drawn, Cell, RowByRow;
      plotted := plotted + [p];
      ghost var was := framebuffer[..];
      if p.x >= width || p.y >= height || p.x < 0 || p.y < 0 {
        NothingDrawn(width, height, was, p, color);
        DrawnRowByRow(width, height, was, was, [p], color);
        return;
      }
      CellInBuffer(width, height, p);
      framebuffer[Cell(width, p)] := color;
      assert framebuffer[..] == was[Cell(width, p) := color];
      CellDrawn(width, height, was, p, color);
      DrawnRowByRow(width, height, was, framebuffer[..], [p], color);
    }

    /** Every point of the line gets the colour, and nothing else changes. */
    method DrawLine(start: Point, end: Point, color: Color)
      requires Valid() && Drawable(start, end)
      modifies this, framebuffer
      ensures plotted == old(plotted) + Line(start, end)
      ensures Drawn(width, height, old(framebuffer[..]), framebuffer[..], Line(start, end), color)
      ensures RowByRow(width, old(framebuffer[..]), framebuffer[..], Line(start, end), color)
    {
      hide Drawn, RowByRow, OnTrack, Points, PlainPoint, Ordered, Drawable;
      ghost var was, before := framebuffer[..], plotted;
      var steep := Abs(end.y - start.y) > Abs(end.x - start.x);
      var a, b := start, end;
      if steep {
        a, b := Point(a.y, a.x), Point(b.y, b.x);
      }
      if a.x > b.x {
        a, b := b, a;
      }
      OrderedIs(start, end, a, b);
      var dx, dy := b.x - a.x, Abs(b.y - a.y);
      var err := dx / 2;
      var yStep := if a.y < b.y then 1 else -1;
      var p := a;
      ghost var i := 0;
      NoPoints(width, height, was, color);
      LineBegins(start, end, dx, dy);
      PlainEnds(a, b);
      while p.x <= b.x
        invariant 0 <= i <= dx + 1 && p == PlainPoint(a, b, i) && p.x == a.x + i && OnTrack(i, dx, dy, err)
        invariant plotted == before + Points(start, end, i)
        invariant Drawn(width, height, was, framebuffer[..], Points(start, end, i), color)
      {
        ghost var now := framebuffer[..];
        var pos := if steep then Point(p.y, p.x) else p;
        SetPixel(pos, color);
        LineGoesOn(start, end, a, b, i);
        DrawnMore(width, height, was, now, framebuffer[..], Points(start, end, i), [pos], color);
        PlainStep(a, b, i, err);
        err := err - dy;
        if err < 0 {
          p := Point(p.x, p.y + yStep);
          err := err + dx;
        }
        p := Point(p.x + 1, p.y);
        i := i + 1;
      }
      DrawnRowByRow(width, height, was, framebuffer[..], Line(start, end), color);
    }

    /** The four points on the axes and the eight images of every offset get the colour, and nothing else changes. */
    method DrawCircle(start: Point, r: nat, color: Color) returns (ghost arc: seq<Point>)
      requires Valid() && r <= 0x4000
      requires Fits16(start.x - r) && Fits16(start.x + r) && Fits16(start.y - r) && Fits16(start.y + r)
      modifies this, framebuffer
      ensures IsArc(r, arc)
      ensures plotted == old(plotted) + Circle(start, r, arc)
      ensures Drawn(width, height, old(framebuffer[..]), framebuffer[..], Circle(start, r, arc), color)
      ensures RowByRow(width, old(framebuffer[..]), framebuffer[..], Circle(start, r, arc), color)
    {
      hide Drawn, RowByRow, Circle, Images, Walking, IsArc;
      ghost var was, before := framebuffer[..], plotted;
      var f, ddFx, ddFy := 1 - r, 1, -2 * r;
      var x, y: int := 0, r;
      arc := [];
      DrawAxes(start, r, color);
      ArcBegins(start, r);
      while x < y
        invariant x == |arc| && Walking(r, arc, y, f)
        invariant ddFx == 1 + 2 * x && ddFy == -2 * y
        invariant plotted == before + Circle(start, r, arc)
        invariant Drawn(width, height, was, framebuffer[..], Circle(start, r, arc), color)
        decreases y - x
      {
        ArcStep(r, arc, y, f);
        if f >= 0 {
          y := y - 1;
          ddFy := ddFy + 2;
          f := f + ddFy;
        }
        x := x + 1;
        ddFx := ddFx + 2;
        f := f + ddFx;
        ghost var now := framebuffer[..];
        DrawImages(start, Point(x, y), color);
        DrawnMore(width, height, was, now, framebuffer[..], Circle(start, r, arc), Images(start, Point(x, y)), color);
        CircleOfMore(start, r, arc, Point(x, y));
        assert plotted == before + (Circle(start, r, arc) + Images(start, Point(x, y)));
        arc := arc + [Point(x, y)];
      }
      ArcEnds(r, arc, y, f);
      DrawnRowByRow(width, height, was, framebuffer[..], Circle(start, r, arc), color);
    }

    /** SetPixel after the points ps have been drawn. */
    method Plot(p: Point, color: Color, ghost was: seq<Color>, ghost before: seq<Point>, ghost ps: seq<Point>)
      requires Valid() && plotted == before + ps && Drawn(width, height, was, framebuffer[..], ps, color)
      modifies this, framebuffer
      ensures plotted == before + (ps + [p]) && Drawn(width, height, was, framebuffer[..], ps + [p], color)
    {
      hide Drawn;
      ghost var now := framebuffer[..];
      SetPixel(p, color);
      DrawnMore(width, height, was, now, framebuffer[..], ps, [p], color);
      assert before + ps + [p] == before + (ps + [p]);
    }

    method DrawAxes(start: Point, r: nat, color: Color)
      requires Valid()
      modifies this, framebuffer
      ensures plotted == old(plotted) + Axes(start, r)
      ensures Drawn(width, height, old(framebuffer[..]), framebuffer[..], Axes(start, r), color)
    {
      hide Drawn;
      ghost var was, before, ps := framebuffer[..], plotted, Axes(start, r);
      NoPoints(width, height, was, color);
      var pos := Point(start.x, start.y + r);
      Plot(pos, color, was, before, []);
      assert [] + [ps[0]] == ps[..1];
      pos := Point(pos.x, pos.y - 2 * r);
      Plot(pos, color, was, before, ps[..1]);
      pos := Point(pos.x + r, pos.y + r);
      assert ps[..1] + [ps[1]] == ps[..2];
      Plot(pos, color, was, before, ps[..2]);
      pos := Point(pos.x - 2 * r, pos.y);
      assert ps[..2] + [ps[2]] == ps[..3];
      Plot(pos, color, was, before, ps[..3]);
      assert ps[..3] + [ps[3]] == ps;
    }

    method DrawImages(start: Point, p: Point, color: Color)
      requires Valid()
      modifies this, framebuffer
      ensures plotted == old(plotted) + Images(start, p)
      ensures Drawn(width, height, old(framebuffer[..]), framebuffer[..], Images(start, p), color)
    {
      hide Drawn;
      ghost var was, before, ps := framebuffer[..], plotted, Images(start, p);
      NoPoints(width, height, was, color);
      Plot(Point(start.x + p.x, start.y + p.y), color, was, before, []);
      assert [] + [ps[0]] == ps[..1];
      Plot(Point(start.x - p.x, start.y + p.y), color, was, before, ps[..1]);
      assert ps[..1] + [ps[1]] == ps[..2];
      Plot(Point(start.x + p.x, start.y - p.y), color, was, before, ps[..2]);
      assert ps[..2] + [ps[2]] == ps[..3];
      Plot(Point(start.x - p.x, start.y - p.y), color, was, before, ps[..3]);
      assert ps[..3] + [ps[3]] == ps[..4];
      Plot(Point(start.x + p.y, start.y + p.x), color, was, before, ps[..4]);
      assert ps[..4] + [ps[4]] == ps[..5];
      Plot(Point(start.x - p.y, start.y + p.x), color, was, before, ps[..5]);
      assert ps[..5] + [ps[5]] == ps[..6];
      Plot(Point(start.x + p.y, start.y - p.x), color, was, before, ps[..6]);
      assert ps[..6] + [ps[6]] == ps[..7];
      Plot(Point(start.x - p.y, start.y - p.x), color, was, before, ps[..7]);
      assert ps[..7] + [ps[7]] == ps;
    }
  }

  /** The buffer now is the one before with the colour at the points that are on the screen. */
  ghost predicate Drawn(width: nat, height: nat, was: seq<Color>, now: seq<Color>, ps: seq<Point>, color: Color) {
    && |was| == |now| == width * height
    && forall q {:trigger Cell(width, q)} | OnScreen(width, height, q) ::
         0 <= Cell(width, q) < |was| && now[Cell(width, q)] == if q in ps then color else was[Cell(width, q)]
  }

  /** The buffer holds the screen row by row, and in it the pixels of ps have the colour now, and all others what they had. */
  ghost predicate RowByRow(width: nat, was: seq<Color>, now: seq<Color>, ps: seq<Point>, color: Color) {
    |now| == |was| &&
    forall k {:trigger now[k]} | 0 <= k < |was| && width > 0 :: now[k] == if Point(k % width, k / width) in ps then color else was[k]
  }

  lemma DrawnRowByRow(width: nat, height: nat, was: seq<Color>, now: seq<Color>, ps: seq<Point>, color: Color)
    requires Drawn(width, height, was, now, ps, color)
    ensures RowByRow(width, was, now, ps, color)
  {
    forall k | 0 <= k < |was| && width > 0
      ensures now[k] == if Point(k % width, k / width) in ps then color else was[k]
    {
      CellOfIndex(width, height, k);
      hide OnScreen, Cell;
      var q := Point(k % width, k / width);
      assert now[Cell(width, q)] == if q in ps then color else was[Cell(width, q)];
    }
  }

  lemma CellOfIndex(width: nat, height: nat, k: nat)
    requires width > 0 && k < width * height
    ensures OnScreen(width, height, Point(k % width, k / width)) && Cell(width, Point(k % width, k / width)) == k
  {
    RowOf(width, k, height);
  }

  lemma NothingDrawn(width: nat, height: nat, was: seq<Color>, p: Point, color: Color)
    requires |was| == width * height && !OnScreen(width, height, p)
    ensures Drawn(width, height, was, was, [p], color)
  {
    hide Cell;
    forall q | OnScreen(width, height, q)
      ensures 0 <= Cell(width, q) < |was|
    {
      CellInBuffer(width, height, q);
    }
  }

  lemma CellDrawn(width: nat, height: nat, was: seq<Color>, p: Point, color: Color)
    requires |was| == width * height && OnScreen(width, height, p) && 0 <= Cell(width, p) < |was|
    ensures Drawn(width, height, was, was[Cell(width, p) := color], [p], color)
  {
    hide Cell;
    var now := was[Cell(width, p) := color];
    forall q | OnScreen(width, height, q)
      ensures 0 <= Cell(width, q) < |was| && now[Cell(width, q)] == if q in [p] then color else was[Cell(width, q)]
    {
      CellInBuffer(width, height, q);
      CellsDiffer(width, height, p, q);
    }
  }

  lemma NoPoints(width: nat, height: nat, was: seq<Color>, color: Color)
    requires |was| == width * height
    ensures Drawn(width, height, was, was, [], color)
  {
    forall q | OnScreen(width, height, q)
      ensures 0 <= Cell(width, q) < |was|
    {
      CellInBuffer(width, height, q);
    }
  }

  lemma DrawnMore(width: nat, height: nat, was: seq<Color>, now: seq<Color>, next: seq<Color>, ps: seq<Point>,
                  qs: seq<Point>, color: Color)
    requires Drawn(width, height, was, now, ps, color) && Drawn(width, height, now, next, qs, color)
    ensures Drawn(width, height, was, next, ps + qs, color)
  {
  }

  // ---------------------------------------------------------------- lines

  predicate Drawable(start: Point, end: Point) {
    && Fits16(start.x) && Fits16(start.y) && Fits16(start.x + 1) && Fits16(start.y + 1)
    && Fits16(end.x) && Fits16(end.y) && Fits16(end.x + 1) && Fits16(end.y + 1)
    && Fits16(end.x - start.x) && Fits16(end.y - start.y) && Fits16(start.x - end.x) && Fits16(start.y - end.y)
  }

  predicate Steep(start: Point, end: Point) {
    Abs(end.y - start.y) > Abs(end.x - start.x)
  }

  function Transposed(p: Point): Point {
    Point(p.y, p.x)
  }

  /** From left to right and not steep. */
  predicate Plain(a: Point, b: Point) {
    a.x <= b.x && Abs(b.y - a.y) <= b.x - a.x
  }

  function Ordered(start: Point, end: Point): (r: (Point, Point))
    ensures Plain(r.0, r.1)
  {
    var (a, b) := if Steep(start, end) then (Transposed(start), Transposed(end)) else (start, end);
    if a.x > b.x then (b, a) else (a, b)
  }

  /** n / p rounded to the nearest number, halves down. */
  function Rounded(n: nat, p: nat): nat
    requires p > 0
  {
    (n + (p - 1) / 2) / p
  }

  /** How far the line has gone along the shorter side: i * dy / dx, rounded. */
  function Minor(i: nat, dx: nat, dy: nat): nat {
    if dx == 0 then 0 else Rounded(i * dy, dx)
  }

  /** The i-th point of a line from left to right. */
  function PlainPoint(a: Point, b: Point, i: nat): Point
    requires Plain(a, b)
  {
    var m := Minor(i, b.x - a.x, Abs(b.y - a.y));
    Point(a.x + i, if a.y < b.y then a.y + m else a.y - m)
  }

  function LinePoint(start: Point, end: Point, i: nat): Point {
    var (a, b) := Ordered(start, end);
    if Steep(start, end) then Transposed(PlainPoint(a, b, i)) else PlainPoint(a, b, i)
  }

  function Points(start: Point, end: Point, n: nat): (r: seq<Point>)
    ensures |r| == n
  {
    seq(n, i requires 0 <= i < n => LinePoint(start, end, i))
  }

  function Length(start: Point, end: Point): nat {
    var (a, b) := Ordered(start, end);
    b.x - a.x
  }

  function Line(start: Point, end: Point): seq<Point> {
    Points(start, end, Length(start, end) + 1)
  }

  lemma OrderedIs(start: Point, end: Point, a: Point, b: Point)
    requires var (s, e) := if Steep(start, end) then (Transposed(start), Transposed(end)) else (start, end);
             if s.x > e.x then a == e && b == s else a == s && b == e
    ensures Ordered(start, end) == (a, b) && Plain(a, b)
  {
  }

  /** The error accumulator before the i-th point. */
  predicate OnTrack(i: nat, dx: nat, dy: nat, err: int) {
    if dx == 0 then err == 0 else err == dx / 2 - i * dy + Minor(i, dx, dy) * dx && 0 <= err < dx
  }

  lemma LineBegins(start: Point, end: Point, dx: nat, dy: nat)
    ensures Points(start, end, 0) == [] && Minor(0, dx, dy) == 0 && OnTrack(0, dx, dy, dx / 2)
  {
    if dx > 0 {
      DivMod(dx, 0, (dx - 1) / 2);
    }
  }

  lemma LineGoesOn(start: Point, end: Point, a: Point, b: Point, i: nat)
    requires Ordered(start, end) == (a, b)
    ensures var p := PlainPoint(a, b, i);
            Points(start, end, i + 1) == Points(start, end, i) + [if Steep(start, end) then Point(p.y, p.x) else p]
  {
    hide Minor;
  }

  /** The error accumulator is the remainder of the division. */
  lemma MinorIs(i: nat, dx: nat, dy: nat, m: int, err: int)
    requires dx > 0 && 0 <= err < dx && err == dx / 2 - i * dy + m * dx
    ensures Minor(i, dx, dy) == m
  {
    var n := i * dy + (dx - 1) / 2;
    assert n == dx * m + (dx - 1 - err);
    DivisionIsUnique(dx, m, dx - 1 - err, n / dx, n % dx);
  }

  lemma MinorStep(i: nat, dx: nat, dy: nat, err: int)
    requires dy <= dx && OnTrack(i, dx, dy, err)
    ensures if err - dy < 0 then Minor(i + 1, dx, dy) == Minor(i, dx, dy) + 1 && OnTrack(i + 1, dx, dy, err - dy + dx)
            else Minor(i + 1, dx, dy) == Minor(i, dx, dy) && OnTrack(i + 1, dx, dy, err - dy)
  {
    hide Minor;
    if dx > 0 {
      var m := if err - dy < 0 then Minor(i, dx, dy) + 1 else Minor(i, dx, dy);
      var e := if err - dy < 0 then err - dy + dx else err - dy;
      MulSplits(dx, m, Minor(i, dx, dy));
      assert (i + 1) * dy == i * dy + dy;
      MinorIs(i + 1, dx, dy, m, e);
    } else {
      MinorOfNothing(i, dy);
      MinorOfNothing(i + 1, dy);
    }
  }

  lemma MinorOfNothing(i: nat, dy: nat)
    ensures Minor(i, 0, dy) == 0
  {
  }

  /** The rounding is to the nearest number: twice the product stays within one divisor of twice the exact value. */
  lemma MinorIsNear(i: nat, dx: nat, dy: nat)
    requires dy <= dx
    ensures 2 * Abs(dx * Minor(i, dx, dy) - i * dy) <= dx
  {
    if dx > 0 {
      RoundedIsNear(i * dy, dx);
    }
  }

  lemma RoundedIsNear(n: nat, dx: nat)
    requires dx > 0
    ensures 2 * Abs(dx * Rounded(n, dx) - n) <= dx
  {
    var h := (dx - 1) / 2;
    assert n + h == dx * ((n + h) / dx) + (n + h) % dx;
  }

  /** It is the one number so near, and of two that are equally near the smaller. */
  lemma MinorExactlyIf(i: nat, dx: nat, dy: nat, m: nat)
    requires dx > 0
    ensures m == Minor(i, dx, dy) <==> 2 * (dx * m - i * dy) < dx && 2 * (i * dy - dx * m) <= dx
  {
    var n: int, q := i * dy, Minor(i, dx, dy);
    var r := (n + (dx - 1) / 2) % dx;
    assert n + (dx - 1) / 2 == dx * q + r;
    hide Minor;
    NearestIsUnique(n, dx, q, r, m);
  }

  lemma NearestIsUnique(n: int, dx: nat, q: nat, r: nat, m: nat)
    requires dx > 0 && r < dx && n + (dx - 1) / 2 == dx * q + r
    ensures m == q <==> 2 * (dx * m - n) < dx && 2 * (n - dx * m) <= dx
  {
    var d: int := n - dx * m;
    if 2 * d <= dx && 0 - 2 * d < dx {
      assert 0 <= d + (dx - 1) / 2 < dx;
      DivisionIsUnique(dx, q, r, m, d + (dx - 1) / 2);
    }
  }

  lemma MinorEnds(dx: nat, dy: nat)
    requires dy <= dx
    ensures Minor(dx, dx, dy) == dy
  {
    if dx > 0 {
      DivMod(dx, dy, (dx - 1) / 2);
    }
  }

  /** The cross product of the line with the way to p: its size over the length is the distance from the line. */
  function Cross(a: Point, b: Point, p: Point): int {
    (b.y - a.y) * (p.x - a.x) - (b.x - a.x) * (p.y - a.y)
  }

  lemma CrossTurned(a: Point, b: Point, p: Point)
    ensures Abs(Cross(b, a, p)) == Abs(Cross(a, b, p)) == Abs(Cross(Transposed(a), Transposed(b), Transposed(p)))
  {
    var u, v, x, y := b.x - a.x, b.y - a.y, p.x - a.x, p.y - a.y;
    assert Cross(b, a, p) == (-v) * (x - u) - (-u) * (y - v) == -(v * x - u * y);
    assert Cross(a, b, p) == v * x - u * y;
  }

  lemma PlainEnds(a: Point, b: Point)
    requires Plain(a, b)
    ensures PlainPoint(a, b, 0) == a && PlainPoint(a, b, b.x - a.x) == b
  {
    hide Minor;
    LineBegins(a, b, b.x - a.x, Abs(b.y - a.y));
    MinorEnds(b.x - a.x, Abs(b.y - a.y));
  }

  lemma PlainNear(a: Point, b: Point, i: nat)
    requires Plain(a, b) && i <= b.x - a.x
    ensures 2 * Abs(Cross(a, b, PlainPoint(a, b, i))) <= b.x - a.x
  {
    hide Minor, Cross;
    var dx, v := b.x - a.x, b.y - a.y;
    MinorIsNear(i, dx, Abs(v));
    CrossOfOffset(v, dx, i, Minor(i, dx, Abs(v)));
    CrossIs(a, b, i, Minor(i, dx, Abs(v)));
  }

  function Signed(v: int, m: nat): int {
    if v > 0 then m else 0 - m
  }

  lemma CrossIs(a: Point, b: Point, i: nat, m: nat)
    ensures Cross(a, b, Point(a.x + i, if a.y < b.y then a.y + m else a.y - m))
            == (b.y - a.y) * i - (b.x - a.x) * Signed(b.y - a.y, m)
  {
  }

  /** All that is to be said of a line from left to right. */
  lemma PlainLine(a: Point, b: Point, i: nat)
    requires Plain(a, b) && i <= b.x - a.x
    ensures PlainPoint(a, b, 0) == a && PlainPoint(a, b, b.x - a.x) == b
    ensures PlainPoint(a, b, i).x == a.x + i && PlainPoint(a, b, i + 1).x == a.x + i + 1
    ensures Abs(PlainPoint(a, b, i + 1).y - PlainPoint(a, b, i).y) <= 1
    ensures 2 * Abs(Cross(a, b, PlainPoint(a, b, i))) <= b.x - a.x
  {
    hide Minor, Cross;
    PlainEnds(a, b);
    PlainNear(a, b, i);
    MinorGrows(i, b.x - a.x, Abs(b.y - a.y));
  }

  lemma CrossOfOffset(v: int, dx: nat, i: nat, m: nat)
    requires 2 * Abs(dx * m - i * Abs(v)) <= dx
    ensures 2 * Abs(v * i - dx * Signed(v, m)) <= dx
  {
    if v > 0 {
      assert v * i == i * Abs(v);
    } else {
      NegatedProducts(v, dx, i, m);
    }
  }

  lemma NegatedProducts(v: int, dx: nat, i: nat, m: int)
    requires v <= 0
    ensures v * i == -(i * Abs(v)) && dx * (0 - m) == -(dx * m)
  {
  }

  lemma MinorGrows(i: nat, dx: nat, dy: nat)
    requires dy <= dx
    ensures Minor(i, dx, dy) <= Minor(i + 1, dx, dy) <= Minor(i, dx, dy) + 1
  {
    if dx > 0 {
      assert (i + 1) * dy == i * dy + dy;
      QuotientStep(i * dy + (dx - 1) / 2, dx, dy);
    }
  }

  lemma QuotientStep(n: nat, p: nat, d: nat)
    requires p > 0 && d <= p
    ensures n / p <= (n + d) / p <= n / p + 1
  {
    var m, r := n / p, n % p;
    assert n == p * m + r;
    if r + d < p {
      DivMod(p, m, r + d);
    } else {
      MulSplits(p, m + 1, m);
      DivMod(p, m + 1, r + d - p);
    }
  }

  function Max(a: nat, b: nat): nat {
    if a < b then b else a
  }

  /** The same points from either end. */
  lemma LineIsSymmetric(start: Point, end: Point)
    ensures Line(start, end) == Line(end, start)
  {
  }

  /** Exchanging the ends or the coordinates changes no distance from the line. */
  lemma CrossOfLine(start: Point, end: Point, p: Point)
    ensures var (a, b) := Ordered(start, end);
            Abs(Cross(start, end, if Steep(start, end) then Transposed(p) else p)) == Abs(Cross(a, b, p))
  {
    hide Cross;
    var (a, b) := Ordered(start, end);
    CrossTurned(a, b, p);
    CrossTurned(start, end, if Steep(start, end) then Transposed(p) else p);
  }

  lemma LineEnds(start: Point, end: Point)
    ensures var p, q := LinePoint(start, end, 0), LinePoint(start, end, Length(start, end));
            (p == start && q == end) || (p == end && q == start)
    ensures Length(start, end) == Max(Abs(end.x - start.x), Abs(end.y - start.y))
  {
    hide PlainPoint;
    var (a, b) := Ordered(start, end);
    PlainLine(a, b, 0);
  }

  lemma LineStep(start: Point, end: Point, i: nat)
    requires i <= Length(start, end)
    ensures var p, q := LinePoint(start, end, i), LinePoint(start, end, i + 1);
            var d := Point(Abs(q.x - p.x), Abs(q.y - p.y));
            if Steep(start, end) then d.x <= 1 == d.y else d.y <= 1 == d.x
    ensures 2 * Abs(Cross(start, end, LinePoint(start, end, i))) <= Length(start, end)
  {
    hide PlainPoint, Cross, Steep;
    var (a, b) := Ordered(start, end);
    PlainLine(a, b, i);
    CrossOfLine(start, end, PlainPoint(a, b, i));
  }

  /**
   A line has one point per step along its longer side; from each point to the next it goes one
   step along that side and at most one along the other; it begins at one end and ends at the
   other, no point is further than half a cell from the ideal line, and drawn from its other end
   it is the same line.
   */
  lemma LineIsStraight(start: Point, end: Point, i: nat)
    requires i <= Length(start, end)
    ensures var ps, n := Line(start, end), Length(start, end);
            && n == Max(Abs(end.x - start.x), Abs(end.y - start.y)) && |ps| == n + 1
            && ((ps[0] == start && ps[n] == end) || (ps[0] == end && ps[n] == start))
            && (i < n ==> var d := Point(Abs(ps[i + 1].x - ps[i].x), Abs(ps[i + 1].y - ps[i].y));
                          if Steep(start, end) then d.x <= 1 == d.y else d.y <= 1 == d.x)
            && 2 * Abs(Cross(start, end, ps[i])) <= n
    ensures Line(start, end) == Line(end, start)
  {
    hide LinePoint, Cross, Steep;
    LineEnds(start, end);
    LineStep(start, end, i);
    LineIsSymmetric(start, end);
  }

  /** The body of the drawing loop leads from one point to the next. */
  lemma PlainStep(a: Point, b: Point, i: nat, err: int)
    requires Plain(a, b) && OnTrack(i, b.x - a.x, Abs(b.y - a.y), err)
    ensures var p, p', yStep := PlainPoint(a, b, i), PlainPoint(a, b, i + 1), if a.y < b.y then 1 else -1;
            var dx, dy := b.x - a.x, Abs(b.y - a.y);
            if err - dy < 0 then p' == Point(p.x + 1, p.y + yStep) && OnTrack(i + 1, dx, dy, err - dy + dx)
            else p' == Point(p.x + 1, p.y) && OnTrack(i + 1, dx, dy, err - dy)
    ensures PlainPoint(a, b, i).x == a.x + i
  {
    hide Minor, OnTrack;
    MinorStep(i, b.x - a.x, Abs(b.y - a.y), err);
  }

  // ---------------------------------------------------------------- circles

  /** How far the square of the distance is from the square of the radius. */
  function Deviation(r: nat, p: Point): int {
    p.x * p.x + p.y * p.y - r * r
  }

  /** y is the whole number nearest to the ordinate of the circle at x. */
  predicate Nearest(r: nat, x: int, y: int) {
    (2 * y - 1) * (2 * y - 1) < 4 * (r * r - x * x) < (2 * y + 1) * (2 * y + 1)
  }

  /** What holds of the i-th point of an arc that comes after one at height y. */
  predicate ArcPoint(r: nat, y: int, i: nat, p: Point) {
    && p.x == i + 1 && 0 <= p.y && i < y && (p.y == y || p.y == y - 1)
    && Abs(Deviation(r, p)) <= p.y && (p.x < p.y ==> Nearest(r, p.x, p.y))
  }

  function HeightBefore(r: nat, arc: seq<Point>, i: nat): int
    requires i <= |arc|
  {
    if i == 0 then r else arc[i - 1].y
  }

  /** An arc in the making: one point for each x from 1 on, each at most one below the one before. */
  ghost predicate BeingDrawn(r: nat, arc: seq<Point>) {
    forall i | 0 <= i < |arc| :: ArcPoint(r, HeightBefore(r, arc, i), i, arc[i])
  }

  /** The arc goes on until it reaches the diagonal. */
  ghost predicate IsArc(r: nat, arc: seq<Point>) {
    BeingDrawn(r, arc) && if arc == [] then r == 0 else arc[|arc| - 1].y <= |arc|
  }

  function Axes(c: Point, r: nat): seq<Point> {
    [Point(c.x, c.y + r), Point(c.x, c.y - r), Point(c.x + r, c.y), Point(c.x - r, c.y)]
  }

  function Images(c: Point, p: Point): seq<Point> {
    [Point(c.x + p.x, c.y + p.y), Point(c.x - p.x, c.y + p.y), Point(c.x + p.x, c.y - p.y), Point(c.x - p.x, c.y - p.y),
     Point(c.x + p.y, c.y + p.x), Point(c.x - p.y, c.y + p.x), Point(c.x + p.y, c.y - p.x), Point(c.x - p.y, c.y - p.x)]
  }

  function Circle(start: Point, r: nat, arc: seq<Point>): seq<Point> {
    if |arc| == 0 then Axes(start, r)
    else Circle(start, r, arc[..|arc| - 1]) + Images(start, arc[|arc| - 1])
  }

  /** A pixel is on the circle if its distances from the centre along the two axes are those of an offset of the arc, in either order. */
  ghost predicate OnCircle(c: Point, r: nat, arc: seq<Point>, q: Point) {
    var dx, dy := Abs(q.x - c.x), Abs(q.y - c.y);
    (dx == 0 && dy == r) || (dx == r && dy == 0) || Point(dx, dy) in arc || Point(dy, dx) in arc
  }

  lemma ImagesAre(c: Point, p: Point, q: Point)
    requires p.x >= 0 && p.y >= 0
    ensures q in Images(c, p)
            <==> Point(Abs(q.x - c.x), Abs(q.y - c.y)) == p || Point(Abs(q.y - c.y), Abs(q.x - c.x)) == p
  {
  }

  lemma {:induction false} CircleIs(c: Point, r: nat, arc: seq<Point>, q: Point)
    requires forall i | 0 <= i < |arc| :: arc[i].x >= 0 && arc[i].y >= 0
    ensures q in Circle(c, r, arc) <==> OnCircle(c, r, arc, q)
  {
    hide Images;
    if |arc| > 0 {
      var n := |arc| - 1;
      CircleIs(c, r, arc[..n], q);
      ImagesAre(c, arc[n], q);
      assert arc == arc[..n] + [arc[n]];
    }
  }

  /** The state of the loop, with everything that is kept in 16 bits. */
  ghost predicate Walking(r: nat, arc: seq<Point>, y: int, f: int) {
    var x, e := |arc|, Deviation(r, Point(|arc|, y));
    && BeingDrawn(r, arc) && x <= y + 1 && 0 <= y <= r && y == HeightBefore(r, arc, x)
    && f == e + 2 * x + 1 - y && (x < y ==> -y <= e < y)
    && Fits16(f) && Fits16(1 + 2 * x) && Fits16(-2 * y)
  }

  lemma ArcBegins(start: Point, r: nat)
    requires r <= 0x4000
    ensures Circle(start, r, []) == Axes(start, r) && Walking(r, [], r, 1 - r)
  {
  }

  lemma ArcEnds(r: nat, arc: seq<Point>, y: int, f: int)
    requires Walking(r, arc, y, f) && |arc| >= y
    ensures IsArc(r, arc)
  {
    hide Deviation, BeingDrawn;
  }

  lemma CircleOfMore(start: Point, r: nat, arc: seq<Point>, p: Point)
    ensures Circle(start, r, arc + [p]) == Circle(start, r, arc) + Images(start, p)
  {
    assert (arc + [p])[..|arc|] == arc;
  }

  /** One step of the arc, with both outcomes of the test. */
  lemma ArcStep(r: nat, arc: seq<Point>, y: int, f: int)
    requires r <= 0x4000 && Walking(r, arc, y, f) && |arc| < y
    ensures var y' := if f >= 0 then y - 1 else y;
            var f' := f + (if f >= 0 then -2 * y' else 0) + 2 * |arc| + 3;
            Walking(r, arc + [Point(|arc| + 1, y')], y', f')
  {
    hide Deviation, Nearest, BeingDrawn;
    var x, y' := |arc|, if f >= 0 then y - 1 else y;
    PointStep(r, x, y, f);
    ArcGrows(r, arc, Point(x + 1, y'));
    StaysSmall(r, x, y);
  }

  /** An arc that has not yet descended has hardly begun, so that 2x + 3 stays within 16 bits. */
  lemma StaysSmall(r: nat, x: nat, y: int)
    requires r <= 0x4000 && x < y <= r && -y <= Deviation(r, Point(x, y)) < y
    ensures 2 * x + 3 <= 0x7FFF
  {
    if y == r {
      assert x * x < r;
    }
  }

  lemma ArcGrows(r: nat, arc: seq<Point>, p: Point)
    requires BeingDrawn(r, arc) && ArcPoint(r, HeightBefore(r, arc, |arc|), |arc|, p)
    ensures BeingDrawn(r, arc + [p])
  {
    hide ArcPoint;
    var arc' := arc + [p];
    forall i | 0 <= i < |arc'|
      ensures ArcPoint(r, HeightBefore(r, arc', i), i, arc'[i])
    {
      assert i < |arc| ==> arc'[i] == arc[i];
      assert HeightBefore(r, arc', i) == HeightBefore(r, arc, i);
    }
  }

  lemma PointStep(r: nat, x: nat, y: int, f: int)
    requires x < y <= r <= 0x4000 && -y <= Deviation(r, Point(x, y)) < y && f == Deviation(r, Point(x, y)) + 2 * x + 1 - y
    ensures var y' := if f >= 0 then y - 1 else y;
            var e' := Deviation(r, Point(x + 1, y'));
            && e' == (if f >= 0 then f - y + 1 else f + y)
            && Abs(e') <= y' && (x + 1 < y' ==> e' < y' && Nearest(r, x + 1, y'))
  {
    assert (x + 1) * (x + 1) == x * x + 2 * x + 1;
    assert (y - 1) * (y - 1) == y * y - 2 * y + 1;
    var y' := if f >= 0 then y - 1 else y;
    if x + 1 < y' {
      NearestIs(r, x + 1, y');
    }
  }

  lemma NearestIs(r: nat, x: int, y: int)
    requires -y <= Deviation(r, Point(x, y)) < y
    ensures Nearest(r, x, y)
  {
    assert (2 * y - 1) * (2 * y - 1) == 4 * (y * y) - 4 * y + 1;
    assert (2 * y + 1) * (2 * y + 1) == 4 * (y * y) + 4 * y + 1;
  }
}
