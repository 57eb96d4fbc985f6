/** Where the companion sprite goes: a search over a finite set of anchors on the screen's
    perimeter, ranked by how much declared work the sprite would cover. */
module Placement {
  import opened Wrappers

  datatype Box = Box(x: int, y: int, width: int, height: int) {
    function Right(): int { x + width }
    function Bottom(): int { y + height }
  }

  /** A rectangle that could be constructed. */
  type Rect = r: Box | r.width >= 1 && r.height >= 1 witness Box(0, 0, 1, 1)

  datatype Edge = BottomRight | BottomLeft | TopRight | TopLeft | Left | Right | Bottom | Top

  datatype Anchor = Anchor(edge: Edge, x: int, y: int)

  datatype Layout = Layout(sprite: Rect, message: Option<Rect>, edge: Edge, overlap: int, clear: bool)

  datatype Refusal = InvalidValues | InvalidMessage | DoesNotFit

  function Max(a: int, b: int): int { if a < b then b else a }

  function Min(a: int, b: int): int { if b < a then b else a }

  function Clamp(v: int, lower: int, upper: int): int { Min(Max(v, lower), upper) }

  function IntersectionArea(a: Rect, b: Rect): int {
    var left, top := Max(a.x, b.x), Max(a.y, b.y);
    var right, bottom := Min(a.Right(), b.Right()), Min(a.Bottom(), b.Bottom());
    Max(0, right - left) * Max(0, bottom - top)
  }

  predicate ContainedBy(inner: Rect, outer: Rect) {
    inner.x >= outer.x && inner.y >= outer.y && inner.Right() <= outer.Right() && inner.Bottom() <= outer.Bottom()
  }

  predicate Overlaps(a: Rect, b: Rect) {
    a.x < b.Right() && b.x < a.Right() && a.y < b.Bottom() && b.y < a.Bottom()
  }

  lemma AreaIsOverlap(a: Rect, b: Rect)
    ensures IntersectionArea(a, b) >= 0
    ensures IntersectionArea(a, b) == 0 <==> !Overlaps(a, b)
  {
    var w := Max(0, Min(a.Right(), b.Right()) - Max(a.x, b.x));
    var h := Max(0, Min(a.Bottom(), b.Bottom()) - Max(a.y, b.y));
    assert w * h == 0 <==> w == 0 || h == 0;
  }

  /** The points of a rectangle: its pixels. */
  ghost function Points(left: int, right: int, top: int, bottom: int): set<(int, int)> {
    set x: int, y: int | left <= x < right && top <= y < bottom :: (x, y)
  }

  lemma {:induction false} OneColumn(x: int, top: int, bottom: int)
    ensures |Points(x, x + 1, top, bottom)| == Max(0, bottom - top)
    decreases bottom - top
  {
    if top < bottom {
      OneColumn(x, top, bottom - 1);
      assert Points(x, x + 1, top, bottom) == Points(x, x + 1, top, bottom - 1) + {(x, bottom - 1)};
    } else {
      assert Points(x, x + 1, top, bottom) == {};
    }
  }

  lemma {:induction false} PointsCount(left: int, right: int, top: int, bottom: int)
    ensures |Points(left, right, top, bottom)| == Max(0, right - left) * Max(0, bottom - top)
    decreases right - left
  {
    if left < right {
      hide Points;
      PointsCount(left, right - 1, top, bottom);
      OneColumn(right - 1, top, bottom);
      LastColumn(left, right, top, bottom);
      OneMoreTimes(right - left, Max(0, bottom - top));
    } else {
      assert Points(left, right, top, bottom) == {};
      assert 0 * Max(0, bottom - top) == 0;
    }
  }

  lemma LastColumn(left: int, right: int, top: int, bottom: int)
    requires left < right
    ensures |Points(left, right, top, bottom)|
         == |Points(left, right - 1, top, bottom)| + |Points(right - 1, right, top, bottom)|
  {
    var before, column := Points(left, right - 1, top, bottom), Points(right - 1, right, top, bottom);
    assert Points(left, right, top, bottom) == before + column && before !! column;
  }

  lemma OneMoreTimes(n: int, h: int)
    ensures n * h == (n - 1) * h + h
  {
  }

  /** The area is the number of points that both rectangles cover. */
  lemma AreaCountsPoints(a: Rect, b: Rect)
    ensures IntersectionArea(a, b)
            == |Points(a.x, a.x + a.width, a.y, a.y + a.height) * Points(b.x, b.x + b.width, b.y, b.y + b.height)|
  {
    var left, top := Max(a.x, b.x), Max(a.y, b.y);
    var right, bottom := Min(a.Right(), b.Right()), Min(a.Bottom(), b.Bottom());
    hide Points;
    PointsCount(left, right, top, bottom);
    CommonPoints(a.x, a.Right(), a.y, a.Bottom(), b.x, b.Right(), b.y, b.Bottom());
  }

  lemma CommonPoints(l: int, r: int, t: int, b: int, left: int, right: int, top: int, bottom: int)
    ensures Points(l, r, t, b) * Points(left, right, top, bottom)
         == Points(Max(l, left), Min(r, right), Max(t, top), Min(b, bottom))
  {
    var both, one, other :=
      Points(Max(l, left), Min(r, right), Max(t, top), Min(b, bottom)), Points(l, r, t, b),
      Points(left, right, top, bottom);
    forall x: int, y: int
      ensures (x, y) in one * other <==> (x, y) in both
    {
    }
  }

  function TotalOverlap(sprite: Rect, obstacles: seq<Rect>): int {
    if obstacles == [] then 0
    else IntersectionArea(sprite, obstacles[0]) + TotalOverlap(sprite, obstacles[1..])
  }

  /** The sprite covers none of the declared work. */
  predicate Free(sprite: Rect, obstacles: seq<Rect>) {
    forall i :: 0 <= i < |obstacles| ==> !Overlaps(sprite, obstacles[i])
  }

  lemma {:induction false} NoOverlapIsFree(sprite: Rect, obstacles: seq<Rect>)
    ensures TotalOverlap(sprite, obstacles) >= 0
    ensures TotalOverlap(sprite, obstacles) == 0 <==> Free(sprite, obstacles)
  {
    if obstacles != [] {
      AreaIsOverlap(sprite, obstacles[0]);
      NoOverlapIsFree(sprite, obstacles[1..]);
      if Free(sprite, obstacles[1..]) {
        forall i | 1 <= i < |obstacles| ensures !Overlaps(sprite, obstacles[i]) {
          assert obstacles[i] == obstacles[1..][i - 1];
        }
      }
    }
  }

  // ---------- the anchors ----------

  /** A request that passed the argument checks: the sprite fits and the gaps are not negative. */
  datatype Search = Search(screen: Rect, width: int, height: int, margin: int, obstacles: seq<Rect>) {
    predicate Valid() {
      1 <= width <= screen.width && 1 <= height <= screen.height && 0 <= margin
    }

    /** The sprite held inside the screen at the nearest position to (x, y). */
    function Held(x: int, y: int): (r: Rect)
      requires Valid()
      ensures ContainedBy(r, screen)
    {
      Box(Clamp(x, screen.x, screen.Right() - width), Clamp(y, screen.y, screen.Bottom() - height), width, height)
    }

    function LeftX(): int { screen.x + margin }
    function RightX(): int { screen.Right() - margin - width }
    function TopY(): int { screen.y + margin }
    function BottomY(): int { screen.Bottom() - margin - height }
  }

  /** The coordinates next to each obstacle along one axis. */
  function Beside(spans: seq<Span>, size: int, margin: int): seq<int> {
    if spans == [] then []
    else [spans[0].lower - margin - size, spans[0].upper + margin] + Beside(spans[1..], size, margin)
  }

  /** An obstacle seen along one axis. */
  datatype Span = Span(lower: int, upper: int)

  function Columns(obstacles: seq<Rect>): seq<Span> {
    seq(|obstacles|, i requires 0 <= i < |obstacles| => Span(obstacles[i].x, obstacles[i].Right()))
  }

  function RowSpans(obstacles: seq<Rect>): seq<Span> {
    seq(|obstacles|, i requires 0 <= i < |obstacles| => Span(obstacles[i].y, obstacles[i].Bottom()))
  }

  function Horizontal(s: Search): seq<int> {
    [s.LeftX(), s.RightX()] + Beside(Columns(s.obstacles), s.width, s.margin)
  }

  function Vertical(s: Search): seq<int> {
    [s.TopY(), s.BottomY()] + Beside(RowSpans(s.obstacles), s.height, s.margin)
  }

  function AtColumn(edge: Edge, x: int, ys: seq<int>): seq<Anchor> {
    seq(|ys|, i requires 0 <= i < |ys| => Anchor(edge, x, ys[i]))
  }

  function AtRow(edge: Edge, xs: seq<int>, y: int): seq<Anchor> {
    seq(|xs|, i requires 0 <= i < |xs| => Anchor(edge, xs[i], y))
  }

  function Corners(s: Search): seq<Anchor> {
    [ Anchor(BottomRight, s.RightX(), s.BottomY()),
      Anchor(BottomLeft, s.LeftX(), s.BottomY()),
      Anchor(TopRight, s.RightX(), s.TopY()),
      Anchor(TopLeft, s.LeftX(), s.TopY()) ]
  }

  /** Every anchor in order of preference: corners, then the sides, then bottom and top. */
  function Anchors(s: Search): seq<Anchor> {
    Corners(s)
    + AtColumn(Left, s.LeftX(), Vertical(s)) + AtColumn(Right, s.RightX(), Vertical(s))
    + AtRow(Bottom, Horizontal(s), s.BottomY()) + AtRow(Top, Horizontal(s), s.TopY())
  }

  // ---------- the candidates: anchors held on screen, without repeated positions ----------

  predicate Seen(candidates: seq<Anchor>, at: Rect) {
    exists i :: 0 <= i < |candidates| && candidates[i].x == at.x && candidates[i].y == at.y
  }

  function HeldAnchor(s: Search, a: Anchor): Anchor
    requires s.Valid()
  {
    Anchor(a.edge, s.Held(a.x, a.y).x, s.Held(a.x, a.y).y)
  }

  function Candidates(s: Search, anchors: seq<Anchor>): seq<Anchor>
    requires s.Valid()
  {
    if anchors == [] then []
    else
      var last := anchors[|anchors| - 1];
      var before := Candidates(s, anchors[..|anchors| - 1]);
      if Seen(before, s.Held(last.x, last.y)) then before else before + [HeldAnchor(s, last)]
  }

  /** The candidates are the positions of the anchors, each once. */
  lemma {:induction false} CandidatesCoverAnchors(s: Search, anchors: seq<Anchor>)
    requires s.Valid()
    ensures forall a :: a in anchors ==> Seen(Candidates(s, anchors), s.Held(a.x, a.y))
    ensures forall c :: c in Candidates(s, anchors) ==> exists a :: a in anchors && c == HeldAnchor(s, a)
    ensures forall i, j :: 0 <= i < j < |Candidates(s, anchors)| ==>
              (Candidates(s, anchors)[i].x, Candidates(s, anchors)[i].y)
              != (Candidates(s, anchors)[j].x, Candidates(s, anchors)[j].y)
  {
    hide Search.Held;
    if anchors != [] {
      var n := |anchors| - 1;
      var last, before := anchors[n], Candidates(s, anchors[..n]);
      CandidatesCoverAnchors(s, anchors[..n]);
      var held, all := HeldAnchor(s, last), Candidates(s, anchors);
      assert anchors == anchors[..n] + [last];
      forall a | a in anchors
        ensures Seen(all, s.Held(a.x, a.y))
      {
        var at := s.Held(a.x, a.y);
        if a in anchors[..n] {
          var i :| 0 <= i < |before| && before[i].x == at.x && before[i].y == at.y;
          assert all[i] == before[i];
        } else if !Seen(before, at) {
          assert all[|before|] == held;
        }
      }
      forall c | c in all
        ensures exists a :: a in anchors && c == HeldAnchor(s, a)
      {
        if c in before {
          var a :| a in anchors[..n] && c == HeldAnchor(s, a);
          assert a in anchors;
        }
      }
    }
  }

  /** A candidate is an anchor that no earlier anchor shares its position with, and the anchors before
      it are among the candidates before it. */
  lemma {:induction false} CandidateComesFirst(s: Search, anchors: seq<Anchor>, k: nat) returns (i: nat)
    requires s.Valid() && k < |Candidates(s, anchors)|
    ensures i < |anchors| && Candidates(s, anchors)[k] == HeldAnchor(s, anchors[i])
    ensures forall j :: 0 <= j < i ==> Seen(Candidates(s, anchors)[..k], s.Held(anchors[j].x, anchors[j].y))
  {
    hide Search.Held;
    var n := |anchors| - 1;
    var before := Candidates(s, anchors[..n]);
    if k < |before| {
      i := CandidateComesFirst(s, anchors[..n], k);
      assert Candidates(s, anchors)[..k] == before[..k];
    } else {
      i := n;
      assert Candidates(s, anchors)[..k] == before;
      CandidatesCoverAnchors(s, anchors[..n]);
      assert forall j :: 0 <= j < n ==> anchors[j] == anchors[..n][j];
    }
  }

  /** Holding on screen moves no further than it must, along either axis. */
  lemma HeldIsNearest(s: Search, x: int, y: int, other: Rect)
    requires s.Valid() && (other.width, other.height) == (s.width, s.height) && ContainedBy(other, s.screen)
    ensures Max(x - s.Held(x, y).x, s.Held(x, y).x - x) <= Max(x - other.x, other.x - x)
    ensures Max(y - s.Held(x, y).y, s.Held(x, y).y - y) <= Max(y - other.y, other.y - y)
  {
    assert s.screen.x <= other.x <= s.screen.Right() - s.width;
  }

  // ---------- the order of preference, in screen coordinates ----------

  /** Corners first, bottom before top and right before left; then the sides, then bottom and top. */
  function Order(edge: Edge): nat {
    match edge
    case BottomRight => 0
    case BottomLeft => 1
    case TopRight => 2
    case TopLeft => 3
    case Left => 4
    case Right => 5
    case Bottom => 6
    case Top => 7
  }

  predicate IsCorner(edge: Edge) {
    edge.BottomRight? || edge.BottomLeft? || edge.TopRight? || edge.TopLeft?
  }

  /** A corner is one place; along an edge there are the two corners and two places beside each obstacle. */
  function Places(s: Search, edge: Edge): nat {
    if IsCorner(edge) then 1 else 2 + 2 * |s.obstacles|
  }

  /** Along the top or the bottom: the left margin, the right one, then left and right of each obstacle. */
  function ColumnAt(s: Search, k: nat): int
    requires k < 2 + 2 * |s.obstacles|
  {
    if k == 0 then s.screen.x + s.margin
    else if k == 1 then s.screen.x + s.screen.width - s.margin - s.width
    else
      var o := s.obstacles[k / 2 - 1];
      if k % 2 == 0 then o.x - s.margin - s.width else o.x + o.width + s.margin
  }

  /** Along the left or the right: the top margin, the bottom one, then above and below each obstacle. */
  function RowAt(s: Search, k: nat): int
    requires k < 2 + 2 * |s.obstacles|
  {
    if k == 0 then s.screen.y + s.margin
    else if k == 1 then s.screen.y + s.screen.height - s.margin - s.height
    else
      var o := s.obstacles[k / 2 - 1];
      if k % 2 == 0 then o.y - s.margin - s.height else o.y + o.height + s.margin
  }

  /** The sprite at the k-th place of an edge, on the edge's margin line, held on screen. */
  function PlaceOn(s: Search, edge: Edge, k: nat): Rect
    requires s.Valid() && k < Places(s, edge)
  {
    match edge
    case BottomRight => s.Held(ColumnAt(s, 1), RowAt(s, 1))
    case BottomLeft => s.Held(ColumnAt(s, 0), RowAt(s, 1))
    case TopRight => s.Held(ColumnAt(s, 1), RowAt(s, 0))
    case TopLeft => s.Held(ColumnAt(s, 0), RowAt(s, 0))
    case Left => s.Held(ColumnAt(s, 0), RowAt(s, k))
    case Right => s.Held(ColumnAt(s, 1), RowAt(s, k))
    case Bottom => s.Held(ColumnAt(s, k), RowAt(s, 1))
    case Top => s.Held(ColumnAt(s, k), RowAt(s, 0))
  }

  predicate ComesBefore(e: Edge, j: nat, edge: Edge, k: nat) {
    Order(e) < Order(edge) || (e == edge && j < k)
  }

  /** No place covers less declared work, and every place before it covers more. */
  ghost predicate FirstOfLeast(s: Search, edge: Edge, k: nat)
    requires s.Valid()
  {
    && k < Places(s, edge)
    && var least := TotalOverlap(PlaceOn(s, edge, k), s.obstacles);
    forall e, j: nat :: j < Places(s, e) ==>
      var there := TotalOverlap(PlaceOn(s, e, j), s.obstacles);
      least <= there && (ComesBefore(e, j, edge, k) ==> least < there)
  }

  /** Where the place stands in the list of anchors. */
  function IndexOf(s: Search, edge: Edge, k: nat): nat {
    if IsCorner(edge) then Order(edge) else 4 + (Order(edge) - 4) * (2 + 2 * |s.obstacles|) + k
  }

  lemma {:induction false} BesideAt(spans: seq<Span>, size: int, margin: int, i: nat)
    requires i < |spans|
    ensures |Beside(spans, size, margin)| == 2 * |spans|
    ensures Beside(spans, size, margin)[2 * i] == spans[i].lower - margin - size
    ensures Beside(spans, size, margin)[2 * i + 1] == spans[i].upper + margin
  {
    if i > 0 {
      BesideAt(spans[1..], size, margin, i - 1);
    } else {
      BesideSize(spans, size, margin);
    }
  }

  lemma {:induction false} BesideSize(spans: seq<Span>, size: int, margin: int)
    ensures |Beside(spans, size, margin)| == 2 * |spans|
  {
    if spans != [] {
      BesideSize(spans[1..], size, margin);
    }
  }

  lemma CoordinatesAt(s: Search)
    ensures |Horizontal(s)| == |Vertical(s)| == 2 + 2 * |s.obstacles|
    ensures forall k :: 0 <= k < 2 + 2 * |s.obstacles| ==>
              Horizontal(s)[k] == ColumnAt(s, k) && Vertical(s)[k] == RowAt(s, k)
  {
    hide Beside;
    BesideSize(Columns(s.obstacles), s.width, s.margin);
    BesideSize(RowSpans(s.obstacles), s.height, s.margin);
    forall k | 0 <= k < 2 + 2 * |s.obstacles|
      ensures Horizontal(s)[k] == ColumnAt(s, k) && Vertical(s)[k] == RowAt(s, k)
    {
      if k >= 2 {
        BesideAt(Columns(s.obstacles), s.width, s.margin, k / 2 - 1);
        BesideAt(RowSpans(s.obstacles), s.height, s.margin, k / 2 - 1);
      }
    }
  }

  /** Each place is the anchor at its index, and nothing else is listed. */
  lemma PlaceIsAnchor(s: Search, edge: Edge, k: nat)
    requires s.Valid() && k < Places(s, edge)
    ensures var i := IndexOf(s, edge, k);
            && i < |Anchors(s)| && Anchors(s)[i].edge == edge
            && s.Held(Anchors(s)[i].x, Anchors(s)[i].y) == PlaceOn(s, edge, k)
  {
    hide Horizontal, Vertical, Search.Held;
    CoordinatesAt(s);
    assert Horizontal(s)[0] == ColumnAt(s, 0) && Horizontal(s)[1] == ColumnAt(s, 1);
    assert Vertical(s)[0] == RowAt(s, 0) && Vertical(s)[1] == RowAt(s, 1);
  }

  lemma AnchorCount(s: Search)
    ensures |Anchors(s)| == 4 + 4 * (2 + 2 * |s.obstacles|)
  {
    hide Horizontal, Vertical;
    CoordinatesAt(s);
  }

  lemma AnchorIsPlace(s: Search, i: nat) returns (edge: Edge, k: nat)
    requires s.Valid() && i < |Anchors(s)|
    ensures k < Places(s, edge) && IndexOf(s, edge, k) == i
  {
    hide Anchors;
    AnchorCount(s);
    var n := 2 + 2 * |s.obstacles|;
    if i < 4 {
      k := 0;
      edge := if i == 0 then BottomRight else if i == 1 then BottomLeft else if i == 2 then TopRight else TopLeft;
    } else if i < 4 + n {
      edge, k := Left, i - 4;
    } else if i < 4 + 2 * n {
      edge, k := Right, i - 4 - n;
    } else if i < 4 + 3 * n {
      edge, k := Bottom, i - 4 - 2 * n;
    } else {
      edge, k := Top, i - 4 - 3 * n;
    }
  }

  lemma IndexInOrder(s: Search, e: Edge, j: nat, edge: Edge, k: nat)
    requires j < Places(s, e) && k < Places(s, edge) && ComesBefore(e, j, edge, k)
    ensures IndexOf(s, e, j) < IndexOf(s, edge, k)
  {
  }

  /** The first best candidate is the first place of least overlap. */
  lemma BestIsFirstOfLeast(s: Search, best: nat) returns (k: nat)
    requires s.Valid() && best < |Candidates(s, Anchors(s))| && Best(s, Candidates(s, Anchors(s)), best)
    ensures var c := Candidates(s, Anchors(s))[best];
            FirstOfLeast(s, c.edge, k) && PlaceOn(s, c.edge, k) == s.Held(c.x, c.y)
  {
    hide Anchors, Search.Held, Candidates, PlaceOn, IndexOf, Places, ComesBefore, TotalOverlap;
    var anchors, candidates := Anchors(s), Candidates(s, Anchors(s));
    var i := CandidateComesFirst(s, anchors, best);
    var edge;
    edge, k := AnchorIsPlace(s, i);
    PlaceIsAnchor(s, edge, k);
    HeldTwice(s, anchors[i].x, anchors[i].y);
    LeastOverAnchors(s, best);
    forall e, j: nat | j < Places(s, e)
      ensures var least, there := TotalOverlap(PlaceOn(s, edge, k), s.obstacles),
                                  TotalOverlap(PlaceOn(s, e, j), s.obstacles);
              least <= there && (ComesBefore(e, j, edge, k) ==> least < there)
    {
      PlaceIsAnchor(s, e, j);
      var a := anchors[IndexOf(s, e, j)];
      assert a in anchors;
      if ComesBefore(e, j, edge, k) {
        IndexInOrder(s, e, j, edge, k);
        var at := s.Held(a.x, a.y);
        assert Seen(candidates[..best], at);
        var m :| 0 <= m < best && candidates[..best][m].x == at.x && candidates[..best][m].y == at.y;
        assert candidates[m] == candidates[..best][m];
        HeldTwice(s, a.x, a.y);
      }
    }
  }

  /** A free corner is taken, and of several the bottom ones before the top and the right before the left;
      a side, the bottom or the top is taken only when no corner is free. */
  ghost predicate CornersFirst(s: Search, edge: Edge, sprite: Rect)
    requires s.Valid()
  {
    var right, bottom := s.screen.x + s.screen.width - s.margin - s.width,
                         s.screen.y + s.screen.height - s.margin - s.height;
    var left, top := s.screen.x + s.margin, s.screen.y + s.margin;
    if Free(s.Held(right, bottom), s.obstacles) then edge == BottomRight && sprite == s.Held(right, bottom)
    else if Free(s.Held(left, bottom), s.obstacles) then edge == BottomLeft && sprite == s.Held(left, bottom)
    else if Free(s.Held(right, top), s.obstacles) then edge == TopRight && sprite == s.Held(right, top)
    else if Free(s.Held(left, top), s.obstacles) then edge == TopLeft && sprite == s.Held(left, top)
    else Free(sprite, s.obstacles) ==> edge in {Left, Right, Bottom, Top}
  }

  lemma FirstIsCorner(s: Search, edge: Edge, k: nat)
    requires s.Valid() && FirstOfLeast(s, edge, k) && k < Places(s, edge)
    ensures CornersFirst(s, edge, PlaceOn(s, edge, k))
  {
    hide TotalOverlap, Free, Search.Held, FirstOfLeast;
    FreeCorner(s, edge, k, BottomRight);
    FreeCorner(s, edge, k, BottomLeft);
    FreeCorner(s, edge, k, TopRight);
    FreeCorner(s, edge, k, TopLeft);
    assert IsCorner(edge) ==> k == 0;
    assert s.screen.Right() == s.screen.x + s.screen.width;
  }

  lemma FreeCorner(s: Search, edge: Edge, k: nat, e: Edge)
    requires s.Valid() && FirstOfLeast(s, edge, k) && IsCorner(e)
    ensures Free(PlaceOn(s, e, 0), s.obstacles) ==> Order(edge) <= Order(e) && Free(PlaceOn(s, edge, k), s.obstacles)
  {
    hide TotalOverlap, Free, Search.Held, PlaceOn;
    NoOverlapIsFree(PlaceOn(s, edge, k), s.obstacles);
    NoOverlapIsFree(PlaceOn(s, e, 0), s.obstacles);
  }

  lemma HeldTwice(s: Search, x: int, y: int)
    requires s.Valid()
    ensures s.Held(s.Held(x, y).x, s.Held(x, y).y) == s.Held(x, y)
  {
  }

  // ---------- one axis: the finite set of coordinates suffices ----------

  /** A segment [start, end) in which an interval of length `size` must avoid the listed spans. */
  datatype Axis = Axis(start: int, end: int, size: int, margin: int, spans: seq<Span>, blocking: set<nat>) {
    ghost predicate Valid() {
      && 0 <= margin && start <= end - size
      && (forall i :: i in blocking ==> i < |spans|)
    }

    ghost predicate Open(at: int)
      requires Valid()
    {
      forall i :: i in blocking ==> at + size <= spans[i].lower || spans[i].upper <= at
    }

    function Coordinates(): seq<int> {
      [start + margin, end - margin - size] + Beside(spans, size, margin)
    }

    /** Everything blocking on the low side ends at least `margin` before, or everything on the
        high side starts at least `margin` after. */
    ghost predicate Respects(at: int)
      requires Valid()
    {
      || (forall i :: i in blocking && spans[i].upper <= at ==> spans[i].upper + margin <= at)
      || (forall i :: i in blocking && at + size <= spans[i].lower ==> at + size + margin <= spans[i].lower)
    }
  }

  lemma {:induction false} BesideHolds(spans: seq<Span>, size: int, margin: int, i: nat)
    requires i < |spans|
    ensures spans[i].lower - margin - size in Beside(spans, size, margin)
    ensures spans[i].upper + margin in Beside(spans, size, margin)
  {
    if i > 0 { BesideHolds(spans[1..], size, margin, i - 1); }
  }

  lemma {:induction false} GreatestUpper(axis: Axis, low: set<nat>) returns (top: nat)
    requires axis.Valid() && low <= axis.blocking && low != {}
    ensures top in low && forall i :: i in low ==> axis.spans[i].upper <= axis.spans[top].upper
  {
    top :| top in low;
    if low != {top} {
      var rest := low - {top};
      var other := GreatestUpper(axis, rest);
      if axis.spans[top].upper < axis.spans[other].upper { top := other; }
    }
  }

  lemma {:induction false} LeastLower(axis: Axis, high: set<nat>) returns (first: nat)
    requires axis.Valid() && high <= axis.blocking && high != {}
    ensures first in high && forall i :: i in high ==> axis.spans[first].lower <= axis.spans[i].lower
  {
    first :| first in high;
    if high != {first} {
      var rest := high - {first};
      var other := LeastLower(axis, rest);
      if axis.spans[other].lower < axis.spans[first].lower { first := other; }
    }
  }

  /** Slide down to the nearest blocking span, or to the start of the segment. */
  lemma SlideDown(axis: Axis, at: int) returns (c: int)
    requires axis.Valid() && axis.start <= at <= axis.end - axis.size && axis.Open(at)
    requires forall i :: i in axis.blocking && axis.spans[i].upper <= at ==> axis.spans[i].upper + axis.margin <= at
    ensures c in axis.Coordinates() && axis.Open(Clamp(c, axis.start, axis.end - axis.size))
  {
    var low := set i | i in axis.blocking && axis.spans[i].upper <= at;
    if low != {} {
      var top := GreatestUpper(axis, low);
      BesideHolds(axis.spans, axis.size, axis.margin, top);
      c := axis.spans[top].upper + axis.margin;
    } else {
      c := axis.start + axis.margin;
      var held := Clamp(c, axis.start, axis.end - axis.size);
      if j :| j in axis.blocking && axis.spans[j].lower < held + axis.size {
        BesideHolds(axis.spans, axis.size, axis.margin, j);
        c := axis.spans[j].lower - axis.margin - axis.size;
      }
    }
    var held := Clamp(c, axis.start, axis.end - axis.size);
    forall i | i in axis.blocking
      ensures held + axis.size <= axis.spans[i].lower || axis.spans[i].upper <= held
    {
      assert i in low <==> axis.spans[i].upper <= at;
      if low != {} { assert held <= at && (i in low ==> axis.spans[i].upper <= c); }
    }
  }

  /** Slide up to the nearest blocking span, or to the end of the segment. */
  lemma SlideUp(axis: Axis, at: int) returns (c: int)
    requires axis.Valid() && axis.start <= at <= axis.end - axis.size && axis.Open(at)
    requires forall i :: i in axis.blocking && at + axis.size <= axis.spans[i].lower ==>
               at + axis.size + axis.margin <= axis.spans[i].lower
    ensures c in axis.Coordinates() && axis.Open(Clamp(c, axis.start, axis.end - axis.size))
  {
    var high := set i | i in axis.blocking && at + axis.size <= axis.spans[i].lower;
    if high != {} {
      var first := LeastLower(axis, high);
      BesideHolds(axis.spans, axis.size, axis.margin, first);
      c := axis.spans[first].lower - axis.margin - axis.size;
    } else {
      c := axis.end - axis.margin - axis.size;
      var held := Clamp(c, axis.start, axis.end - axis.size);
      if j :| j in axis.blocking && held < axis.spans[j].upper {
        BesideHolds(axis.spans, axis.size, axis.margin, j);
        c := axis.spans[j].upper + axis.margin;
      }
    }
    var held := Clamp(c, axis.start, axis.end - axis.size);
    forall i | i in axis.blocking
      ensures held + axis.size <= axis.spans[i].lower || axis.spans[i].upper <= held
    {
      assert i in high <==> at + axis.size <= axis.spans[i].lower;
      if high != {} { assert at <= held && (i in high ==> c + axis.size <= axis.spans[i].lower); }
    }
  }

  lemma AxisComplete(axis: Axis, at: int) returns (c: int)
    requires axis.Valid() && axis.start <= at <= axis.end - axis.size
    requires axis.Open(at) && axis.Respects(at)
    ensures c in axis.Coordinates() && axis.Open(Clamp(c, axis.start, axis.end - axis.size))
  {
    if forall i :: i in axis.blocking && axis.spans[i].upper <= at ==> axis.spans[i].upper + axis.margin <= at {
      c := SlideDown(axis, at);
    } else {
      c := SlideUp(axis, at);
    }
  }

  // ---------- the four lines of the perimeter ----------

  /** The vertical axis of the column at x: the obstacles that reach into it block. */
  ghost function ColumnAxis(s: Search, x: int): Axis {
    Axis(s.screen.y, s.screen.Bottom(), s.height, s.margin, RowSpans(s.obstacles),
         set i: nat | i < |s.obstacles| && x < s.obstacles[i].Right() && s.obstacles[i].x < x + s.width)
  }

  ghost function RowAxis(s: Search, y: int): Axis {
    Axis(s.screen.x, s.screen.Right(), s.width, s.margin, Columns(s.obstacles),
         set i: nat | i < |s.obstacles| && y < s.obstacles[i].Bottom() && s.obstacles[i].y < y + s.height)
  }

  lemma ColumnIsOpen(s: Search, x: int, y: int)
    requires s.Valid()
    ensures ColumnAxis(s, x).Valid()
    ensures ColumnAxis(s, x).Open(y) <==> Free(Box(x, y, s.width, s.height), s.obstacles)
  {
    var axis, sprite := ColumnAxis(s, x), Box(x, y, s.width, s.height);
    assert forall i :: 0 <= i < |s.obstacles| ==>
      (Overlaps(sprite, s.obstacles[i]) <==>
       i in axis.blocking && y < axis.spans[i].upper && axis.spans[i].lower < y + s.height);
  }

  lemma RowIsOpen(s: Search, x: int, y: int)
    requires s.Valid()
    ensures RowAxis(s, y).Valid()
    ensures RowAxis(s, y).Open(x) <==> Free(Box(x, y, s.width, s.height), s.obstacles)
  {
    var axis, sprite := RowAxis(s, y), Box(x, y, s.width, s.height);
    assert forall i :: 0 <= i < |s.obstacles| ==>
      (Overlaps(sprite, s.obstacles[i]) <==>
       i in axis.blocking && x < axis.spans[i].upper && axis.spans[i].lower < x + s.width);
  }

  /** A position in the left or right margin column that a person would call free with margin. */
  ghost predicate RoomInColumn(s: Search, y: int)
    requires s.Valid()
  {
    && s.screen.y <= y <= s.screen.Bottom() - s.height
    && ((var x := s.Held(s.LeftX(), y).x;
         Free(Box(x, y, s.width, s.height), s.obstacles) && ColumnAxis(s, x).Valid() && ColumnAxis(s, x).Respects(y))
        || (var x := s.Held(s.RightX(), y).x;
            Free(Box(x, y, s.width, s.height), s.obstacles) && ColumnAxis(s, x).Valid()
              && ColumnAxis(s, x).Respects(y)))
  }

  ghost predicate RoomInRow(s: Search, x: int)
    requires s.Valid()
  {
    && s.screen.x <= x <= s.screen.Right() - s.width
    && ((var y := s.Held(x, s.BottomY()).y;
         Free(Box(x, y, s.width, s.height), s.obstacles) && RowAxis(s, y).Valid() && RowAxis(s, y).Respects(x))
        || (var y := s.Held(x, s.TopY()).y;
            Free(Box(x, y, s.width, s.height), s.obstacles) && RowAxis(s, y).Valid() && RowAxis(s, y).Respects(x)))
  }

  ghost predicate Room(s: Search)
    requires s.Valid()
  {
    (exists y :: RoomInColumn(s, y)) || (exists x :: RoomInRow(s, x))
  }

  /** Some anchor leaves the sprite free. */
  ghost predicate FreeAnchor(s: Search)
    requires s.Valid()
  {
    exists a :: a in Anchors(s) && Free(s.Held(a.x, a.y), s.obstacles)
  }

  lemma ColumnAnchorsListed(s: Search, y: int)
    requires y in Vertical(s)
    ensures Anchor(Left, s.LeftX(), y) in Anchors(s) && Anchor(Right, s.RightX(), y) in Anchors(s)
  {
    var ys := Vertical(s);
    var i :| 0 <= i < |ys| && ys[i] == y;
    var left, right := AtColumn(Left, s.LeftX(), ys), AtColumn(Right, s.RightX(), ys);
    assert left[i] == Anchor(Left, s.LeftX(), y) && right[i] == Anchor(Right, s.RightX(), y);
    assert left[i] in left && right[i] in right;
  }

  lemma RowAnchorsListed(s: Search, x: int)
    requires x in Horizontal(s)
    ensures Anchor(Bottom, x, s.BottomY()) in Anchors(s) && Anchor(Top, x, s.TopY()) in Anchors(s)
  {
    var xs := Horizontal(s);
    var i :| 0 <= i < |xs| && xs[i] == x;
    var bottom, top := AtRow(Bottom, xs, s.BottomY()), AtRow(Top, xs, s.TopY());
    assert bottom[i] == Anchor(Bottom, x, s.BottomY()) && top[i] == Anchor(Top, x, s.TopY());
    assert bottom[i] in bottom && top[i] in top;
  }

  lemma ColumnSearchComplete(s: Search, columnX: int, edge: Edge, y: int)
    requires s.Valid() && s.screen.y <= y <= s.screen.Bottom() - s.height
    requires (edge == Left && columnX == s.LeftX()) || (edge == Right && columnX == s.RightX())
    requires var x := s.Held(columnX, y).x;
             Free(Box(x, y, s.width, s.height), s.obstacles) && ColumnAxis(s, x).Valid() && ColumnAxis(s, x).Respects(y)
    ensures FreeAnchor(s)
  {
    var x := s.Held(columnX, y).x;
    ColumnIsOpen(s, x, y);
    var c := AxisComplete(ColumnAxis(s, x), y);
    assert ColumnAxis(s, x).Coordinates() == Vertical(s);
    ColumnAnchorsListed(s, c);
    ColumnIsOpen(s, x, Clamp(c, s.screen.y, s.screen.Bottom() - s.height));
    assert s.Held(columnX, c) == Box(x, Clamp(c, s.screen.y, s.screen.Bottom() - s.height), s.width, s.height);
    assert Anchor(edge, columnX, c) in Anchors(s);
  }

  lemma RowSearchComplete(s: Search, rowY: int, edge: Edge, x: int)
    requires s.Valid() && s.screen.x <= x <= s.screen.Right() - s.width
    requires (edge == Bottom && rowY == s.BottomY()) || (edge == Top && rowY == s.TopY())
    requires var y := s.Held(x, rowY).y;
             Free(Box(x, y, s.width, s.height), s.obstacles) && RowAxis(s, y).Valid() && RowAxis(s, y).Respects(x)
    ensures FreeAnchor(s)
  {
    var y := s.Held(x, rowY).y;
    RowIsOpen(s, x, y);
    var c := AxisComplete(RowAxis(s, y), x);
    assert RowAxis(s, y).Coordinates() == Horizontal(s);
    RowAnchorsListed(s, c);
    RowIsOpen(s, Clamp(c, s.screen.x, s.screen.Right() - s.width), y);
    assert s.Held(c, rowY) == Box(Clamp(c, s.screen.x, s.screen.Right() - s.width), y, s.width, s.height);
    assert Anchor(edge, c, rowY) in Anchors(s);
  }

  /** The finite anchor set misses no free position that keeps the margin on one side. */
  lemma SearchIsComplete(s: Search)
    requires s.Valid() && Room(s)
    ensures FreeAnchor(s)
  {
    if y :| RoomInColumn(s, y) {
      var x := s.Held(s.LeftX(), y).x;
      if Free(Box(x, y, s.width, s.height), s.obstacles) && ColumnAxis(s, x).Valid() && ColumnAxis(s, x).Respects(y) {
        ColumnSearchComplete(s, s.LeftX(), Left, y);
      } else {
        ColumnSearchComplete(s, s.RightX(), Right, y);
      }
    } else {
      var x :| RoomInRow(s, x);
      var y := s.Held(x, s.BottomY()).y;
      if Free(Box(x, y, s.width, s.height), s.obstacles) && RowAxis(s, y).Valid() && RowAxis(s, y).Respects(x) {
        RowSearchComplete(s, s.BottomY(), Bottom, x);
      } else {
        RowSearchComplete(s, s.TopY(), Top, x);
      }
    }
  }

  // ---------- when the search is exact ----------

  /** The sprite stands on one of the four lines that keep the margin from the screen's sides. */
  ghost predicate OnPerimeter(s: Search, sprite: Rect)
    requires s.Valid()
  {
    && sprite == s.Held(sprite.x, sprite.y)
    && (sprite.x == s.Held(s.LeftX(), sprite.y).x || sprite.x == s.Held(s.RightX(), sprite.y).x
        || sprite.y == s.Held(sprite.x, s.BottomY()).y || sprite.y == s.Held(sprite.x, s.TopY()).y)
  }

  lemma AnchorsAreOnPerimeter(s: Search, a: Anchor)
    requires s.Valid() && a in Anchors(s)
    ensures OnPerimeter(s, s.Held(a.x, a.y))
  {
    assert a.x == s.LeftX() || a.x == s.RightX() || a.y == s.BottomY() || a.y == s.TopY();
  }

  /** Without a margin nothing is missed: a free anchor exists if and only if any position on the
      perimeter is free. */
  lemma ExactWithoutMargin(s: Search)
    requires s.Valid() && s.margin == 0
    ensures FreeAnchor(s) <==> (exists sprite :: OnPerimeter(s, sprite) && Free(sprite, s.obstacles))
  {
    if FreeAnchor(s) {
      var a :| a in Anchors(s) && Free(s.Held(a.x, a.y), s.obstacles);
      AnchorsAreOnPerimeter(s, a);
    }
    if sprite :| OnPerimeter(s, sprite) && Free(sprite, s.obstacles) {
      ColumnIsOpen(s, sprite.x, sprite.y);
      RowIsOpen(s, sprite.x, sprite.y);
      assert ColumnAxis(s, sprite.x).Respects(sprite.y) && RowAxis(s, sprite.y).Respects(sprite.x);
      assert RoomInColumn(s, sprite.y) || RoomInRow(s, sprite.x);
      SearchIsComplete(s);
    }
  }

  // ---------- the message ----------

  function MessageX(screen: Rect, sprite: Rect, width: int): int {
    Min(Max(sprite.x + (sprite.width - width) / 2, screen.x), screen.Right() - width)
  }

  predicate MessageFits(screen: Rect, sprite: Rect, obstacles: seq<Rect>, message: Rect) {
    && ContainedBy(message, screen)
    && IntersectionArea(message, sprite) == 0
    && forall i :: 0 <= i < |obstacles| ==> IntersectionArea(message, obstacles[i]) == 0
  }

  /** A message of this size, centred over the sprite as far as the screen allows, on screen and clear of
      the sprite and the work. */
  predicate ClearOf(screen: Rect, sprite: Rect, size: (int, int), obstacles: seq<Rect>, message: Rect) {
    var free, most := 2 * sprite.x + sprite.width - message.width, screen.x + screen.width - message.width;
    && (message.width, message.height) == size
    && (if free < 2 * screen.x then message.x == screen.x
        else if free > 2 * most then message.x == most
        else free - 1 <= 2 * message.x <= free)
    && ContainedBy(message, screen) && !Overlaps(message, sprite) && Free(message, obstacles)
  }

  lemma FitIsClear(screen: Rect, sprite: Rect, size: (int, int), obstacles: seq<Rect>, message: Rect)
    requires (message.width, message.height) == size
    ensures ClearOf(screen, sprite, size, obstacles, message) <==>
            message.x == MessageX(screen, sprite, size.0) && MessageFits(screen, sprite, obstacles, message)
  {
    hide IntersectionArea, Overlaps;
    AreaIsOverlap(message, sprite);
    forall k | 0 <= k < |obstacles|
      ensures IntersectionArea(message, obstacles[k]) == 0 <==> !Overlaps(message, obstacles[k])
    {
      AreaIsOverlap(message, obstacles[k]);
    }
  }

  /** The message above the sprite, else below it, else nowhere. */
  function Report(screen: Rect, sprite: Rect, size: Option<(int, int)>, gap: int, obstacles: seq<Rect>): Option<Rect>
    requires size.Some? ==> size.value.0 >= 1 && size.value.1 >= 1
  {
    if size.None? then None
    else
      var (w, h) := size.value;
      var above: Rect := Box(MessageX(screen, sprite, w), sprite.y - gap - h, w, h);
      var below: Rect := Box(MessageX(screen, sprite, w), sprite.Bottom() + gap, w, h);
      if MessageFits(screen, sprite, obstacles, above) then Some(above)
      else if MessageFits(screen, sprite, obstacles, below) then Some(below)
      else None
  }

  predicate ClearAbove(screen: Rect, sprite: Rect, size: (int, int), gap: int, obstacles: seq<Rect>, m: Rect) {
    ClearOf(screen, sprite, size, obstacles, m) && m.y + m.height + gap == sprite.y
  }

  predicate ClearBelow(screen: Rect, sprite: Rect, size: (int, int), gap: int, obstacles: seq<Rect>, m: Rect) {
    ClearOf(screen, sprite, size, obstacles, m) && m.y == sprite.y + sprite.height + gap
  }

  /** The clear message above the sprite if there is one, else the clear one below it, else none. */
  ghost predicate IsReport(screen: Rect, sprite: Rect, size: Option<(int, int)>, gap: int, obstacles: seq<Rect>,
                           report: Option<Rect>)
  {
    if size.None? then report.None?
    else if exists m :: ClearAbove(screen, sprite, size.value, gap, obstacles, m)
      then report.Some? && ClearAbove(screen, sprite, size.value, gap, obstacles, report.value)
    else if exists m :: ClearBelow(screen, sprite, size.value, gap, obstacles, m)
      then report.Some? && ClearBelow(screen, sprite, size.value, gap, obstacles, report.value)
    else report.None?
  }

  lemma ReportIs(screen: Rect, sprite: Rect, size: Option<(int, int)>, gap: int, obstacles: seq<Rect>)
    requires size.Some? ==> size.value.0 >= 1 && size.value.1 >= 1
    ensures IsReport(screen, sprite, size, gap, obstacles, Report(screen, sprite, size, gap, obstacles))
  {
    hide MessageFits, MessageX, ClearOf;
    if size.Some? {
      var (w, h) := size.value;
      forall m: Rect
        ensures ClearOf(screen, sprite, (w, h), obstacles, m) <==>
                && (m.width, m.height) == (w, h) && m.x == MessageX(screen, sprite, w)
                && MessageFits(screen, sprite, obstacles, m)
      {
        if (m.width, m.height) == (w, h) {
          FitIsClear(screen, sprite, (w, h), obstacles, m);
        } else {
          OfThatSize(screen, sprite, (w, h), obstacles, m);
        }
      }
      var above: Rect := Box(MessageX(screen, sprite, w), sprite.y - gap - h, w, h);
      var below: Rect := Box(MessageX(screen, sprite, w), sprite.Bottom() + gap, w, h);
      assert forall m :: ClearAbove(screen, sprite, (w, h), gap, obstacles, m) ==> m == above;
      assert forall m :: ClearBelow(screen, sprite, (w, h), gap, obstacles, m) ==> m == below;
      assert MessageFits(screen, sprite, obstacles, above) ==>
          ClearAbove(screen, sprite, (w, h), gap, obstacles, above);
      assert MessageFits(screen, sprite, obstacles, below) ==>
          ClearBelow(screen, sprite, (w, h), gap, obstacles, below);
    }
  }

  lemma OfThatSize(screen: Rect, sprite: Rect, size: (int, int), obstacles: seq<Rect>, m: Rect)
    requires (m.width, m.height) != size
    ensures !ClearOf(screen, sprite, size, obstacles, m)
  {
  }

  /** The loop over the two places. */
  method ClearMessage(screen: Rect, sprite: Rect, size: Option<(int, int)>, gap: int, obstacles: seq<Rect>)
    returns (message: Option<Rect>)
    requires size.Some? ==> size.value.0 >= 1 && size.value.1 >= 1
    ensures message == Report(screen, sprite, size, gap, obstacles)
    ensures message.Some? ==>
              && ContainedBy(message.value, screen)
              && !Overlaps(message.value, sprite) && Free(message.value, obstacles)
    ensures IsReport(screen, sprite, size, gap, obstacles, message)
  {
    hide IsReport, MessageX;
    ReportIs(screen, sprite, size, gap, obstacles);
    if size.None? {
      return None;
    }
    var (w, h) := size.value;
    var x := MessageX(screen, sprite, w);
    var ys := [sprite.y - gap - h, sprite.Bottom() + gap];
    ghost var above: Rect, below: Rect := Box(x, ys[0], w, h), Box(x, ys[1], w, h);
    for i := 0 to |ys|
      invariant i > 0 ==> !MessageFits(screen, sprite, obstacles, above)
      invariant i > 1 ==> !MessageFits(screen, sprite, obstacles, below)
    {
      var candidate: Rect := Box(x, ys[i], w, h);
      assert candidate == if i == 0 then above else below;
      if MessageFits(screen, sprite, obstacles, candidate) {
        AreaIsOverlap(candidate, sprite);
        forall k | 0 <= k < |obstacles| ensures !Overlaps(candidate, obstacles[k]) {
          AreaIsOverlap(candidate, obstacles[k]);
        }
        return Some(candidate);
      }
    }
    return None;
  }

  // ---------- the source's loops ----------

  lemma {:induction false} BesideAppend(spans: seq<Span>, span: Span, size: int, margin: int)
    ensures Beside(spans + [span], size, margin)
            == Beside(spans, size, margin) + [span.lower - margin - size, span.upper + margin]
  {
    if spans == [] {
      assert [span][1..] == [];
    } else {
      BesideAppend(spans[1..], span, size, margin);
      assert (spans + [span])[1..] == spans[1..] + [span];
    }
  }

  method Coordinates(s: Search) returns (horizontal: seq<int>, vertical: seq<int>)
    ensures horizontal == Horizontal(s) && vertical == Vertical(s)
  {
    horizontal := [s.LeftX(), s.RightX()];
    vertical := [s.TopY(), s.BottomY()];
    ghost var columns, rows := Columns(s.obstacles), RowSpans(s.obstacles);
    for i := 0 to |s.obstacles|
      invariant horizontal == [s.LeftX(), s.RightX()] + Beside(columns[..i], s.width, s.margin)
      invariant vertical == [s.TopY(), s.BottomY()] + Beside(rows[..i], s.height, s.margin)
    {
      var obstacle := s.obstacles[i];
      BesideAppend(columns[..i], columns[i], s.width, s.margin);
      BesideAppend(rows[..i], rows[i], s.height, s.margin);
      assert columns[..i + 1] == columns[..i] + [columns[i]] && rows[..i + 1] == rows[..i] + [rows[i]];
      horizontal := horizontal + [obstacle.x - s.margin - s.width, obstacle.Right() + s.margin];
      vertical := vertical + [obstacle.y - s.margin - s.height, obstacle.Bottom() + s.margin];
    }
    assert columns[..|s.obstacles|] == columns && rows[..|s.obstacles|] == rows;
  }

  method ListAnchors(s: Search) returns (positions: seq<Anchor>)
    ensures positions == Anchors(s)
    ensures forall a :: a in positions ==> a.x in {s.LeftX(), s.RightX()} || a.y in {s.TopY(), s.BottomY()}
    ensures forall i :: 0 <= i < 4 ==>
              positions[i].x in {s.LeftX(), s.RightX()} && positions[i].y in {s.TopY(), s.BottomY()}
    ensures var right, bottom := s.screen.x + s.screen.width, s.screen.y + s.screen.height;
            && positions[0] == Anchor(BottomRight, right - s.margin - s.width, bottom - s.margin - s.height)
            && positions[1] == Anchor(BottomLeft, s.screen.x + s.margin, bottom - s.margin - s.height)
            && positions[2] == Anchor(TopRight, right - s.margin - s.width, s.screen.y + s.margin)
            && positions[3] == Anchor(TopLeft, s.screen.x + s.margin, s.screen.y + s.margin)
  {
    var horizontal, vertical := Coordinates(s);
    positions := Corners(s);
    positions := positions + AtColumn(Left, s.LeftX(), vertical);
    positions := positions + AtColumn(Right, s.RightX(), vertical);
    positions := positions + AtRow(Bottom, horizontal, s.BottomY());
    positions := positions + AtRow(Top, horizontal, s.TopY());
  }

  /** Holds every anchor on screen and keeps the first of each position. */
  method PerimeterPositions(s: Search) returns (bounded: seq<Anchor>)
    requires s.Valid()
    ensures bounded == Candidates(s, Anchors(s))
  {
    hide Anchors, Search.Held;
    var positions := ListAnchors(s);
    var seen: set<(int, int)> := {};
    bounded := [];
    for i := 0 to |positions|
      invariant bounded == Candidates(s, positions[..i])
      invariant forall k :: k in seen <==> exists j :: 0 <= j < |bounded| && (bounded[j].x, bounded[j].y) == k
    {
      var p := positions[i];
      assert positions[..i + 1][..i] == positions[..i] && positions[..i + 1][i] == p;
      var sprite := s.Held(p.x, p.y);
      var key := (sprite.x, sprite.y);
      if key !in seen {
        seen := seen + {key};
        var kept := HeldAnchor(s, p);
        ghost var before := bounded;
        bounded := bounded + [kept];
        forall k | k in seen ensures exists j :: 0 <= j < |bounded| && (bounded[j].x, bounded[j].y) == k {
          if k != key {
            var j :| 0 <= j < |before| && (before[j].x, before[j].y) == k;
            assert bounded[j] == before[j];
          } else {
            assert bounded[|before|] == kept;
          }
        }
      }
    }
    assert positions[..|positions|] == positions;
  }

  /** The first candidate with the least covered work. */
  ghost predicate Best(s: Search, candidates: seq<Anchor>, k: nat)
    requires s.Valid() && k < |candidates|
  {
    var least := TotalOverlap(s.Held(candidates[k].x, candidates[k].y), s.obstacles);
    && (forall j :: 0 <= j < |candidates| ==>
        least <= TotalOverlap(s.Held(candidates[j].x, candidates[j].y), s.obstacles))
    && (forall j :: 0 <= j < k ==> least < TotalOverlap(s.Held(candidates[j].x, candidates[j].y), s.obstacles))
  }

  /** The layout's sprite and edge are those of the first best candidate. */
  ghost predicate Chosen(s: Search, candidates: seq<Anchor>, k: nat, layout: Layout)
    requires s.Valid() && k < |candidates|
  {
    && Best(s, candidates, k) && candidates[k].edge == layout.edge
    && s.Held(candidates[k].x, candidates[k].y) == layout.sprite
  }

  method Rank(s: Search, candidates: seq<Anchor>) returns (best: nat)
    requires s.Valid() && candidates != []
    ensures best < |candidates| && Best(s, candidates, best)
  {
    best := 0;
    for k := 1 to |candidates|
      invariant best < k && Best(s, candidates[..k], best)
    {
      var current := TotalOverlap(s.Held(candidates[k].x, candidates[k].y), s.obstacles);
      var least := TotalOverlap(s.Held(candidates[best].x, candidates[best].y), s.obstacles);
      assert forall j :: 0 <= j < k ==> candidates[..k + 1][j] == candidates[..k][j] == candidates[j];
      if current < least {
        best := k;
      }
    }
    assert candidates[..|candidates|] == candidates;
  }

  /** The whole placement. */
  method Place(screen: Rect, width: int, height: int, message: Option<(int, int)>, occupied: seq<Rect>,
               margin: int, gap: int) returns (r: Result<Layout, Refusal>)
    ensures var s := Search(screen, width, height, margin, occupied);
            && (r == Err(InvalidValues) <==> width < 1 || height < 1 || margin < 0 || gap < 0)
            && (r.Ok? ==> s.Valid())
            && (r.Err? <==>
                width < 1 || height < 1 || margin < 0 || gap < 0
                || (message.Some? && (message.value.0 < 1 || message.value.1 < 1
                                      || message.value.0 > screen.width || message.value.1 > screen.height))
                || width > screen.width || height > screen.height)
    ensures r.Ok? ==>
              var s, layout := Search(screen, width, height, margin, occupied), r.value;
              && ContainedBy(layout.sprite, screen) && (layout.sprite.width, layout.sprite.height) == (width, height)
              && (exists a :: a in Anchors(s) && a.edge == layout.edge && s.Held(a.x, a.y) == layout.sprite)
              && layout.overlap == TotalOverlap(layout.sprite, occupied)
              && (forall a :: a in Anchors(s) ==> layout.overlap <= TotalOverlap(s.Held(a.x, a.y), occupied))
              && (layout.clear <==> FreeAnchor(s))
              && (layout.clear <==> Free(layout.sprite, occupied))
              && (Room(s) ==> layout.clear)
              && (margin == 0 ==>
                  (layout.clear <==> (exists sprite :: OnPerimeter(s, sprite) && Free(sprite, occupied))))
    ensures r.Ok? ==>
              var s, layout := Search(screen, width, height, margin, occupied), r.value;
              && layout.message
                 == (if layout.clear then Report(screen, layout.sprite, message, gap, occupied) else None)
              && (layout.clear ==> IsReport(screen, layout.sprite, message, gap, occupied, layout.message))
              && exists k :: 0 <= k < |Candidates(s, Anchors(s))| && Chosen(s, Candidates(s, Anchors(s)), k, layout)
    ensures r.Ok? ==>
              var s, layout := Search(screen, width, height, margin, occupied), r.value;
              exists k: nat :: FirstOfLeast(s, layout.edge, k) && layout.sprite == PlaceOn(s, layout.edge, k)
    ensures r.Ok? ==> CornersFirst(Search(screen, width, height, margin, occupied), r.value.edge, r.value.sprite)
    ensures r.Ok? && r.value.message.Some? ==>
              var layout := r.value;
              && layout.clear
              && ContainedBy(layout.message.value, screen)
              && !Overlaps(layout.message.value, layout.sprite) && Free(layout.message.value, occupied)
  {
    if width < 1 || height < 1 || margin < 0 || gap < 0 {
      return Err(InvalidValues);
    }
    if message.Some? && (message.value.0 < 1 || message.value.1 < 1) {
      return Err(InvalidMessage);
    }
    if message.Some? && (message.value.0 > screen.width || message.value.1 > screen.height) {
      return Err(DoesNotFit);
    }
    if width > screen.width || height > screen.height {
      return Err(DoesNotFit);
    }
    var s := Search(screen, width, height, margin, occupied);
    var candidates := PerimeterPositions(s);
    CandidatesCoverAnchors(s, Anchors(s));
    assert Seen(candidates, s.Held(Anchors(s)[0].x, Anchors(s)[0].y));
    var best := Rank(s, candidates);
    var chosen := candidates[best];
    var sprite := s.Held(chosen.x, chosen.y);
    var overlap := TotalOverlap(sprite, occupied);
    var report := ClearMessage(screen, sprite, message, gap, occupied);
    if overlap != 0 {
      report := None;
    }
    LeastOverAnchors(s, best);
    r := Ok(Layout(sprite, report, chosen.edge, overlap, overlap == 0));
    assert Chosen(s, candidates, best, r.value);
    ghost var k := BestIsFirstOfLeast(s, best);
    FirstIsCorner(s, chosen.edge, k);
    if Room(s) { SearchIsComplete(s); }
    if margin == 0 { ExactWithoutMargin(s); }
  }

  /** Least among the candidates is least among all anchors, and zero exactly when one is free. */
  lemma LeastOverAnchors(s: Search, best: nat)
    requires s.Valid() && best < |Candidates(s, Anchors(s))| && Best(s, Candidates(s, Anchors(s)), best)
    ensures var candidates := Candidates(s, Anchors(s));
            var sprite := s.Held(candidates[best].x, candidates[best].y);
            var least := TotalOverlap(sprite, s.obstacles);
            && (exists a :: a in Anchors(s) && a.edge == candidates[best].edge && s.Held(a.x, a.y) == sprite)
            && (forall a :: a in Anchors(s) ==> least <= TotalOverlap(s.Held(a.x, a.y), s.obstacles))
            && (least == 0 <==> FreeAnchor(s))
            && (least == 0 <==> Free(sprite, s.obstacles))
  {
    hide Anchors, Candidates, TotalOverlap;
    var anchors, candidates := Anchors(s), Candidates(s, Anchors(s));
    var sprite := s.Held(candidates[best].x, candidates[best].y);
    var least := TotalOverlap(sprite, s.obstacles);
    CandidatesCoverAnchors(s, anchors);
    assert candidates[best] in candidates;
    NoOverlapIsFree(sprite, s.obstacles);
    forall a | a in anchors
      ensures least <= TotalOverlap(s.Held(a.x, a.y), s.obstacles)
      ensures Free(s.Held(a.x, a.y), s.obstacles) ==> least == 0
    {
      var at := s.Held(a.x, a.y);
      assert Seen(candidates, at);
      var j :| 0 <= j < |candidates| && candidates[j].x == at.x && candidates[j].y == at.y;
      assert s.Held(candidates[j].x, candidates[j].y) == at;
      NoOverlapIsFree(at, s.obstacles);
    }
  }

  lemma AnchorRows(s: Search, a: Anchor)
    requires a in Anchors(s)
    ensures a.y in Vertical(s)
  {
    hide Horizontal, Beside;
    assert Vertical(s)[0] == s.TopY() && Vertical(s)[1] == s.BottomY();
  }

  /** A screen as wide as the sprite, with a gap that exactly holds it between two blocks of work. */
  function TightGap(width: int, height: int, margin: int): Search
    requires 1 <= width && 1 <= height && 1 <= margin
  {
    var block := margin + 1;
    Search(Box(0, 0, width, 2 * block + height), width, height, margin,
           [Box(0, 0, width, block), Box(0, block + height, width, block)])
  }

  /** Whatever the sprite's size, every positive margin misses some free perimeter position. */
  lemma GapIsMissed(width: int, height: int, margin: int)
    requires 1 <= width && 1 <= height && 1 <= margin
    ensures var s := TightGap(width, height, margin);
            && s.Valid() && !FreeAnchor(s)
            && OnPerimeter(s, Box(0, margin + 1, width, height)) && Free(Box(0, margin + 1, width, height), s.obstacles)
  {
    hide Anchors, Vertical;
    var s := TightGap(width, height, margin);
    TightGapRows(s, width, height, margin);
    forall a | a in Anchors(s)
      ensures !Free(s.Held(a.x, a.y), s.obstacles)
    {
      AnchorRows(s, a);
      OffTheGap(s, a.x, a.y, s.obstacles[0], s.obstacles[1]);
    }
  }

  /** A yield is right on this screen: no position on the perimeter is free. */
  ghost predicate YieldIsRight(s: Search)
    requires s.Valid()
  {
    !FreeAnchor(s) ==> forall sprite :: OnPerimeter(s, sprite) ==> !Free(sprite, s.obstacles)
  }

  /** For a sprite of any size, a yield is right on every screen with any declared work if and only
      if the margin is zero. */
  lemma YieldIsRightExactlyWithoutMargin(width: int, height: int, margin: int)
    requires 1 <= width && 1 <= height && 0 <= margin
    ensures (forall s: Search :: (s.width, s.height, s.margin) == (width, height, margin) && s.Valid() ==>
             YieldIsRight(s)) <==> margin == 0
  {
    hide FreeAnchor, OnPerimeter, Free;
    if margin > 0 {
      GapIsMissed(width, height, margin);
      var s := TightGap(width, height, margin);
      assert s.Valid() && !YieldIsRight(s);
    } else {
      forall s: Search | (s.width, s.height, s.margin) == (width, height, margin) && s.Valid()
        ensures YieldIsRight(s)
      {
        ExactWithoutMargin(s);
      }
    }
  }

  lemma OffTheGap(s: Search, x: int, y: int, upper: Rect, lower: Rect)
    requires s.Valid() && s.screen.x == 0 && s.screen.width == s.width
    requires |s.obstacles| == 2 && s.obstacles[0] == upper && s.obstacles[1] == lower
    requires upper.x == lower.x == 0 && upper.width == lower.width == s.width
    requires upper.y == s.screen.y && lower.y == upper.Bottom() + s.height && lower.Bottom() == s.screen.Bottom()
    requires y != upper.Bottom()
    ensures !Free(s.Held(x, y), s.obstacles)
  {
    var sprite := s.Held(x, y);
    if sprite.y < upper.Bottom() {
      assert Overlaps(sprite, s.obstacles[0]);
    } else {
      assert Overlaps(sprite, s.obstacles[1]);
    }
  }

  lemma TightGapRows(s: Search, width: int, height: int, margin: int)
    requires 1 <= width && 1 <= height && 1 <= margin && s == TightGap(width, height, margin)
    ensures margin + 1 !in Vertical(s)
  {
    var spans, block := RowSpans(s.obstacles), margin + 1;
    assert spans == [Span(0, block), Span(block + height, 2 * block + height)];
    assert spans[1..][1..] == [];
    assert Beside(spans[1..], height, margin) == [block - margin, 2 * block + height + margin];
    assert Beside(spans, height, margin)
           == [-margin - height, block + margin, block - margin, 2 * block + height + margin];
    assert Vertical(s) == [margin, 2 * block - margin] + Beside(spans, height, margin);
  }
}
