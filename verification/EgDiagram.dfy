/**
 Drawing an execution graph as a row of boxes with right-angled connectors
 (static/js/utils/eg-bpmn.js).
 */
module EgDiagram {

  datatype Kind = StartNode | TerminalNode | OtherNode(name: string)

  datatype Node = Node(id: string, kind: Kind)

  datatype Edge = Edge(from: string, to: string)

  datatype Box = Box(x: int, y: int, width: int, height: int)

  datatype Point = Point(x: int, y: int)

  /** `Math.round(n / 2)`: halves go up. */
  function HalfRounded(n: int): int { (n + 1) / 2 }

  predicate Small(kind: Kind) { kind.StartNode? || kind.TerminalNode? }

  function BoxAt(index: nat, kind: Kind): Box {
    var width, height := if Small(kind) then 48 else 156, if Small(kind) then 48 else 82;
    Box(90 + index * 230, 170 - HalfRounded(height), width, height)
  }

  ghost predicate UniqueIds(nodes: seq<Node>) {
    forall i, j :: 0 <= i < j < |nodes| ==> nodes[i].id != nodes[j].id
  }

  /** The box in column `index`: 230 apart from 90 on, the middles at 170, small squares for the two ends. */
  predicate Stands(b: Box, index: nat, kind: Kind) {
    && b.x == 90 + 230 * index && b.y + b.y + b.height == 340
    && (kind.StartNode? || kind.TerminalNode? ==> b.width == 48 && b.height == 48)
    && (kind.OtherNode? ==> b.width == 156 && b.height == 82)
  }

  method BuildLayout(nodes: seq<Node>) returns (layout: map<string, Box>)
    requires UniqueIds(nodes)
    ensures layout.Keys == Ids(nodes)
    ensures forall i :: 0 <= i < |nodes| ==> nodes[i].id in layout && layout[nodes[i].id] == BoxAt(i, nodes[i].kind)
    ensures forall i :: 0 <= i < |nodes| ==> nodes[i].id in layout && Stands(layout[nodes[i].id], i, nodes[i].kind)
  {
    layout := map[];
    for i := 0 to |nodes|
      invariant layout.Keys == Ids(nodes[..i])
      invariant forall j :: 0 <= j < i ==> nodes[j].id in layout && layout[nodes[j].id] == BoxAt(j, nodes[j].kind)
    {
      layout := layout[nodes[i].id := BoxAt(i, nodes[i].kind)];
      assert nodes[..i + 1] == nodes[..i] + [nodes[i]];
    }
    assert nodes[..|nodes|] == nodes;
  }

  function Ids(nodes: seq<Node>): set<string> { set n | n in nodes :: n.id }

  // ------------------------------------------------------------------ routes

  function Min(a: int, b: int): int { if a < b then a else b }

  function Max(a: int, b: int): int { if a > b then a else b }

  function CenterX(b: Box): int { b.x + HalfRounded(b.width) }

  function MiddleY(b: Box): int { b.y + HalfRounded(b.height) }

  function LoopRoute(s: Box): seq<Point> {
    var loopX, loopY := s.x + s.width + 54, s.y + s.height + 52;
    [Point(s.x + s.width, MiddleY(s)), Point(loopX, MiddleY(s)), Point(loopX, loopY),
     Point(CenterX(s), loopY), Point(CenterX(s), s.y + s.height)]
  }

  function NeighbourRoute(s: Box, t: Box, forward: bool): seq<Point> {
    var startX := if forward then s.x + s.width else s.x;
    var endX := if forward then t.x else t.x + t.width;
    var midX := HalfRounded(startX + endX);
    [Point(startX, MiddleY(s)), Point(midX, MiddleY(s)), Point(midX, MiddleY(t)), Point(endX, MiddleY(t))]
  }

  function LaneRoute(s: Box, t: Box, forward: bool, distance: nat): seq<Point> {
    var lane := Min(4, Max(0, distance - 2));
    if forward then
      var laneY := Min(s.y, t.y) - 80 - lane * 34;
      [Point(CenterX(s), s.y), Point(CenterX(s), laneY), Point(CenterX(t), laneY), Point(CenterX(t), t.y)]
    else
      var laneY := Max(s.y + s.height, t.y + t.height) + 80 + lane * 34;
      [Point(CenterX(s), s.y + s.height), Point(CenterX(s), laneY), Point(CenterX(t), laneY),
       Point(CenterX(t), t.y + t.height)]
  }

  /** The route between the boxes at two positions. */
  function Route(s: Box, t: Box, i: nat, j: nat): seq<Point> {
    var distance := if j > i then j - i else i - j;
    if i == j then LoopRoute(s)
    else if distance == 1 then NeighbourRoute(s, t, j > i)
    else LaneRoute(s, t, j > i, distance)
  }

  function IndexOf(nodes: seq<Node>, id: string): (i: nat)
    requires id in Ids(nodes)
    ensures i < |nodes| && nodes[i].id == id
  {
    if nodes[0].id == id then 0
    else
      assert nodes == [nodes[0]] + nodes[1..];
      1 + IndexOf(nodes[1..], id)
  }

  function EdgeWaypoints(edge: Edge, nodes: seq<Node>, layout: map<string, Box>): seq<Point>
    requires edge.from in Ids(nodes) && edge.to in Ids(nodes) && layout.Keys == Ids(nodes)
  {
    Route(layout[edge.from], layout[edge.to], IndexOf(nodes, edge.from), IndexOf(nodes, edge.to))
  }

  // ---------------------------------------------------------------- geometry

  /** The middle of one of the four sides. */
  predicate AtSide(p: Point, b: Box) {
    || ((p.x == b.x || p.x == b.x + b.width) && p.y + p.y == b.y + b.y + b.height)
    || ((p.y == b.y || p.y == b.y + b.height) && p.x + p.x == b.x + b.x + b.width)
  }

  predicate Straight(p: Point, q: Point) { p.x == q.x || p.y == q.y }

  /** A straight leg has a point strictly inside a box. */
  predicate Enters(p: Point, q: Point, b: Box) {
    && Min(p.x, q.x) < b.x + b.width && Max(p.x, q.x) > b.x
    && Min(p.y, q.y) < b.y + b.height && Max(p.y, q.y) > b.y
  }

  ghost predicate GoodRoute(route: seq<Point>, s: Box, t: Box, nodes: seq<Node>) {
    && |route| >= 2 && AtSide(route[0], s) && AtSide(route[|route| - 1], t)
    && (forall k :: 0 <= k < |route| - 1 ==> Straight(route[k], route[k + 1]))
    && (forall k, n :: 0 <= k < |route| - 1 && 0 <= n < |nodes| ==>
          !Enters(route[k], route[k + 1], BoxAt(n, nodes[n].kind)))
  }

  /** The boxes stand in a row: apart, in the order of the nodes, and all as `Stands` says. */
  lemma BoxesApart(nodes: seq<Node>, i: nat, j: nat)
    requires i < j < |nodes|
    ensures var a, b := BoxAt(i, nodes[i].kind), BoxAt(j, nodes[j].kind);
            a.x + a.width < b.x && Stands(a, i, nodes[i].kind) && Stands(b, j, nodes[j].kind)
  {
    assert i * 230 + 230 <= j * 230;
  }

  lemma LoopClear(i: nat, kind: Kind, n: nat, other: Kind, k: nat)
    requires k < 4 && (n == i ==> other == kind)
    ensures var r := LoopRoute(BoxAt(i, kind)); !Enters(r[k], r[k + 1], BoxAt(n, other))
  {
    if n < i { assert n * 230 + 230 <= i * 230; }
    if n > i { assert i * 230 + 230 <= n * 230; }
  }

  lemma NeighbourClear(i: nat, j: nat, from: Kind, to: Kind, n: nat, other: Kind, k: nat)
    requires k < 3 && (j == i + 1 || i == j + 1) && (n == i ==> other == from) && (n == j ==> other == to)
    ensures var r := NeighbourRoute(BoxAt(i, from), BoxAt(j, to), j > i); !Enters(r[k], r[k + 1], BoxAt(n, other))
  {
    if n < Min(i, j) { assert n * 230 + 230 <= Min(i, j) * 230; }
    if n > Max(i, j) { assert Max(i, j) * 230 + 230 <= n * 230; }
  }

  lemma LaneClear(i: nat, j: nat, from: Kind, to: Kind, distance: nat, n: nat, other: Kind, k: nat)
    requires k < 3 && i != j && (n == i ==> other == from) && (n == j ==> other == to)
    ensures var r := LaneRoute(BoxAt(i, from), BoxAt(j, to), j > i, distance); !Enters(r[k], r[k + 1], BoxAt(n, other))
  {
    if n < i { assert n * 230 + 230 <= i * 230; }
    if n > i { assert i * 230 + 230 <= n * 230; }
    if n < j { assert n * 230 + 230 <= j * 230; }
    if n > j { assert j * 230 + 230 <= n * 230; }
  }

  /** Every route between two nodes of a row is right-angled, joins its own boxes and crosses none. */
  lemma RouteIsGood(nodes: seq<Node>, i: nat, j: nat)
    requires i < |nodes| && j < |nodes|
    ensures var s, t := BoxAt(i, nodes[i].kind), BoxAt(j, nodes[j].kind); GoodRoute(Route(s, t, i, j), s, t, nodes)
  {
    var s, t := BoxAt(i, nodes[i].kind), BoxAt(j, nodes[j].kind);
    var route := Route(s, t, i, j);
    forall k, n | 0 <= k < |route| - 1 && 0 <= n < |nodes|
      ensures !Enters(route[k], route[k + 1], BoxAt(n, nodes[n].kind))
    {
      if i == j { LoopClear(i, nodes[i].kind, n, nodes[n].kind, k); }
      else if j == i + 1 || i == j + 1 { NeighbourClear(i, j, nodes[i].kind, nodes[j].kind, n, nodes[n].kind, k); }
      else { LaneClear(i, j, nodes[i].kind, nodes[j].kind, if j > i then j - i else i - j, n, nodes[n].kind, k); }
    }
  }

  /**
   How far routes keep from boxes: a loop passes 54 to the right of its box and 52
   below; neighbours are joined halfway between them; any other connector runs above
   or below both its boxes, 80 away from the outer one and 34 more for each further
   step up to the sixth.
   */
  lemma Clearances(nodes: seq<Node>, i: nat, j: nat)
    requires i < |nodes| && j < |nodes|
    ensures var s, t := BoxAt(i, nodes[i].kind), BoxAt(j, nodes[j].kind);
            var r := Route(s, t, i, j);
            if i == j then
              && |r| == 5 && r[1].x == r[2].x == s.x + s.width + 54 && r[2].y == r[3].y == s.y + s.height + 52
            else
              && |r| == 4
              && (Span(i, j) == 1 ==>
                    r[1].x == r[2].x && -1 <= (r[1].x - r[0].x) - (r[3].x - r[2].x) <= 1)
              && (Span(i, j) > 1 ==>
                    && r[1].y == r[2].y
                    && var outer := 80 + 34 * (if Span(i, j) < 6 then Span(i, j) - 2 else 4);
                       if j > i
                       then r[1].y + outer <= s.y && r[1].y + outer <= t.y && r[1].y + outer in {s.y, t.y}
                       else
                         && r[1].y - outer >= s.y + s.height && r[1].y - outer >= t.y + t.height
                         && r[1].y - outer in {s.y + s.height, t.y + t.height})
  {
  }

  function Span(i: nat, j: nat): nat { if j > i then j - i else i - j }

  /** Where the long horizontal leg of a connector over more than one step runs. */
  function LaneHeight(nodes: seq<Node>, i: nat, j: nat): int
    requires i < |nodes| && j < |nodes| && Span(i, j) >= 2
  {
    Route(BoxAt(i, nodes[i].kind), BoxAt(j, nodes[j].kind), i, j)[1].y
  }

  /** Forward connectors run above all boxes, and backward ones below. */
  lemma LaneOutside(nodes: seq<Node>, i: nat, j: nat, n: nat)
    requires i < |nodes| && j < |nodes| && Span(i, j) >= 2 && n < |nodes|
    ensures var b := BoxAt(n, nodes[n].kind);
            if j > i then LaneHeight(nodes, i, j) < b.y else b.y + b.height < LaneHeight(nodes, i, j)
  {
  }

  /**
   The longer a connector, the further out it runs, so that connectors over two to six
   steps never share a height with those of another span or direction.
   */
  lemma LanesApart(nodes: seq<Node>, i: nat, j: nat, k: nat, l: nat)
    requires i < |nodes| && j < |nodes| && k < |nodes| && l < |nodes| && 2 <= Span(i, j) && 2 <= Span(k, l)
    ensures Span(i, j) < Span(k, l) && Span(i, j) < 6 ==>
              && (j > i && l > k ==> LaneHeight(nodes, k, l) < LaneHeight(nodes, i, j))
              && (j < i && l < k ==> LaneHeight(nodes, i, j) < LaneHeight(nodes, k, l))
    ensures j > i && l < k ==> LaneHeight(nodes, i, j) < LaneHeight(nodes, k, l)
  {
    LaneOutside(nodes, i, j, i);
    LaneOutside(nodes, k, l, i);
  }

  /** Any edge between uniquely named nodes is drawn well over the layout. */
  lemma EdgesDrawnWell(nodes: seq<Node>, layout: map<string, Box>, edge: Edge)
    requires UniqueIds(nodes) && edge.from in Ids(nodes) && edge.to in Ids(nodes) && layout.Keys == Ids(nodes)
    requires forall i :: 0 <= i < |nodes| ==> nodes[i].id in layout && layout[nodes[i].id] == BoxAt(i, nodes[i].kind)
    ensures GoodRoute(EdgeWaypoints(edge, nodes, layout), layout[edge.from], layout[edge.to], nodes)
  {
    RouteIsGood(nodes, IndexOf(nodes, edge.from), IndexOf(nodes, edge.to));
  }

  // ------------------------------------------------------------------- edges

  function Key(e: Edge): string { e.from + "->" + e.to }

  predicate Known(nodes: seq<Node>, e: Edge) { e.from in Ids(nodes) && e.to in Ids(nodes) }

  /** One edge from each of the first n nodes to the next. */
  ghost predicate Chained(edges: seq<Edge>, nodes: seq<Node>, n: nat)
    requires n < |nodes| || n == 0
  {
    |edges| == n && forall i :: 0 <= i < n ==> edges[i] == Edge(nodes[i].id, nodes[i + 1].id)
  }

  ghost predicate HasKey(edges: seq<Edge>, key: string) {
    exists i :: 0 <= i < |edges| && Key(edges[i]) == key
  }

  /** The known edges, the first of each key, in order. */
  ghost function Firsts(raw: seq<Edge>, nodes: seq<Node>): seq<Edge> {
    if raw == [] then []
    else
      var init, e := Firsts(raw[..|raw| - 1], nodes), raw[|raw| - 1];
      if Known(nodes, e) && !HasKey(init, Key(e)) then init + [e] else init
  }

  method NormalizeEdges(raw: seq<Edge>, nodes: seq<Node>) returns (edges: seq<Edge>)
    ensures Firsts(raw, nodes) != [] ==> edges == Firsts(raw, nodes)
    ensures Firsts(raw, nodes) == [] ==> Chained(edges, nodes, if nodes == [] then 0 else |nodes| - 1)
  {
    edges := [];
    var seen: set<string> := {};
    for i := 0 to |raw|
      invariant edges == Firsts(raw[..i], nodes)
      invariant forall key :: key in seen <==> HasKey(edges, key)
    {
      var e := raw[i];
      assert raw[..i + 1][..i] == raw[..i];
      if Known(nodes, e) && Key(e) !in seen {
        HasKeyStep(edges, e);
        seen := seen + {Key(e)};
        edges := edges + [e];
      }
    }
    assert raw[..|raw|] == raw;
    if edges == [] && |nodes| > 1 {
      for i := 0 to |nodes| - 1
        invariant Chained(edges, nodes, i)
      {
        edges := edges + [Edge(nodes[i].id, nodes[i + 1].id)];
      }
    }
  }

  lemma HasKeyStep(edges: seq<Edge>, e: Edge)
    ensures forall key :: HasKey(edges + [e], key) <==> HasKey(edges, key) || key == Key(e)
  {
    forall key ensures HasKey(edges + [e], key) <==> HasKey(edges, key) || key == Key(e) {
      assert (edges + [e])[|edges|] == e;
      if i :| 0 <= i < |edges| && Key(edges[i]) == key { assert (edges + [e])[i] == edges[i]; }
    }
  }

  /** A known edge before which no known edge has its key. */
  ghost predicate IsFirst(raw: seq<Edge>, nodes: seq<Node>, i: int) {
    0 <= i < |raw| && Known(nodes, raw[i]) && !HasKnownKey(raw[..i], nodes, Key(raw[i]))
  }

  ghost predicate HasKnownKey(raw: seq<Edge>, nodes: seq<Node>, key: string) {
    exists i :: 0 <= i < |raw| && Known(nodes, raw[i]) && Key(raw[i]) == key
  }

  ghost predicate DistinctKeys(edges: seq<Edge>) {
    forall i, j :: 0 <= i < j < |edges| ==> Key(edges[i]) != Key(edges[j])
  }

  lemma {:induction false} FirstsKeys(raw: seq<Edge>, nodes: seq<Node>)
    ensures forall key :: HasKey(Firsts(raw, nodes), key) <==> HasKnownKey(raw, nodes, key)
    ensures DistinctKeys(Firsts(raw, nodes))
  {
    if raw != [] {
      var init, e := raw[..|raw| - 1], raw[|raw| - 1];
      FirstsKeys(init, nodes);
      HasKeyStep(Firsts(init, nodes), e);
      assert raw == init + [e];
      forall key
        ensures HasKnownKey(raw, nodes, key) <==> HasKnownKey(init, nodes, key) || (Known(nodes, e) && Key(e) == key)
      {
        if i :| 0 <= i < |init| && Known(nodes, init[i]) && Key(init[i]) == key { assert raw[i] == init[i]; }
      }
    }
  }

  /** What is found in a front part comes first. */
  lemma {:induction false} FirstsPrefix(raw: seq<Edge>, nodes: seq<Node>, n: nat)
    requires n <= |raw|
    ensures Firsts(raw[..n], nodes) <= Firsts(raw, nodes)
    decreases |raw|
  {
    if n == |raw| {
      assert raw[..n] == raw;
    } else {
      var init := raw[..|raw| - 1];
      FirstsPrefix(init, nodes, n);
      assert init[..n] == raw[..n];
    }
  }

  lemma FirstEnters(raw: seq<Edge>, nodes: seq<Node>, i: nat)
    requires IsFirst(raw, nodes, i)
    ensures Firsts(raw[..i], nodes) + [raw[i]] <= Firsts(raw, nodes)
  {
    assert raw[..i + 1][..i] == raw[..i];
    FirstsKeys(raw[..i], nodes);
    FirstsPrefix(raw, nodes, i + 1);
  }

  lemma {:induction false} FirstsAreFirst(raw: seq<Edge>, nodes: seq<Node>, k: nat) returns (i: nat)
    requires k < |Firsts(raw, nodes)|
    ensures IsFirst(raw, nodes, i) && raw[i] == Firsts(raw, nodes)[k]
  {
    var init := raw[..|raw| - 1];
    if k < |Firsts(init, nodes)| {
      i := FirstsAreFirst(init, nodes, k);
      assert init[..i] == raw[..i];
    } else {
      i := |raw| - 1;
      FirstsKeys(init, nodes);
    }
  }

  /**
   The edges kept are exactly the known ones whose key no earlier known edge has,
   in their order and each once; when there is no known edge, nothing is kept and
   the chain through the nodes is drawn instead.
   */
  lemma EdgesKept(raw: seq<Edge>, nodes: seq<Node>)
    ensures forall i :: IsFirst(raw, nodes, i) ==> Firsts(raw[..i], nodes) + [raw[i]] <= Firsts(raw, nodes)
    ensures forall e :: e in Firsts(raw, nodes) ==> exists i :: IsFirst(raw, nodes, i) && raw[i] == e
    ensures DistinctKeys(Firsts(raw, nodes))
    ensures Firsts(raw, nodes) == [] <==> forall i :: 0 <= i < |raw| ==> !Known(nodes, raw[i])
  {
    FirstsKeys(raw, nodes);
    forall i | IsFirst(raw, nodes, i) ensures Firsts(raw[..i], nodes) + [raw[i]] <= Firsts(raw, nodes) {
      FirstEnters(raw, nodes, i);
    }
    forall e | e in Firsts(raw, nodes) ensures exists i :: IsFirst(raw, nodes, i) && raw[i] == e {
      var k :| 0 <= k < |Firsts(raw, nodes)| && Firsts(raw, nodes)[k] == e;
      var i := FirstsAreFirst(raw, nodes, k);
    }
    if i :| 0 <= i < |raw| && Known(nodes, raw[i]) { assert HasKnownKey(raw, nodes, Key(raw[i])); }
    if Firsts(raw, nodes) != [] { assert HasKey(Firsts(raw, nodes), Key(Firsts(raw, nodes)[0])); }
  }

  // ------------------------------------------------------- when edges clash

  const ARROW := "->"

  /** `middle` with an arrow can be read as the end of one id or as the start of another. */
  ghost predicate ClashAt(ids: set<string>, start: string, middle: string, end: string) {
    start in ids && end in ids && start + ARROW + middle in ids && middle + ARROW + end in ids
  }

  ghost predicate Clashing(ids: set<string>) { exists start, middle, end :: ClashAt(ids, start, middle, end) }

  lemma SplitKey(x: Edge, y: Edge)
    requires Key(x) == Key(y) && |x.from| < |y.from|
    ensures |x.from| + 2 <= |y.from|
    ensures var middle := y.from[|x.from| + 2..]; y.from == x.from + ARROW + middle && x.to == middle + ARROW + y.to
  {
    var m, n, key := |x.from|, |y.from|, Key(x);
    assert key[m] == '-' && key[m + 1] == '>' && key[n] == '-' && key[n + 1] == '>';
    assert key[..n] == y.from && key[n + 2..] == y.to && key[m + 2..] == x.to;
    var middle := y.from[m + 2..];
    assert y.from == key[..m] + key[m..m + 2] + key[m + 2..n];
    assert x.to == key[m + 2..n] + key[n..n + 2] + key[n + 2..];
    assert key[m..m + 2] == ARROW && key[n..n + 2] == ARROW && key[..m] == x.from && key[m + 2..n] == middle;
  }

  lemma SameLength(x: Edge, y: Edge)
    requires Key(x) == Key(y) && |x.from| == |y.from|
    ensures x == y
  {
    assert x.from == Key(x)[..|x.from|] == y.from;
    assert x.to == Key(x)[|x.from| + 2..] == y.to;
  }

  /** Without a clash, known edges are told apart by their keys. */
  lemma KeyTellsApart(nodes: seq<Node>, x: Edge, y: Edge)
    requires Known(nodes, x) && Known(nodes, y) && Key(x) == Key(y) && !Clashing(Ids(nodes))
    ensures x == y
  {
    if |x.from| == |y.from| {
      SameLength(x, y);
    } else {
      var a, b := if |x.from| < |y.from| then x else y, if |x.from| < |y.from| then y else x;
      SplitKey(a, b);
      assert ClashAt(Ids(nodes), a.from, b.from[|a.from| + 2..], b.to);
    }
  }

  /** A clash makes two different edges of which the later is dropped. */
  lemma ClashDrops(nodes: seq<Node>) returns (x: Edge, y: Edge)
    requires Clashing(Ids(nodes))
    ensures x != y && Known(nodes, x) && Known(nodes, y) && Firsts([x, y], nodes) == [x]
  {
    var start, middle, end :| ClashAt(Ids(nodes), start, middle, end);
    x, y := Edge(start, middle + ARROW + end), Edge(start + ARROW + middle, end);
    assert |x.from| < |y.from|;
    TwoReadings(start, middle, end);
    SecondDropped(nodes, x, y);
  }

  lemma TwoReadings(start: string, middle: string, end: string)
    ensures Key(Edge(start, middle + ARROW + end)) == Key(Edge(start + ARROW + middle, end))
  {
  }

  lemma SecondDropped(nodes: seq<Node>, x: Edge, y: Edge)
    requires Known(nodes, x) && Known(nodes, y) && Key(x) == Key(y)
    ensures Firsts([x, y], nodes) == [x]
  {
    assert [x, y][..1] == [x] && [x][..0] == [];
    assert Firsts([x], nodes) == [x];
    assert HasKey([x], Key(y)) by { assert Key([x][0]) == Key(y); }
  }

  lemma KeptWithoutClash(nodes: seq<Node>, raw: seq<Edge>, e: Edge)
    requires !Clashing(Ids(nodes)) && e in raw && Known(nodes, e)
    ensures e in Firsts(raw, nodes)
  {
    FirstsKeys(raw, nodes);
    var i :| 0 <= i < |raw| && raw[i] == e;
    assert HasKnownKey(raw, nodes, Key(e));
    var k :| 0 <= k < |Firsts(raw, nodes)| && Key(Firsts(raw, nodes)[k]) == Key(e);
    var j := FirstsAreFirst(raw, nodes, k);
    KeyTellsApart(nodes, raw[j], e);
  }

  ghost predicate KeepsEveryEdge(nodes: seq<Node>) {
    forall raw: seq<Edge>, e :: e in raw && Known(nodes, e) ==> e in Firsts(raw, nodes)
  }

  /** No known edge is ever lost exactly when no arrow in an id can be read in two ways. */
  lemma EveryEdgeKeptIff(nodes: seq<Node>)
    ensures KeepsEveryEdge(nodes) <==> !Clashing(Ids(nodes))
  {
    if Clashing(Ids(nodes)) {
      var x, y := ClashDrops(nodes);
      assert y in [x, y];
    } else {
      forall raw: seq<Edge>, e | e in raw && Known(nodes, e) ensures e in Firsts(raw, nodes) {
        KeptWithoutClash(nodes, raw, e);
      }
    }
  }

  /** Four ids that clash. */
  lemma KeysCanClash(nodes: seq<Node>)
    requires {"a->b", "c", "a", "b->c"} <= Ids(nodes)
    ensures Clashing(Ids(nodes))
  {
    assert "a" + ARROW + "b" == "a->b" && "b" + ARROW + "c" == "b->c";
    assert ClashAt(Ids(nodes), "a", "b", "c");
  }
}
