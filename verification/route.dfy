/** The transit route tile: a scrolling list of stop times, each coloured by
    how soon the stop is. */
module Route {
  import opened Wrappers
  import opened Geometry
  import opened BaseTile

  /** Stops closer than this many seconds may be missed. */
  const SHORT_TIME := 5 * 60
  /** Stops at least this many seconds away are easy to catch. */
  const LONG_TIME := 10 * 60

  const DEFAULT_NAME := "TEST"

  /** A route tile. A missing (empty) name becomes "TEST"; a missing (empty)
      stop list becomes the single stop `now`, whose label size the font
      gives as `nowLabel`. The default scroll vector is (2, 0). */
  function NewRoute(x: int, y: int, scroll: Vec, name: string, stops: seq<Stop>,
                    now: int, nowLabel: Size): (r: Tile)
    ensures r.kind.Route? && !r.displayed && r.currentFrame == 0 && r.cache.None?
    ensures r.start == Vec(x, y) && r.pos == r.start && r.scroll == scroll
    ensures |r.kind.stops| > 0
    ensures |stops| > 0 ==> r.kind.stops == stops
    ensures |stops| == 0 ==> r.kind.stops == [Stop(now, nowLabel)]
    ensures r.kind.name == (if name == "" then DEFAULT_NAME else name)
  {
    var n := if name == "" then DEFAULT_NAME else name;
    var ss := if |stops| == 0 then [Stop(now, nowLabel)] else stops;
    NewTile(Route(n, ss), x, y, scroll)
  }

  /** How pressing a colour is: red 2, yellow 1, anything else 0. */
  function Urgency(c: Rgb): nat
  {
    if c == RED then 2 else if c == YELLOW then 1 else 0
  }

  /** The colour of a stop `delta` seconds away (negative when it is past). */
  function StopFill(delta: int): (c: Rgb)
    ensures c == RED <==> delta < SHORT_TIME
    ensures c == YELLOW <==> SHORT_TIME <= delta < LONG_TIME
    ensures c == GREEN <==> LONG_TIME <= delta
  {
    if delta < SHORT_TIME then RED
    else if delta < LONG_TIME then YELLOW
    else GREEN
  }

  /** The fill colour of every stop, in order, when rendered at `now`. */
  function StopFills(stops: seq<Stop>, now: int): (r: seq<Rgb>)
    ensures |r| == |stops|
    ensures forall i :: 0 <= i < |stops| ==> r[i] == StopFill(stops[i].at - now)
  {
    if |stops| == 0 then [] else [StopFill(stops[0].at - now)] + StopFills(stops[1..], now)
  }

  /** Rendering a route tile at `now` marks it displayed and colours its
      stops; position and frame are untouched. */
  function RenderRoute(t: Tile, now: int): (r: (Tile, seq<Rgb>))
    requires t.kind.Route?
    ensures r.0 == Render(t)
    ensures |r.1| == |t.kind.stops|
    ensures forall i :: 0 <= i < |r.1| ==> r.1[i] == StopFill(t.kind.stops[i].at - now)
  {
    (t.(displayed := true), StopFills(t.kind.stops, now))
  }

  /** A later stop never gets a more urgent colour. */
  lemma UrgencyMonotone(d1: int, d2: int)
    requires d1 <= d2
    ensures Urgency(StopFill(d2)) <= Urgency(StopFill(d1))
  {
  }

  /** Stops listed in time order are coloured in non-increasing urgency. */
  lemma SortedStopsUrgency(stops: seq<Stop>, now: int)
    requires forall i, j :: 0 <= i < j < |stops| ==> stops[i].at <= stops[j].at
    ensures var fills := StopFills(stops, now);
      forall i, j :: 0 <= i < j < |fills| ==> Urgency(fills[j]) <= Urgency(fills[i])
  {
    var fills := StopFills(stops, now);
    forall i, j | 0 <= i < j < |fills|
      ensures Urgency(fills[j]) <= Urgency(fills[i])
    {
      UrgencyMonotone(stops[i].at - now, stops[j].at - now);
    }
  }

  /** The content extent of a route tile is the componentwise maximum of its
      stop label sizes. */
  lemma RouteRenderSizeIsLabelMax(name: string, stops: seq<Stop>)
    ensures IsComponentwiseMax(StopLabelSizes(stops), RenderSize(Route(name, stops)))
    ensures forall i :: 0 <= i < |stops| ==>
      stops[i].labelSize.w <= RenderSize(Route(name, stops)).w &&
      stops[i].labelSize.h <= RenderSize(Route(name, stops)).h
  {
  }

  /** The default route tile scrolls right from x = 0 and needs 16 frames,
      whatever its stops' label sizes. */
  lemma DefaultRouteFrames(name: string, stops: seq<Stop>, now: int, nowLabel: Size)
    ensures NewRoute(0, 0, Vec(2, 0), name, stops, now, nowLabel).kind.stops != []
    ensures MaxFrames(NewRoute(0, 0, Vec(2, 0), name, stops, now, nowLabel)) == 16
  {
  }
}
