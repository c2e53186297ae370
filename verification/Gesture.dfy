/** Panning and pinching the map.

    Pointer events drive a view (an offset and a zoom factor) through pan and pinch
    phases. `Handle` is what one event does to the state; `PanZoom` is the object whose
    fields the handlers update. Arithmetic is over the reals. */
module Gesture {
  import opened Wrappers

  datatype Point = Point(x: real, y: real)

  /** The group is drawn scaled by `k` and then shifted by (x, y). */
  datatype View = View(x: real, y: real, k: real)

  datatype Finger = Finger(id: int, at: Point)

  datatype PanFrom = PanFrom(x: real, y: real, viewX: real, viewY: real)

  datatype Pinch = Pinch(dist: real, cx: real, cy: real)

  /** The length of a vector; only its sign matters here. */
  type Length = f: (real, real) -> real | forall x, y :: f(x, y) >= 0.0 witness (x, y) => 0.0

  /** Where the drawing is on the page, and how lengths are measured. */
  datatype Stage = Stage(left: real, top: real, hypot: Length)

  const MIN_ZOOM := 0.4
  const MAX_ZOOM := 24.0
  const HOME := View(0.0, 0.0, 1.0)

  predicate InRange(k: real) { MIN_ZOOM <= k <= MAX_ZOOM }

  function Clamp(k: real): real {
    var atLeast := if k < MIN_ZOOM then MIN_ZOOM else k;
    if atLeast > MAX_ZOOM then MAX_ZOOM else atLeast
  }

  /** The zoom after multiplying by a factor. */
  function ZoomBy(k: real, factor: real): real { Clamp(k * factor) }

  /** The point of the map drawn at `p`. */
  function WorldAt(v: View, p: Point): Point
    requires v.k != 0.0
  {
    Point((p.x - v.x) / v.k, (p.y - v.y) / v.k)
  }

  // ------------------------------------------------ zooming about a point

  function ScaleAbout(v: View, factor: real, a: Point): View
    requires v.k != 0.0
  {
    var next := ZoomBy(v.k, factor);
    View(Rescaled(a.x, v.x, next, v.k), Rescaled(a.y, v.y, next, v.k), next)
  }

  /** One offset after the zoom changes from `k` to `next` about the coordinate `a`. */
  function Rescaled(a: real, offset: real, next: real, k: real): real
    requires k != 0.0
  {
    a - ((a - offset) * next) / k
  }

  /** The point zoomed about stays where it is, also when the zoom is stopped by a limit. */
  lemma ScaleAnchors(v: View, factor: real, a: Point)
    requires v.k > 0.0
    ensures InRange(ScaleAbout(v, factor, a).k)
    ensures WorldAt(ScaleAbout(v, factor, a), a) == WorldAt(v, a)
  {
    var next := ZoomBy(v.k, factor);
    RescaledAnchors(a.x, v.x, next, v.k);
    RescaledAnchors(a.y, v.y, next, v.k);
    hide Rescaled;
  }

  lemma RescaledAnchors(a: real, offset: real, next: real, k: real)
    requires next > 0.0 && k > 0.0
    ensures (a - Rescaled(a, offset, next, k)) / next == (a - offset) / k
  {
    var q := (a - offset) / k;
    assert a - offset == q * k;
    assert ((a - offset) * next) / k == q * next by {
      assert (a - offset) * next == (q * next) * k;
      Quotient(q * next, k);
    }
    Quotient(q, next);
  }

  lemma Quotient(q: real, n: real)
    requires n > 0.0
    ensures (q * n) / n == q
  {}

  lemma ZoomAfterBoth(v: View, f: real, a: Point)
    requires v.k != 0.0 && f != 0.0
    ensures ScaleAbout(ScaleAbout(v, f, a), 1.0 / f, a).k == OutAndBack(v.k, f)
  {}

  /** A view is determined by its zoom and by the map point under one screen point. */
  lemma ViewFromAnchor(v: View, w: View, a: Point)
    requires v.k != 0.0 && w.k == v.k && WorldAt(v, a) == WorldAt(w, a)
    ensures v == w
  {}

  function OutAndBack(k: real, f: real): real
    requires f != 0.0
  {
    ZoomBy(ZoomBy(k, f), 1.0 / f)
  }

  predicate ComesBack(k: real, f: real) {
    InRange(k * f) || (k == MIN_ZOOM && k * f > MAX_ZOOM) || (k == MAX_ZOOM && k * f < MIN_ZOOM)
  }

  /** Zooming in and back out about one point restores the view exactly when the first
      zoom was not stopped by a limit, or when it went from one limit to the other. */
  lemma ZoomAndBackIff(v: View, f: real, a: Point)
    requires InRange(v.k) && f > 0.0
    ensures ScaleAbout(ScaleAbout(v, f, a), 1.0 / f, a) == v
       <==> ComesBack(v.k, f)
  {
    hide ScaleAbout, ZoomBy, WorldAt, ComesBack, OutAndBack;
    var once := ScaleAbout(v, f, a);
    ScaleAnchors(v, f, a);
    var twice := ScaleAbout(once, 1.0 / f, a);
    ScaleAnchors(once, 1.0 / f, a);
    ZoomAfterBoth(v, f, a);
    BackTo(v.k, f);
    if twice.k == v.k { ViewFromAnchor(v, twice, a); }
  }

  lemma BackTo(k: real, f: real)
    requires InRange(k) && f > 0.0
    ensures OutAndBack(k, f) == k <==> ComesBack(k, f)
  {}

  // ------------------------------------------------ the state machine

  datatype State = State(view: View, active: seq<Finger>, panFrom: Option<PanFrom>, pinchFrom: Option<Pinch>)

  const IDLE := State(HOME, [], None, None)

  /** `counts` is false for a mouse button other than the left one. */
  datatype Event = Down(id: int, counts: bool, at: Point) | Move(id: int, at: Point) | Up(id: int)

  predicate Held(active: seq<Finger>, id: int) { exists i :: 0 <= i < |active| && active[i].id == id }

  /** Setting a key that is present keeps its place; a new key goes last. */
  function Placed(active: seq<Finger>, id: int, at: Point): seq<Finger> {
    if active == [] then [Finger(id, at)]
    else if active[0].id == id then [Finger(id, at)] + active[1..]
    else [active[0]] + Placed(active[1..], id, at)
  }

  function Lifted(active: seq<Finger>, id: int): seq<Finger> {
    if active == [] then []
    else if active[0].id == id then active[1..]
    else [active[0]] + Lifted(active[1..], id)
  }

  /** A point of the page, in the frame of the drawing. */
  function StagePoint(t: Stage, p: Point): Point { Point(p.x - t.left, p.y - t.top) }

  function PinchNow(t: Stage, active: seq<Finger>): (r: Pinch)
    requires |active| >= 2
    ensures r.dist > 0.0
  {
    var a, b := active[0].at, active[1].at;
    var mid := StagePoint(t, Point((a.x + b.x) / 2.0, (a.y + b.y) / 2.0));
    var d := t.hypot(a.x - b.x, a.y - b.y);
    Pinch(if d == 0.0 then 1.0 else d, mid.x, mid.y)
  }

  function Rebase(t: Stage, s: State): State
    requires s.active != []
  {
    if |s.active| >= 2 then s.(pinchFrom := Some(PinchNow(t, s.active)), panFrom := None)
    else
      var only := s.active[0].at;
      s.(pinchFrom := None, panFrom := Some(PanFrom(only.x, only.y, s.view.x, s.view.y)))
  }

  function PinchedBy(v: View, from: Pinch, now: Pinch): View
    requires v.k != 0.0 && from.dist != 0.0
  {
    var scaled := ScaleAbout(v, now.dist / from.dist, Point(from.cx, from.cy));
    scaled.(x := scaled.x + (now.cx - from.cx), y := scaled.y + (now.cy - from.cy))
  }

  function Handle(t: Stage, s: State, e: Event): State
    requires Sane(t, s)
  {
    match e
    case Down(id, counts, at) => if !counts then s else Rebase(t, s.(active := Placed(s.active, id, at)))
    case Move(id, at) =>
      if !Held(s.active, id) then s
      else
        var moved := s.(active := Placed(s.active, id, at));
        if s.pinchFrom.Some? && |moved.active| >= 2 then
          var now := PinchNow(t, moved.active);
          moved.(view := PinchedBy(s.view, s.pinchFrom.value, now), pinchFrom := Some(now))
        else if s.panFrom.None? then moved
        else
          var from := s.panFrom.value;
          moved.(view := s.view.(x := from.viewX + (at.x - from.x), y := from.viewY + (at.y - from.y)))
    case Up(id) =>
      if !Held(s.active, id) then s
      else
        var left := State(s.view, Lifted(s.active, id), None, None);
        if left.active != [] then Rebase(t, left) else left
  }

  // ------------------------------------------------ what every run keeps

  predicate Distinct(active: seq<Finger>) { forall i, j :: 0 <= i < j < |active| ==> active[i].id != active[j].id }

  /** The zoom is within its limits; one pointer and only one means a pan, two or more mean
      a pinch, none means neither; the pan remembers how far its finger has come, and the
      pinch where its two fingers are. */
  predicate Sane(t: Stage, s: State) {
    && InRange(s.view.k)
    && Distinct(s.active)
    && (s.panFrom.Some? <==> |s.active| == 1)
    && (s.pinchFrom.Some? <==> |s.active| >= 2)
    && (s.pinchFrom.Some? ==> s.pinchFrom == Some(PinchNow(t, s.active)))
    && (s.panFrom.Some? ==>
          && s.view.x - s.panFrom.value.viewX == s.active[0].at.x - s.panFrom.value.x
          && s.view.y - s.panFrom.value.viewY == s.active[0].at.y - s.panFrom.value.y)
  }

  lemma PlacedMeans(active: seq<Finger>, id: int, at: Point)
    requires Distinct(active)
    ensures var r := Placed(active, id, at);
            && Distinct(r)
            && |r| == |active| + (if Held(active, id) then 0 else 1)
            && (forall i :: 0 <= i < |active| ==> r[i] == if active[i].id == id then Finger(id, at) else active[i])
            && (!Held(active, id) ==> r == active + [Finger(id, at)])
  {}

  lemma LiftedMeans(active: seq<Finger>, id: int)
    requires Distinct(active) && Held(active, id)
    ensures var r := Lifted(active, id);
            && Distinct(r) && |r| == |active| - 1
            && (forall i :: 0 <= i < |r| ==> r[i] in active && r[i].id != id)
  {}

  /** Lifting a finger takes it out of its place and leaves the others in theirs. */
  lemma {:induction false} LiftedFrom(active: seq<Finger>, id: int) returns (k: nat)
    requires Held(active, id)
    ensures k < |active| && active[k].id == id && Lifted(active, id) == active[..k] + active[k + 1..]
    ensures forall i :: 0 <= i < k ==> active[i].id != id
  {
    if active[0].id == id {
      k := 0;
    } else {
      var j :| 0 <= j < |active| && active[j].id == id;
      assert active[1..][j - 1].id == id;
      assert Held(active[1..], id) && Lifted(active, id) == [active[0]] + Lifted(active[1..], id);
      hide Lifted, Held;
      var m := LiftedFrom(active[1..], id);
      k := m + 1;
      assert active[1..][..m] == active[1..k] && active[1..][m + 1..] == active[k + 1..];
      assert active[..k] == [active[0]] + active[1..k];
    }
  }

  lemma {:induction false} StepKeeps(t: Stage, s: State, e: Event)
    requires Sane(t, s)
    ensures Sane(t, Handle(t, s, e))
  {
    match e
    case Down(id, counts, at) => PlacedMeans(s.active, id, at);
    case Move(id, at) =>
      PlacedMeans(s.active, id, at);
      if Held(s.active, id) && |s.active| == 1 {
        var i :| 0 <= i < |s.active| && s.active[i].id == id;
        assert Placed(s.active, id, at)[0] == Finger(id, at);
      }
      if Held(s.active, id) && |s.active| >= 2 {
        hide PinchedBy, PinchNow;
      }
    case Up(id) => if Held(s.active, id) { LiftedMeans(s.active, id); }
  }

  /** Every run of events keeps the state sane. */
  function Run(t: Stage, s: State, events: seq<Event>): (r: State)
    requires Sane(t, s)
    ensures Sane(t, r)
  {
    if events == [] then s
    else
      var before := Run(t, s, events[..|events| - 1]);
      StepKeeps(t, before, events[|events| - 1]);
      Handle(t, before, events[|events| - 1])
  }

  // ------------------------------------------------ what stays under the fingers

  /** The screen point a gesture is about: the finger, or the midpoint of the first two. */
  function Focus(t: Stage, active: seq<Finger>): Point
    requires active != []
  {
    if |active| == 1 then StagePoint(t, active[0].at)
    else Point(PinchNow(t, active).cx, PinchNow(t, active).cy)
  }

  /** Fingers going down or up never move the view. */
  lemma DownAndUpKeepView(t: Stage, s: State, e: Event)
    requires Sane(t, s) && !e.Move?
    ensures Handle(t, s, e).view == s.view
  {}

  lemma PinchAnchors(v: View, from: Pinch, now: Pinch)
    requires v.k > 0.0 && from.dist > 0.0
    ensures var w := PinchedBy(v, from, now);
            w.k > 0.0 && WorldAt(w, Point(now.cx, now.cy)) == WorldAt(v, Point(from.cx, from.cy))
  {
    var a := Point(from.cx, from.cy);
    var factor := now.dist / from.dist;
    ScaleAnchors(v, factor, a);
    var scaled, w := ScaleAbout(v, factor, a), PinchedBy(v, from, now);
    assert w == View(scaled.x + (now.cx - from.cx), scaled.y + (now.cy - from.cy), scaled.k);
    hide ScaleAbout, PinchedBy;
    assert now.cx - w.x == a.x - scaled.x && now.cy - w.y == a.y - scaled.y;
  }

  /** A moving finger keeps the point of the map under the focus where it was. */
  lemma MoveAnchors(t: Stage, s: State, id: int, at: Point)
    requires Sane(t, s) && s.active != []
    ensures var s' := Handle(t, s, Move(id, at));
            && |s'.active| == |s.active| && s'.view.k > 0.0
            && (forall i :: 0 <= i < |s.active| ==> s'.active[i].id == s.active[i].id)
            && WorldAt(s'.view, Focus(t, s'.active)) == WorldAt(s.view, Focus(t, s.active))
  {
    PlacedMeans(s.active, id, at);
    if Held(s.active, id) {
      if |s.active| == 1 {
        var i :| 0 <= i < |s.active| && s.active[i].id == id;
        assert Placed(s.active, id, at)[0] == Finger(id, at);
        var s' := Handle(t, s, Move(id, at));
        assert at.x - t.left - s'.view.x == s.active[0].at.x - t.left - s.view.x;
        assert at.y - t.top - s'.view.y == s.active[0].at.y - t.top - s.view.y;
        assert s'.view.k == s.view.k;
      } else {
        PinchAnchors(s.view, s.pinchFrom.value, PinchNow(t, Placed(s.active, id, at)));
        hide PinchedBy, PinchNow, WorldAt;
      }
    }
  }

  /** The map point (qx, qy) is drawn at this point of the page. */
  predicate DrawnAt(t: Stage, v: View, qx: real, qy: real, px: real, py: real) {
    qx * v.k + v.x == px - t.left && qy * v.k + v.y == py - t.top
  }

  lemma DrawnIff(t: Stage, v: View, qx: real, qy: real, px: real, py: real)
    requires v.k > 0.0
    ensures DrawnAt(t, v, qx, qy, px, py) <==> WorldAt(v, Point(px - t.left, py - t.top)) == Point(qx, qy)
  {
    DividedIff(qx, v.k, px - t.left - v.x);
    DividedIff(qy, v.k, py - t.top - v.y);
  }

  lemma DividedIff(q: real, k: real, d: real)
    requires k > 0.0
    ensures q * k == d <==> d / k == q
  {
    assert (d / k) * k == d;
    if q * k == d { Quotient(q, k); }
  }

  /** One finger drags the point of the map that is under it, and does not zoom. */
  lemma OneFingerDrags(t: Stage, s: State, at: Point, qx: real, qy: real)
    requires Sane(t, s) && |s.active| == 1
    requires DrawnAt(t, s.view, qx, qy, s.active[0].at.x, s.active[0].at.y)
    ensures var s' := Handle(t, s, Move(s.active[0].id, at));
            && DrawnAt(t, s'.view, qx, qy, at.x, at.y) && s'.view.k == s.view.k
            && s'.active == [Finger(s.active[0].id, at)]
  {
    assert Held(s.active, s.active[0].id);
    PlacedMeans(s.active, s.active[0].id, at);
    var s' := Handle(t, s, Move(s.active[0].id, at));
    assert s'.view.x - s.view.x == at.x - s.active[0].at.x && s'.view.y - s.view.y == at.y - s.active[0].at.y;
  }

  /** Two fingers carry the point of the map that is half way between them, and the zoom changes
      as their distance does, within its limits. */
  lemma TwoFingersPinch(t: Stage, s: State, id: int, at: Point, qx: real, qy: real)
    requires Sane(t, s) && |s.active| >= 2 && Held(s.active, id)
    requires var (a, b) := (s.active[0].at, s.active[1].at);
             DrawnAt(t, s.view, qx, qy, (a.x + b.x) / 2.0, (a.y + b.y) / 2.0)
    ensures var s' := Handle(t, s, Move(id, at));
            |s'.active| >= 2 &&
            var (a, b, a', b') := (s.active[0].at, s.active[1].at, s'.active[0].at, s'.active[1].at);
            var (d, d') := (t.hypot(a.x - b.x, a.y - b.y), t.hypot(a'.x - b'.x, a'.y - b'.y));
            && DrawnAt(t, s'.view, qx, qy, (a'.x + b'.x) / 2.0, (a'.y + b'.y) / 2.0)
            && 0.4 <= s'.view.k <= 24.0
            && (d > 0.0 && d' > 0.0 ==>
                  var asked := s.view.k * (d' / d);
                  && (0.4 <= asked <= 24.0 ==> s'.view.k == asked)
                  && (asked < 0.4 ==> s'.view.k == 0.4) && (asked > 24.0 ==> s'.view.k == 24.0))
  {
    var s' := Handle(t, s, Move(id, at));
    PlacedMeans(s.active, id, at);
    var (a, b, a', b') := (s.active[0].at, s.active[1].at, s'.active[0].at, s'.active[1].at);
    PinchedZoom(s.view, PinchNow(t, s.active), PinchNow(t, s'.active));
    MoveAnchors(t, s, id, at);
    StepKeeps(t, s, Move(id, at));
    assert Focus(t, s.active) == Point((a.x + b.x) / 2.0 - t.left, (a.y + b.y) / 2.0 - t.top);
    assert Focus(t, s'.active) == Point((a'.x + b'.x) / 2.0 - t.left, (a'.y + b'.y) / 2.0 - t.top);
    hide WorldAt, PinchedBy, DrawnAt;
    DrawnIff(t, s.view, qx, qy, (a.x + b.x) / 2.0, (a.y + b.y) / 2.0);
    DrawnIff(t, s'.view, qx, qy, (a'.x + b'.x) / 2.0, (a'.y + b'.y) / 2.0);
  }

  predicate AllMoves(events: seq<Event>) { forall i :: 0 <= i < |events| ==> events[i].Move? }

  /** For the whole of a phase, however the zoom is stopped by its limits on the way, the
      point of the map under the finger, or under the midpoint of the first two, is the
      one that was there when the phase began; so the final view depends on the way only
      through its zoom. */
  lemma {:induction false} PhaseAnchors(t: Stage, s: State, events: seq<Event>)
    requires Sane(t, s) && s.active != [] && AllMoves(events)
    ensures var s' := Run(t, s, events);
            && |s'.active| == |s.active| && s'.view.k > 0.0
            && (forall i :: 0 <= i < |s.active| ==> s'.active[i].id == s.active[i].id)
            && WorldAt(s'.view, Focus(t, s'.active)) == WorldAt(s.view, Focus(t, s.active))
  {
    if events != [] {
      hide Sane, Handle, Focus, WorldAt;
      var last := events[|events| - 1];
      PhaseAnchors(t, s, events[..|events| - 1]);
      MoveAnchors(t, Run(t, s, events[..|events| - 1]), last.id, last.at);
    } else {
      hide Handle, Focus, WorldAt;
    }
  }

  lemma SamePinchNoMove(v: View, p: Pinch)
    requires InRange(v.k) && p.dist > 0.0
    ensures PinchedBy(v, p, p) == v
  {
    assert p.dist / p.dist == 1.0;
    ScaleAnchors(v, 1.0, Point(p.cx, p.cy));
    ViewFromAnchor(v, ScaleAbout(v, 1.0, Point(p.cx, p.cy)), Point(p.cx, p.cy));
  }

  /** A third finger steers nothing. */
  lemma ThirdFingerSteersNothing(t: Stage, s: State, id: int, at: Point)
    requires Sane(t, s) && |s.active| >= 2 && id != s.active[0].id && id != s.active[1].id
    ensures Handle(t, s, Move(id, at)).view == s.view
    ensures Handle(t, s, Move(id, at)).pinchFrom == s.pinchFrom
  {
    PlacedMeans(s.active, id, at);
    var moved := Placed(s.active, id, at);
    if Held(s.active, id) {
      assert moved[0] == s.active[0] && moved[1] == s.active[1];
      SamePinchNoMove(s.view, s.pinchFrom.value);
      hide PinchedBy, WorldAt;
    }
  }

  // ------------------------------------------------ composing a pinch

  lemma ZoomChain(k: real, p: real, q: real, r: real)
    requires p > 0.0 && q > 0.0 && InRange(k * (q / p))
    ensures ZoomBy(ZoomBy(k, q / p), r / q) == ZoomBy(k, r / p)
  {}

  lemma PinchedZoom(v: View, from: Pinch, now: Pinch)
    requires v.k != 0.0 && from.dist != 0.0
    ensures PinchedBy(v, from, now).k == ZoomBy(v.k, now.dist / from.dist)
  {}

  /** Two pinches in a row, none stopped by a limit, are one pinch. */
  lemma PinchesCompose(v: View, p: Pinch, q: Pinch, r: Pinch)
    requires InRange(v.k) && p.dist > 0.0 && q.dist > 0.0 && r.dist > 0.0
    requires InRange(v.k * (q.dist / p.dist))
    ensures PinchedBy(v, p, q).k > 0.0
    ensures PinchedBy(PinchedBy(v, p, q), q, r) == PinchedBy(v, p, r)
  {
    hide PinchedBy, ZoomBy, WorldAt;
    var w := PinchedBy(v, p, q);
    PinchAnchors(v, p, q);
    PinchAnchors(v, p, r);
    PinchAnchors(w, q, r);
    PinchedZoom(v, p, q);
    PinchedZoom(v, p, r);
    PinchedZoom(w, q, r);
    ZoomChain(v.k, p.dist, q.dist, r.dist);
    ViewFromAnchor(PinchedBy(w, q, r), PinchedBy(v, p, r), Point(r.cx, r.cy));
  }

  lemma PinchAndBackZoom(v: View, p: Pinch, q: Pinch, f: real)
    requires v.k != 0.0 && p.dist > 0.0 && q.dist > 0.0 && f > 0.0 && f == q.dist / p.dist && p.dist / q.dist == 1.0 / f
    requires PinchedBy(v, p, q).k > 0.0
    ensures PinchedBy(PinchedBy(v, p, q), q, p).k == OutAndBack(v.k, f)
  {}

  /** Pinching out and back to where the fingers were restores the view exactly when the
      zoom was not stopped on the way, or went from one limit to the other. */
  lemma PinchAndBackIff(v: View, p: Pinch, q: Pinch)
    requires InRange(v.k) && p.dist > 0.0 && q.dist > 0.0
    ensures PinchedBy(v, p, q).k > 0.0
    ensures PinchedBy(PinchedBy(v, p, q), q, p) == v <==> ComesBack(v.k, q.dist / p.dist)
  {
    var f := q.dist / p.dist;
    hide PinchedBy, ZoomBy, ComesBack, WorldAt, OutAndBack;
    var w := PinchedBy(v, p, q);
    PinchAnchors(v, p, q);
    PinchAnchors(w, q, p);
    PinchAndBackZoom(v, p, q, f);
    BackTo(v.k, f);
    if PinchedBy(w, q, p).k == v.k { ViewFromAnchor(v, PinchedBy(w, q, p), Point(p.cx, p.cy)); }
  }

  function FingersMoved(active: seq<Finger>, e: Event): seq<Finger>
    requires e.Move?
  {
    if Held(active, e.id) then Placed(active, e.id, e.at) else active
  }

  /** The fingers after some moves, without regard to the view. */
  function FingersAfter(active: seq<Finger>, events: seq<Event>): seq<Finger>
    requires AllMoves(events)
  {
    if events == [] then active
    else
      FingersMoved(FingersAfter(active, events[..|events| - 1]), events[|events| - 1])
  }

  lemma {:induction false} FingersOfRun(t: Stage, s: State, events: seq<Event>)
    requires Sane(t, s) && AllMoves(events)
    ensures Run(t, s, events).active == FingersAfter(s.active, events)
  {
    if events != [] { hide PinchedBy, PinchNow; FingersOfRun(t, s, events[..|events| - 1]); }
  }

  lemma FingersKeepCount(t: Stage, s: State, events: seq<Event>)
    requires Sane(t, s) && s.active != [] && AllMoves(events)
    ensures |FingersAfter(s.active, events)| == |s.active|
  {
    PhaseAnchors(t, s, events);
    FingersOfRun(t, s, events);
  }

  /** Along a phase the zoom the fingers ask for never passes a limit. */
  ghost predicate NeverStopped(t: Stage, s: State, events: seq<Event>)
    requires Sane(t, s) && |s.active| >= 2 && AllMoves(events)
  {
    forall n :: 0 <= n <= |events| ==> AsksInRange(t, s, events[..n])
  }

  predicate AsksInRange(t: Stage, s: State, events: seq<Event>)
    requires Sane(t, s) && |s.active| >= 2 && AllMoves(events)
  {
    FingersKeepCount(t, s, events);
    InRange(s.view.k * (PinchNow(t, FingersAfter(s.active, events)).dist / PinchNow(t, s.active).dist))
  }

  lemma LastMove(t: Stage, s: State, e: Event)
    requires Sane(t, s) && |s.active| >= 2 && e.Move?
    ensures |FingersMoved(s.active, e)| == |s.active|
    ensures Handle(t, s, e).view == PinchedBy(s.view, PinchNow(t, s.active), PinchNow(t, FingersMoved(s.active, e)))
  {
    PlacedMeans(s.active, e.id, e.at);
    if !Held(s.active, e.id) { SamePinchNoMove(s.view, PinchNow(t, s.active)); }
  }

  lemma OneMoreMove(t: Stage, s: State, v: View, first: Pinch, e: Event)
    requires Sane(t, s) && |s.active| >= 2 && e.Move? && InRange(v.k) && first.dist > 0.0
    requires s.view == PinchedBy(v, first, PinchNow(t, s.active))
    requires InRange(v.k * (PinchNow(t, s.active).dist / first.dist))
    ensures |FingersMoved(s.active, e)| == |s.active|
    ensures Handle(t, s, e).view == PinchedBy(v, first, PinchNow(t, FingersMoved(s.active, e)))
  {
    hide Handle, PinchNow, PinchedBy, FingersMoved;
    LastMove(t, s, e);
    PinchesCompose(v, first, PinchNow(t, s.active), PinchNow(t, FingersMoved(s.active, e)));
  }

  lemma NeverStoppedBefore(t: Stage, s: State, events: seq<Event>)
    requires Sane(t, s) && |s.active| >= 2 && events != [] && AllMoves(events) && NeverStopped(t, s, events)
    ensures NeverStopped(t, s, events[..|events| - 1]) && AsksInRange(t, s, events[..|events| - 1])
  {
    hide AsksInRange;
    var init := events[..|events| - 1];
    forall n | 0 <= n <= |init| ensures AsksInRange(t, s, init[..n]) {
      assert init[..n] == events[..n];
      assert AsksInRange(t, s, events[..n]);
    }
    assert init[..|init|] == init;
  }

  /** Over a pinch phase in which no step is stopped by a limit, the final view depends
      only on where the fingers began and where they ended: the zoom is scaled by the last
      distance over the first, about the first midpoint, which is carried to the last. */
  lemma {:induction false} PhaseComposes(t: Stage, s: State, events: seq<Event>)
    requires Sane(t, s) && |s.active| >= 2 && AllMoves(events) && NeverStopped(t, s, events)
    ensures |FingersAfter(s.active, events)| == |s.active|
    ensures Run(t, s, events).view
         == PinchedBy(s.view, PinchNow(t, s.active), PinchNow(t, FingersAfter(s.active, events)))
  {
    hide PinchNow, PinchedBy, Handle, FingersMoved;
    FingersKeepCount(t, s, events);
    if events == [] {
      SamePinchNoMove(s.view, PinchNow(t, s.active));
    } else {
      var init := events[..|events| - 1];
      NeverStoppedBefore(t, s, events);
      hide NeverStopped;
      PhaseComposes(t, s, init);
      FingersOfRun(t, s, init);
      OneMoreMove(t, Run(t, s, init), s.view, PinchNow(t, s.active), events[|events| - 1]);
    }
  }

  /** Its zoom, in particular, has no limit left in it. */
  lemma PhaseZoom(t: Stage, s: State, events: seq<Event>)
    requires Sane(t, s) && |s.active| >= 2 && AllMoves(events) && NeverStopped(t, s, events)
    ensures |FingersAfter(s.active, events)| == |s.active|
    ensures Run(t, s, events).view.k
         == s.view.k * (PinchNow(t, FingersAfter(s.active, events)).dist / PinchNow(t, s.active).dist)
  {
    hide PinchNow, PinchedBy, Handle, Run, FingersAfter;
    PhaseComposes(t, s, events);
    assert events[..|events|] == events;
    assert AsksInRange(t, s, events);
    PinchedZoom(s.view, PinchNow(t, s.active), PinchNow(t, FingersAfter(s.active, events)));
  }

  // ------------------------------------------------ the image under the map

  datatype Rect = Rect(x: real, y: real, w: real, h: real)

  /** Where the photograph is placed on the screen, when there is one. */
  function GroundRect(v: View, basemap: bool, rect: Option<Rect>): Option<Rect> {
    if !basemap || rect.None? then None
    else
      var r := rect.value;
      Some(Rect(r.x * v.k + v.x, r.y * v.k + v.y, r.w * v.k, r.h * v.k))
  }

  /** The photograph never slides under the marks: whatever the view, the point of the map
      drawn at a given fraction of the placed photograph is the one at that fraction of it. */
  lemma GroundStaysUnderMarks(v: View, r: Rect, across: real, down: real)
    requires v.k > 0.0
    ensures forall shown, placed :: GroundRect(v, shown, placed).Some? <==> shown && placed.Some?
    ensures var g := GroundRect(v, true, Some(r)).value;
            WorldAt(v, Point(g.x + across * g.w, g.y + down * g.h)) == Point(r.x + across * r.w, r.y + down * r.h)
  {}

  // ------------------------------------------------ the object

  class PanZoom {
    const stage: Stage
    const width: real
    const height: real
    var view: View
    var active: seq<Finger>
    var panFrom: Option<PanFrom>
    var pinchFrom: Option<Pinch>

    function Contents(): State
      reads this
    {
      State(view, active, panFrom, pinchFrom)
    }

    predicate Valid()
      reads this
    {
      Sane(stage, Contents())
    }

    constructor (stage: Stage, width: real, height: real)
      ensures Valid() && Contents() == IDLE && this.stage == stage && this.width == width && this.height == height
    {
      this.stage, this.width, this.height := stage, width, height;
      view, active, panFrom, pinchFrom := HOME, [], None, None;
    }

    method RebaseFingers()
      requires active != []
      modifies this`panFrom, this`pinchFrom
      ensures Contents() == Rebase(stage, old(Contents()))
    {
      if |active| >= 2 {
        pinchFrom := Some(PinchNow(stage, active));
        panFrom := None;
        return;
      }
      var only := active[0].at;
      pinchFrom := None;
      panFrom := Some(PanFrom(only.x, only.y, view.x, view.y));
    }

    method PointerDown(id: int, counts: bool, at: Point)
      requires Valid()
      modifies this
      ensures Valid() && Contents() == Handle(stage, old(Contents()), Down(id, counts, at))
      ensures !counts ==> Contents() == old(Contents())
    {
      StepKeeps(stage, Contents(), Down(id, counts, at));
      if !counts { return; }
      active := Placed(active, id, at);
      RebaseFingers();
    }

    /** Zoom about a point, by default the middle of the drawing. */
    method ZoomTo(factor: real, px: Option<real>, py: Option<real>)
      requires InRange(view.k)
      modifies this`view
      ensures var a := Point(if px.None? then width / 2.0 else px.value, if py.None? then height / 2.0 else py.value);
              view == ScaleAbout(old(view), factor, a) && InRange(view.k) && WorldAt(view, a) == WorldAt(old(view), a)
    {
      var ax := if px.None? then width / 2.0 else px.value;
      var ay := if py.None? then height / 2.0 else py.value;
      ScaleAnchors(view, factor, Point(ax, ay));
      hide WorldAt, ZoomBy, Rescaled;
      var next := ZoomBy(view.k, factor);
      view := view.(x := Rescaled(ax, view.x, next, view.k));
      view := view.(y := Rescaled(ay, view.y, next, view.k));
      view := view.(k := next);
    }

    method PointerMove(id: int, at: Point)
      requires Valid()
      modifies this
      ensures Valid() && Contents() == Handle(stage, old(Contents()), Move(id, at))
    {
      StepKeeps(stage, Contents(), Move(id, at));
      PlacedMeans(active, id, at);
      if !Held(active, id) { return; }
      active := Placed(active, id, at);
      if pinchFrom.Some? && |active| >= 2 {
        var now := PinchNow(stage, active);
        ZoomTo(now.dist / pinchFrom.value.dist, Some(pinchFrom.value.cx), Some(pinchFrom.value.cy));
        view := view.(x := view.x + (now.cx - pinchFrom.value.cx), y := view.y + (now.cy - pinchFrom.value.cy));
        pinchFrom := Some(now);
        return;
      }
      if panFrom.None? { return; }
      var from := panFrom.value;
      view := view.(x := from.viewX + (at.x - from.x), y := from.viewY + (at.y - from.y));
    }

    method PointerUp(id: int)
      requires Valid()
      modifies this
      ensures Valid() && Contents() == Handle(stage, old(Contents()), Up(id))
    {
      StepKeeps(stage, Contents(), Up(id));
      if !Held(active, id) { return; }
      active := Lifted(active, id);
      pinchFrom := None;
      panFrom := None;
      if active != [] { RebaseFingers(); }
    }
  }
}
