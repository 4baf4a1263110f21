/**
 The interactive session: the control points in curve order and the point
 being dragged, changed by pointer events. The dragged point is an index into
 the sequence rather than an address, and the cursor position a press reads
 from the window is a parameter of the event.
 */
module Session {
  import opened Geometry
  import opened Wrappers
  import opened Picking

  /** The program tells only the left button apart from the others. */
  datatype Button = Left | Other

  datatype Action = Press | Release | Repeat

  datatype Event =
    | CursorMoved(position: Vec2)
    | ButtonChanged(button: Button, action: Action, cursor: Vec2)

  datatype State = State(points: seq<Vec2>, dragged: Option<nat>)

  /** The dragged index, when there is one, names an existing point. */
  predicate Valid(s: State) {
    s.dragged.Some? ==> s.dragged.value < |s.points|
  }

  /** No control points and nothing dragged. */
  function Initial(): (s: State)
    ensures Valid(s)
  {
    State([], None)
  }

  /** Whether some control point is near the cursor. */
  predicate AnyNear(cursor: Vec2, points: seq<Vec2>) {
    exists j :: 0 <= j < |points| && IsNear(cursor, points[j])
  }

  /** A pointer move: the dragged point, if any, goes to the new position;
      nothing else changes. */
  function OnMouseMove(s: State, position: Vec2): (s': State)
    requires Valid(s)
    ensures Valid(s')
    ensures s'.dragged == s.dragged
    ensures |s'.points| == |s.points|
    ensures s.dragged.None? ==> s' == s
    ensures s.dragged.Some? ==> s'.points[s.dragged.value] == position
    ensures forall j :: 0 <= j < |s.points| && s.dragged != Some(j) ==> s'.points[j] == s.points[j]
  {
    match s.dragged
    case None => s
    case Some(k) => s.(points := s.points[k := position])
  }

  /** A button event. A left release ends the drag. A left press away from
      every control point appends the cursor as a new point; a left press near
      one starts dragging the first such point. Everything else is ignored. */
  function OnMouseButton(s: State, button: Button, action: Action, cursor: Vec2): (s': State)
    requires Valid(s)
    ensures Valid(s')
    ensures button == Other ==> s' == s
    ensures button == Left && action == Repeat ==> s' == s
    ensures button == Left && action == Release ==> s'.points == s.points && s'.dragged == None
    ensures button == Left && action == Press && !AnyNear(cursor, s.points) ==>
      && |s'.points| == |s.points| + 1
      && s'.points[..|s.points|] == s.points
      && s'.points[|s.points|] == cursor
      && s'.dragged == s.dragged
    ensures button == Left && action == Press && AnyNear(cursor, s.points) ==>
      && s'.points == s.points
      && s'.dragged.Some?
      && IsNear(cursor, s.points[s'.dragged.value])
      && forall j :: 0 <= j < s'.dragged.value ==> !IsNear(cursor, s.points[j])
  {
    if button == Left then
      if action == Release then
        s.(dragged := None)
      else if action == Press then
        match ClickedPoint(cursor, s.points)
        case None => s.(points := s.points + [cursor])
        case Some(k) => s.(dragged := Some(k))
      else
        s
    else
      s
  }

  /** One event of either kind. */
  function Step(s: State, e: Event): (s': State)
    requires Valid(s)
    ensures Valid(s')
    ensures |s'.points| >= |s.points|
  {
    match e
    case CursorMoved(position) => OnMouseMove(s, position)
    case ButtonChanged(button, action, cursor) => OnMouseButton(s, button, action, cursor)
  }

  /** A sequence of events, in order. The dragged index stays valid throughout
      and control points are never removed. */
  function Run(s: State, events: seq<Event>): (s': State)
    requires Valid(s)
    ensures Valid(s')
    ensures |s'.points| >= |s.points|
    decreases |events|
  {
    if events == [] then s else Run(Step(s, events[0]), events[1..])
  }

  /** A press over a control point followed by a move changes that point, and
      only that point, to the new position. */
  lemma PressThenMoveDragsPoint(s: State, cursor: Vec2, position: Vec2)
    requires Valid(s)
    requires AnyNear(cursor, s.points)
    ensures var s' := OnMouseMove(OnMouseButton(s, Left, Press, cursor), position);
      && |s'.points| == |s.points|
      && s'.dragged.Some?
      && IsNear(cursor, s.points[s'.dragged.value])
      && s'.points[s'.dragged.value] == position
      && forall j :: 0 <= j < |s.points| && j != s'.dragged.value ==> s'.points[j] == s.points[j]
  {
  }

  /** After a left release, moves change nothing. */
  lemma MoveAfterReleaseChangesNothing(s: State, cursor: Vec2, position: Vec2)
    requires Valid(s)
    ensures var r := OnMouseButton(s, Left, Release, cursor);
      OnMouseMove(r, position) == r
  {
  }

  /** Pressing at (100, 0) over a lone point there picks it, and moving to
      (150, 20) then moves it there. */
  lemma DragScenario()
    ensures var s0 := State([Vec2(100.0, 0.0)], None);
      var s1 := OnMouseButton(s0, Left, Press, Vec2(100.0, 0.0));
      var s2 := OnMouseMove(s1, Vec2(150.0, 20.0));
      s1 == State([Vec2(100.0, 0.0)], Some(0)) && s2 == State([Vec2(150.0, 20.0)], Some(0))
  {
    var s0 := State([Vec2(100.0, 0.0)], None);
    PressOnPointPicksIt(Vec2(100.0, 0.0), s0.points, 0);
  }
}
