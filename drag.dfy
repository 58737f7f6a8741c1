// The long-press drag of the assistant icon. A mouse-down arms a 300 ms
// timer; when it fires, the offset of the pointer inside the icon is fixed
// and dragging starts; each mouse move while dragging places the icon at the
// pointer minus that offset; a mouse-up clears the latest timer and ends the
// drag. Timers are explicit: each mouse-down queues a pending press with a
// fresh timer id, `longPressTimeout` holds the id of the latest one, and the
// "timer fired" event takes the oldest pending press (timers of equal delay
// fire in the order they were set). Coordinates are integers.
module Drag {

  /** A pending long-press timer and the pointer position it was set at. */
  datatype Press = Press(id: nat, x: int, y: int)

  datatype DragState = DragState(
    dragging: bool,
    offsetX: int,
    offsetY: int,
    left: int,           // the icon's position
    top: int,
    pending: seq<Press>, // timers set and neither fired nor cleared, oldest first
    latest: nat,         // `longPressTimeout`; 0 before the first mouse-down
    nextId: nat)         // the id the next timer gets

  datatype Phase = Idle | Armed | Dragging

  /** The three-state view of the recognizer. */
  function PhaseOf(s: DragState): Phase {
    if s.dragging then Dragging else if s.pending != [] then Armed else Idle
  }

  /** The recognizer when the page has loaded, with the icon at (`left`, `top`). */
  function Init(left: int, top: int): DragState {
    DragState(false, 0, 0, left, top, [], 0, 1)
  }

  /** Timer ids handed out so far are positive and below `nextId`, so a new one is fresh. */
  predicate WellFormed(s: DragState) {
    && 0 < s.nextId
    && s.latest < s.nextId
    && (forall i :: 0 <= i < |s.pending| ==> 0 < s.pending[i].id < s.nextId)
  }

  /** `mousedown` on the icon: set a new timer and remember its id. */
  function MouseDown(s: DragState, x: int, y: int): (r: DragState)
    ensures WellFormed(s) ==> WellFormed(r)
    ensures r.pending == s.pending + [Press(s.nextId, x, y)] && r.latest == s.nextId
    ensures r.dragging == s.dragging && r.left == s.left && r.top == s.top
    ensures r.offsetX == s.offsetX && r.offsetY == s.offsetY && r.nextId == s.nextId + 1
  {
    s.(pending := s.pending + [Press(s.nextId, x, y)], latest := s.nextId, nextId := s.nextId + 1)
  }

  /**
   * The oldest pending timer fires: the offset of its press point from the
   * icon's current corner is fixed and dragging starts. The icon does not move.
   */
  function TimerFires(s: DragState): (r: DragState)
    requires s.pending != []
    ensures WellFormed(s) ==> WellFormed(r)
    ensures r.dragging && r.pending == s.pending[1..]
    ensures r.left + r.offsetX == s.pending[0].x && r.top + r.offsetY == s.pending[0].y
    ensures r.left == s.left && r.top == s.top
    ensures r.latest == s.latest && r.nextId == s.nextId
  {
    var p := s.pending[0];
    s.(offsetX := p.x - s.left, offsetY := p.y - s.top, dragging := true, pending := s.pending[1..])
  }

  /** `onMouseMove`: while dragging, the icon goes to the pointer minus the offset. */
  function MouseMove(s: DragState, x: int, y: int): (r: DragState)
    ensures s.dragging ==> r == s.(left := x - s.offsetX, top := y - s.offsetY)
    ensures !s.dragging ==> r == s
  {
    if s.dragging then s.(left := x - s.offsetX, top := y - s.offsetY) else s
  }

  /** `a` is `b` with some of its elements dropped and the rest kept in their order. */
  predicate SubsequenceOf<T(==)>(a: seq<T>, b: seq<T>)
    decreases |b|
  {
    if a == [] then true
    else if b == [] then false
    else if a[0] == b[0] then SubsequenceOf(a[1..], b[1..])
    else SubsequenceOf(a, b[1..])
  }

  /** Every pending timer except the one with id `id`, in order. */
  function Without(pending: seq<Press>, id: nat): (r: seq<Press>)
    ensures forall p :: p in r <==> p in pending && p.id != id
    ensures forall p :: multiset(r)[p] == if p.id == id then 0 else multiset(pending)[p]
    ensures SubsequenceOf(r, pending)
    ensures pending != [] && pending[0].id != id ==> r != [] && r[0] == pending[0]
    ensures |r| <= |pending|
  {
    if pending == [] then []
    else
      assert pending == [pending[0]] + pending[1..];
      if pending[0].id == id then Without(pending[1..], id)
      else [pending[0]] + Without(pending[1..], id)
  }

  /** `mouseup`: clear the latest timer and stop dragging. */
  function MouseUp(s: DragState): (r: DragState)
    ensures !r.dragging
    ensures forall p :: p in r.pending <==> p in s.pending && p.id != s.latest
    ensures forall p :: multiset(r.pending)[p] == if p.id == s.latest then 0 else multiset(s.pending)[p]
    ensures SubsequenceOf(r.pending, s.pending)
    ensures r.left == s.left && r.top == s.top
    ensures r.offsetX == s.offsetX && r.offsetY == s.offsetY
    ensures r.latest == s.latest && r.nextId == s.nextId
  {
    s.(pending := Without(s.pending, s.latest), dragging := false)
  }

  lemma MouseUpWellFormed(s: DragState)
    requires WellFormed(s)
    ensures WellFormed(MouseUp(s))
  {
    var r := MouseUp(s);
    forall i | 0 <= i < |r.pending| ensures 0 < r.pending[i].id < r.nextId {
      assert r.pending[i] in s.pending;
    }
  }

  /**
   * A move places the icon absolutely: after any number of moves, only the
   * last pointer position counts, so positions do not accumulate.
   */
  lemma MovesDoNotAccumulate(s: DragState, x1: int, y1: int, x2: int, y2: int)
    ensures MouseMove(MouseMove(s, x1, y1), x2, y2) == MouseMove(s, x2, y2)
  {
  }

  /**
   * After the timer fires, the icon keeps the pressed point under the
   * pointer: moving the pointer by (dx, dy) from the press moves the icon
   * by (dx, dy) from where it stood.
   */
  lemma GrabbedPointFollowsPointer(s: DragState, dx: int, dy: int)
    requires WellFormed(s) && s.pending != []
    ensures var p := s.pending[0];
      var r := MouseMove(TimerFires(s), p.x + dx, p.y + dy);
      r.left == s.left + dx && r.top == s.top + dy
  {
  }

  /** With one press at a time, a release leaves nothing armed and nothing dragging. */
  lemma ReleaseEndsGesture(s: DragState)
    requires WellFormed(s)
    requires s.pending == [] || s.pending == [Press(s.latest, s.pending[0].x, s.pending[0].y)]
    ensures PhaseOf(MouseUp(s)) == Idle
  {
  }

  /**
   * A press released before 300 ms: no drag starts, the icon stays, and the
   * recognizer is idle again.
   */
  lemma ShortPressIsNotADrag(s: DragState, x: int, y: int)
    requires WellFormed(s) && PhaseOf(s) == Idle
    ensures var r := MouseUp(MouseDown(s, x, y));
      PhaseOf(r) == Idle && r.left == s.left && r.top == s.top
  {
    ReleaseEndsGesture(MouseDown(s, x, y));
  }

  /**
   * Press, hold past 300 ms, move, release: the icon ends at the last
   * pointer position minus the grab offset, and later moves do nothing.
   */
  lemma PressHoldMoveRelease(s: DragState, x: int, y: int, mx: int, my: int, lx: int, ly: int)
    requires WellFormed(s) && PhaseOf(s) == Idle
    ensures var held := TimerFires(MouseDown(s, x, y));
      var released := MouseUp(MouseMove(held, mx, my));
      && released.left == mx - (x - s.left) && released.top == my - (y - s.top)
      && PhaseOf(released) == Idle
      && MouseMove(released, lx, ly) == released
  {
    var held := TimerFires(MouseDown(s, x, y));
    assert held.pending == [];
    ReleaseEndsGesture(MouseMove(held, mx, my));
  }

  /**
   * Two presses before a release (a second button, say) leave the first
   * timer pending after the release, since only the latest is cleared; it
   * can still fire and start a drag with no button held.
   */
  lemma SecondPressLeavesStaleTimer(s: DragState, x1: int, y1: int, x2: int, y2: int)
    requires WellFormed(s) && PhaseOf(s) == Idle
    ensures var r := MouseUp(MouseDown(MouseDown(s, x1, y1), x2, y2));
      && r.pending == [Press(s.nextId, x1, y1)]
      && TimerFires(r).dragging
  {
    var d := MouseDown(MouseDown(s, x1, y1), x2, y2);
    assert d.pending == [Press(s.nextId, x1, y1), Press(s.nextId + 1, x2, y2)];
    assert d.pending[1..] == [Press(s.nextId + 1, x2, y2)];
    assert Without(d.pending, d.latest) == [d.pending[0]] + Without(d.pending[1..], d.latest);
  }

  /** The recognizer's handlers, on an object whose fields the events update. */
  class DragRecognizer {
    var isDragging: bool
    var offsetX: int
    var offsetY: int
    var left: int
    var top: int
    var pending: seq<Press>
    var longPressTimeout: nat
    var nextId: nat

    function State(): DragState
      reads this
    {
      DragState(isDragging, offsetX, offsetY, left, top, pending, longPressTimeout, nextId)
    }

    ghost predicate Valid()
      reads this
    {
      WellFormed(State())
    }

    constructor (iconLeft: int, iconTop: int)
      ensures State() == Init(iconLeft, iconTop) && Valid()
    {
      isDragging, offsetX, offsetY := false, 0, 0;
      left, top := iconLeft, iconTop;
      pending, longPressTimeout, nextId := [], 0, 1;
    }

    method OnMouseDown(x: int, y: int)
      requires Valid()
      modifies this
      ensures Valid() && State() == MouseDown(old(State()), x, y)
    {
      pending := pending + [Press(nextId, x, y)];
      longPressTimeout := nextId;
      nextId := nextId + 1;
    }

    /** The oldest pending long-press timer fires. */
    method OnTimer()
      requires Valid() && pending != []
      modifies this
      ensures Valid() && State() == TimerFires(old(State()))
    {
      var press := pending[0];
      pending := pending[1..];
      offsetX := press.x - left;
      offsetY := press.y - top;
      isDragging := true;
    }

    method OnMouseMove(x: int, y: int)
      modifies this
      ensures State() == MouseMove(old(State()), x, y)
    {
      if isDragging {
        left := x - offsetX;
        top := y - offsetY;
      }
    }

    method OnMouseUp()
      requires Valid()
      modifies this
      ensures Valid() && State() == MouseUp(old(State()))
    {
      MouseUpWellFormed(State());
      pending := Without(pending, longPressTimeout);
      if isDragging {
        isDragging := false;
      }
    }
  }
}
