/** The double-click recogniser of the canvas's mouse listener: the last
    single click it recorded, and the test a new click is put to. */
module Clicks {

  /** Time window of a double click, in milliseconds. */
  const DoubleClickMs := 300

  /** What the recogniser remembers: position and time of the last single click. */
  datatype ClickState = ClickState(lastX: int, lastY: int, timeMouseDown: int)

  /** A click at (x, y) at time `when` is a double click: same pixel as the
      remembered click and less than `DoubleClickMs` after it. */
  predicate IsDouble(s: ClickState, x: int, y: int, when: int)
  {
    s.lastX == x && s.lastY == y && when - s.timeMouseDown < DoubleClickMs
  }

  /** At a given moment at most one pixel completes a double click, and none
      does once `DoubleClickMs` have passed since the recorded click. */
  lemma DoubleIsOnePixelInTime(s: ClickState, x: int, y: int, x2: int, y2: int, when: int)
    requires IsDouble(s, x, y, when) && IsDouble(s, x2, y2, when)
    ensures x2 == x && y2 == y
    ensures when < s.timeMouseDown + DoubleClickMs
    ensures forall later :: later >= s.timeMouseDown + DoubleClickMs ==> !IsDouble(s, x, y, later)
  {
  }

  /** What the recogniser remembers after a click: a double click leaves the
      record alone, any other click replaces it. */
  function Record(s: ClickState, x: int, y: int, when: int): (r: ClickState)
    ensures IsDouble(s, x, y, when) ==> r == s
    ensures !IsDouble(s, x, y, when) ==> r.lastX == x && r.lastY == y && r.timeMouseDown == when
  {
    if IsDouble(s, x, y, when) then s else ClickState(x, y, when)
  }

  /** After a single click at (x, y) at time t, a click `d` ms later is a
      double click exactly when it hits the same pixel and d < 300; a click on
      another pixel never is. */
  lemma SecondClick(s: ClickState, x: int, y: int, t: int, x2: int, y2: int, d: int)
    requires !IsDouble(s, x, y, t)
    ensures IsDouble(Record(s, x, y, t), x2, y2, t + d) <==> x2 == x && y2 == y && d < DoubleClickMs
  {
  }

  /** A double click does not restart the window: a third click at the same
      pixel is again a double click exactly when it comes less than 300 ms
      after the first click, however soon after the second. */
  lemma {:induction false} ThirdClickMeasuredFromFirst(s: ClickState, x: int, y: int, t: int, d2: int, d3: int)
    requires !IsDouble(s, x, y, t)
    requires d2 < DoubleClickMs
    ensures IsDouble(Record(s, x, y, t), x, y, t + d2)
    ensures var s2 := Record(Record(s, x, y, t), x, y, t + d2);
            s2 == ClickState(x, y, t) && (IsDouble(s2, x, y, t + d3) <==> d3 < DoubleClickMs)
  {
  }

  /** The canvas's mouse listener, holding the recogniser's fields. */
  class ClickRecorder {
    var lastX: int
    var lastY: int
    var timeMouseDown: int

    constructor ()
      ensures State() == ClickState(0, 0, 0)
    {
      lastX, lastY, timeMouseDown := 0, 0, 0;
    }

    function State(): ClickState
      reads this
    {
      ClickState(lastX, lastY, timeMouseDown)
    }

    /** isDoubleClick: classify a click and remember it if it is single. */
    method IsDoubleClick(x: int, y: int, when: int) returns (double: bool)
      modifies this
      ensures double == IsDouble(old(State()), x, y, when)
      ensures State() == Record(old(State()), x, y, when)
    {
      var diff := when - timeMouseDown;
      if lastX == x && lastY == y && diff < DoubleClickMs {
        return true;
      } else {
        timeMouseDown := when;
        lastX := x;
        lastY := y;
      }
      return false;
    }
  }
}
