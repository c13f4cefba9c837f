/**
 * The shared tooltip: a hover schedules it after a delay, the timer shows
 * it near the pointer and pulls it back onto the screen, leaving hides it,
 * and closing destroys its window. The Tk timer queue is modelled by the
 * set of pending callback ids this tooltip owns; pointer position, screen
 * size and the measured size of the tooltip are parameters.
 */
module Tooltip {
  import opened Wrappers

  /** The toplevel window of the tooltip: whether it is shown, and where. */
  datatype Window = Window(visible: bool, x: int, y: int)

  /** Offset of a freshly shown tooltip from the pointer, in pixels. */
  const PointerOffset: int := 15

  /** Margin kept from the edge the tooltip overflowed, in pixels. */
  const EdgeMargin: int := 10

  function Max(a: int, b: int): int { if a < b then b else a }

  /**
   * `adjust_position`, on coordinates: a tooltip overflowing the right edge
   * is moved left of it, one overflowing the bottom is moved above the
   * pointer, and neither coordinate may be negative.
   */
  method ClampPosition(x: int, y: int, width: int, height: int, screenWidth: int, screenHeight: int, pointerY: int)
    returns (nx: int, ny: int)
    ensures nx >= 0 && ny >= 0
    ensures x + width <= screenWidth ==> nx == Max(0, x)
    ensures x + width > screenWidth ==> nx == Max(0, screenWidth - width - EdgeMargin)
    ensures y + height <= screenHeight ==> ny == Max(0, y)
    ensures y + height > screenHeight ==> ny == Max(0, pointerY - height - EdgeMargin)
    ensures nx + width > screenWidth ==> width > screenWidth
    ensures pointerY <= screenHeight + EdgeMargin && ny + height > screenHeight ==> height > screenHeight
  {
    nx, ny := x, y;
    if nx + width > screenWidth {
      nx := screenWidth - width - EdgeMargin;
    }
    if ny + height > screenHeight {
      ny := pointerY - height - EdgeMargin;
    }
    nx := Max(0, nx);
    ny := Max(0, ny);
  }

  /** `Tooltip`. `widget` identifies a widget; `None` text and the empty text are both "no text". */
  class Tip {
    const delay: int
    var window: Option<Window>
    var caption: Option<string>
    var scheduledId: Option<nat>
    var currentWidget: Option<nat>
    var currentText: Option<string>
    /** The `after` callbacks of this tooltip still waiting in the Tk queue. */
    var pending: set<nat>

    /** The caption lives exactly as long as the window, and at most one show is pending: the one `scheduledId` names. */
    ghost predicate Valid()
      reads this
    {
      && (window.Some? <==> caption.Some?)
      && pending <= (if scheduledId.Some? then {scheduledId.value} else {})
    }

    /** Nothing shown, nothing scheduled. */
    constructor (delay: int)
      ensures Valid()
      ensures this.delay == delay
      ensures window == None && caption == None && scheduledId == None
      ensures currentWidget == None && currentText == None && pending == {}
    {
      this.delay := delay;
      window := None;
      caption := None;
      scheduledId := None;
      currentWidget := None;
      currentText := None;
      pending := {};
    }

    /** `create_tooltip_window`: a hidden window with an empty caption, made only when there is none. */
    method CreateTooltipWindow()
      requires Valid()
      modifies this`window, this`caption
      ensures Valid()
      ensures old(window).Some? ==> window == old(window) && caption == old(caption)
      ensures old(window).None? ==> window == Some(Window(false, 0, 0)) && caption == Some("")
    {
      if window.None? {
        window := Some(Window(false, 0, 0));
        caption := Some("");
      }
    }

    /** `cancel_scheduled`: a scheduled show is removed from the queue and forgotten. */
    method CancelScheduled()
      requires Valid()
      modifies this`scheduledId, this`pending
      ensures Valid()
      ensures scheduledId == None && pending == {}
    {
      if scheduledId.Some? {
        pending := pending - {scheduledId.value};
        scheduledId := None;
      }
    }

    /**
     * `schedule_show`: cancel what was scheduled, remember the widget and the
     * text, and queue a show after the delay when it is positive; `newId` is
     * the id Tk's `after` hands back.
     */
    method ScheduleShow(widget: nat, text: string, newId: nat)
      requires Valid()
      modifies this`scheduledId, this`pending, this`currentWidget, this`currentText
      ensures Valid()
      ensures currentWidget == Some(widget) && currentText == Some(text)
      ensures delay > 0 ==> scheduledId == Some(newId) && pending == {newId}
      ensures delay <= 0 ==> scheduledId == None && pending == {}
    {
      CancelScheduled();
      currentWidget := Some(widget);
      currentText := Some(text);
      if delay > 0 {
        scheduledId := Some(newId);
        pending := pending + {newId};
      }
    }

    /**
     * `show_tooltip`: nothing without a widget and a non-empty text;
     * otherwise the window is made if needed, labelled, placed 15 pixels
     * right of and below the pointer, shown, and pulled onto the screen.
     */
    method ShowTooltip(pointerX: int, pointerY: int, width: int, height: int, screenWidth: int, screenHeight: int)
      requires Valid()
      modifies this`window, this`caption
      ensures Valid()
      ensures currentWidget.None? || currentText.None? || currentText.value == [] ==>
                window == old(window) && caption == old(caption)
      ensures currentWidget.Some? && currentText.Some? && currentText.value != [] ==>
                && caption == currentText
                && window.Some? && window.value.visible
                && window.value.x >= 0 && window.value.y >= 0
                && window.value.x == Max(0, if pointerX + PointerOffset + width > screenWidth
                                            then screenWidth - width - EdgeMargin else pointerX + PointerOffset)
                && window.value.y == Max(0, if pointerY + PointerOffset + height > screenHeight
                                            then pointerY - height - EdgeMargin else pointerY + PointerOffset)
    {
      if currentWidget.None? || currentText.None? || currentText.value == "" {
        return;
      }
      CreateTooltipWindow();
      var x := pointerX + PointerOffset;
      var y := pointerY + PointerOffset;
      caption := currentText;
      window := Some(Window(true, x, y));
      AdjustPosition(width, height, screenWidth, screenHeight, pointerY);
    }

    /** `adjust_position`: nothing without a window; otherwise its position is clamped as `ClampPosition` says. */
    method AdjustPosition(width: int, height: int, screenWidth: int, screenHeight: int, pointerY: int)
      requires Valid()
      modifies this`window
      ensures Valid()
      ensures old(window).None? ==> window == None
      ensures old(window).Some? ==>
                && window.Some? && window.value.visible == old(window).value.visible
                && window.value.x >= 0 && window.value.y >= 0
                && window.value.x == Max(0, if old(window).value.x + width > screenWidth
                                            then screenWidth - width - EdgeMargin else old(window).value.x)
                && window.value.y == Max(0, if old(window).value.y + height > screenHeight
                                            then pointerY - height - EdgeMargin else old(window).value.y)
    {
      if window.None? {
        return;
      }
      var w := window.value;
      var x, y := ClampPosition(w.x, w.y, width, height, screenWidth, screenHeight, pointerY);
      window := Some(w.(x := x, y := y));
    }

    /** The queued show fires: Tk drops the callback from its queue (the id stays recorded) and runs `show_tooltip`. */
    method TimerFires(id: nat, pointerX: int, pointerY: int, width: int, height: int, screenWidth: int, screenHeight: int)
      requires Valid() && id in pending
      modifies this`window, this`caption, this`pending
      ensures Valid()
      ensures pending == old(pending) - {id} && scheduledId == old(scheduledId) == Some(id)
      ensures currentWidget.None? || currentText.None? || currentText.value == [] ==>
                window == old(window) && caption == old(caption)
      ensures currentWidget.Some? && currentText.Some? && currentText.value != [] ==>
                && caption == currentText
                && window.Some? && window.value.visible
                && window.value.x >= 0 && window.value.y >= 0
                && window.value.x == Max(0, if pointerX + PointerOffset + width > screenWidth
                                            then screenWidth - width - EdgeMargin else pointerX + PointerOffset)
                && window.value.y == Max(0, if pointerY + PointerOffset + height > screenHeight
                                            then pointerY - height - EdgeMargin else pointerY + PointerOffset)
    {
      pending := pending - {id};
      ShowTooltip(pointerX, pointerY, width, height, screenWidth, screenHeight);
    }

    /** `hide_tooltip`: nothing stays scheduled, the window (if any) is hidden where it is, and the widget and text are forgotten. */
    method HideTooltip()
      requires Valid()
      modifies this`scheduledId, this`pending, this`window, this`currentWidget, this`currentText
      ensures Valid()
      ensures scheduledId == None && pending == {}
      ensures currentWidget == None && currentText == None
      ensures old(window).None? ==> window == None
      ensures old(window).Some? ==> window == Some(old(window).value.(visible := false))
      ensures caption == old(caption)
    {
      CancelScheduled();
      if window.Some? {
        window := Some(window.value.(visible := false));
      }
      currentWidget := None;
      currentText := None;
    }

    /** `destroy`: nothing stays scheduled, and the window and the caption are gone. */
    method Destroy()
      requires Valid()
      modifies this`scheduledId, this`pending, this`window, this`caption
      ensures Valid()
      ensures scheduledId == None && pending == {}
      ensures window == None && caption == None
      ensures currentWidget == old(currentWidget) && currentText == old(currentText)
    {
      CancelScheduled();
      if window.Some? {
        window := None;
      }
      caption := None;
    }
  }
}
