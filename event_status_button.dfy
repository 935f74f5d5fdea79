/**
 * The creator's status button: the one-way status machine
 * upcoming -> started -> finished, its wording and colour, when it is
 * disabled, and what a click sends to the status-update callback.
 */
module EventStatusButton {
  import opened Wrappers
  import opened EventTypes

  /** Position of a status along the event's life. */
  function Rank(s: Status): nat {
    match s
    case Upcoming => 0
    case Started => 1
    case Finished => 2
  }

  /** `getNextStatus`: the status a click moves to, none once finished. */
  function NextStatus(s: Status): (next: Option<Status>)
    ensures next.None? <==> s == Finished
    ensures next.Some? ==> Rank(next.value) == Rank(s) + 1
  {
    match s
    case Upcoming => Some(Started)
    case Started => Some(Finished)
    case Finished => None
  }

  /** `getButtonText`: the label names the transition a click performs. */
  function ButtonText(s: Status): (text: string)
    ensures text == "Start Event" <==> NextStatus(s) == Some(Started)
    ensures text == "Finish Event" <==> NextStatus(s) == Some(Finished)
    ensures text == "Event Finished" <==> NextStatus(s).None?
  {
    match s
    case Upcoming => "Start Event"
    case Started => "Finish Event"
    case Finished => "Event Finished"
  }

  /** `getButtonColor`: grey and not-allowed exactly when there is nowhere to go. */
  function ButtonColor(s: Status): (color: string)
    ensures color == "bg-gray-400 cursor-not-allowed" <==> NextStatus(s).None?
    ensures color == "bg-green-600 hover:bg-green-700" <==> s == Upcoming
  {
    match s
    case Upcoming => "bg-green-600 hover:bg-green-700"
    case Started => "bg-red-600 hover:bg-red-700"
    case Finished => "bg-gray-400 cursor-not-allowed"
  }

  /** What the component renders: nothing, or a button. */
  datatype View = Hidden | Button(text: string, color: string, disabled: bool)

  /** The component's output for given props and loading state. */
  function Render(currentStatus: Status, isCreator: bool, isLoading: bool): (v: View)
    ensures v.Hidden? <==> !isCreator
    ensures v.Button? ==> (v.disabled <==> isLoading || currentStatus == Finished)
    ensures v.Button? && isLoading ==> v.text == "Updating..."
    ensures v.Button? && !v.disabled ==>
      v.text in {"Start Event", "Finish Event"} && NextStatus(currentStatus).Some?
  {
    if !isCreator then Hidden
    else
      var next := NextStatus(currentStatus);
      Button(if isLoading then "Updating..." else ButtonText(currentStatus),
             ButtonColor(currentStatus),
             isLoading || next.None?)
  }

  /** The status after `n` clicks, each taking effect before the next. */
  function Advance(s: Status, n: nat): Status
    decreases n
  {
    if n == 0 then s
    else match NextStatus(s)
      case None => s
      case Some(t) => Advance(t, n - 1)
  }

  /**
   * Clicking repeatedly only moves forward, one step per click, and stops at
   * finished: two clicks reach finished from anywhere, and once a click has
   * happened the event is never upcoming again.
   */
  lemma {:induction false} AdvanceRank(s: Status, n: nat)
    ensures Rank(Advance(s, n)) == if Rank(s) + n <= 2 then Rank(s) + n else 2
    decreases n
  {
    if n > 0 {
      match NextStatus(s)
      case None =>
      case Some(t) => AdvanceRank(t, n - 1);
    }
  }

  lemma AdvanceEndsFinished(s: Status, n: nat)
    ensures n >= 2 ==> Advance(s, n) == Finished
    ensures n >= 1 ==> Advance(s, n) != Upcoming
  {
    AdvanceRank(s, n);
  }

  /**
   * The rendered button for a creator, with the update in flight recorded as
   * `isLoading` and every call of `onStatusUpdate` recorded in `updates`.
   */
  class StatusButton {
    const eventId: string
    const currentStatus: Status
    const isCreator: bool
    var isLoading: bool
    var updates: seq<(string, Status)>

    constructor(eventId: string, currentStatus: Status, isCreator: bool)
      ensures this.eventId == eventId && this.currentStatus == currentStatus
      ensures this.isCreator == isCreator
      ensures !isLoading && updates == []
    {
      this.eventId := eventId;
      this.currentStatus := currentStatus;
      this.isCreator := isCreator;
      isLoading := false;
      updates := [];
    }

    function View(): View
      reads this
    {
      Render(currentStatus, isCreator, isLoading)
    }

    /**
     * A click on the rendered button: a disabled button (loading, or finished)
     * swallows it; otherwise `onClick` marks loading and sends exactly the next
     * status for this event.
     */
    method Click()
      requires isCreator
      modifies this
      ensures old(View()).disabled ==> isLoading == old(isLoading) && updates == old(updates)
      ensures !old(View()).disabled ==>
        isLoading && updates == old(updates) + [(eventId, NextStatus(currentStatus).value)]
    {
      if View().disabled {
        return;
      }
      var next := NextStatus(currentStatus);
      if next.Some? {
        isLoading := true;
        updates := updates + [(eventId, next.value)];
      }
    }

    /** The `finally` after the awaited update, whether it succeeded or threw. */
    method UpdateSettled()
      modifies this
      ensures !isLoading && updates == old(updates)
    {
      isLoading := false;
    }
  }

  /**
   * A click on an enabled button leaves it disabled until the update settles,
   * and a second click meanwhile sends nothing.
   */
  method ClickDisablesUntilSettled(eventId: string, s: Status) returns (sent: seq<(string, Status)>)
    requires s != Finished
    ensures sent == [(eventId, NextStatus(s).value)]
  {
    var b := new StatusButton(eventId, s, true);
    assert !b.View().disabled;
    b.Click();
    assert b.View().disabled && b.View().text == "Updating...";
    b.Click();
    assert b.updates == [(eventId, NextStatus(s).value)];
    b.UpdateSettled();
    assert !b.View().disabled && b.View().text == ButtonText(s);
    sent := b.updates;
  }
}
