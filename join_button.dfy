/**
 * The join/leave/edit button on an event: what a click does, its label and
 * style, when it is disabled, and the participant-count wording.
 */
module JoinButton {
  import opened Wrappers
  import opened EventTypes

  /** A callback a click invokes: `onEdit()` or `onJoinToggle(eventId, isJoining)`. */
  datatype Effect = Edit | Toggle(eventId: string, isJoining: bool)

  /** The props that decide the button's behaviour. */
  datatype Props = Props(eventId: string, isJoined: bool, isCreator: bool,
                         eventStatus: Status, disabled: bool)

  /** `handleClick`: creators edit, finished events ignore others, everyone else toggles. */
  function ClickEffect(p: Props): (e: Option<Effect>)
    ensures e == Some(Edit) <==> p.isCreator
    ensures e.None? <==> !p.isCreator && p.eventStatus == Finished
    ensures e.Some? && e.value.Toggle? ==>
      e.value.eventId == p.eventId && e.value.isJoining != p.isJoined
  {
    if p.isCreator then Some(Edit)
    else if p.eventStatus == Finished then None
    else Some(Toggle(p.eventId, !p.isJoined))
  }

  /** `getButtonText`: loading first, then creator, then finished, then leave or join. */
  function ButtonText(p: Props, isLoading: bool): (text: string)
    ensures text == "Loading..." <==> isLoading
    ensures !isLoading ==> (text == "Edit Event" <==> p.isCreator)
    ensures !isLoading && !p.isCreator ==>
      (text == "Event Finished" <==> p.eventStatus == Finished)
  {
    if isLoading then "Loading..."
    else if p.isCreator then "Edit Event"
    else if p.eventStatus == Finished then "Event Finished"
    else if p.isJoined then "Leave Event"
    else "Join Event"
  }

  /** `getButtonStyle`: finished first, then creator, then joined. */
  function ButtonStyle(p: Props): (style: string)
    ensures style == "bg-gray-400 text-white cursor-not-allowed" <==> p.eventStatus == Finished
    ensures style == "bg-red-600 text-white hover:bg-red-700" <==>
      p.eventStatus != Finished && !p.isCreator && p.isJoined
  {
    if p.eventStatus == Finished then "bg-gray-400 text-white cursor-not-allowed"
    else if p.isCreator then "bg-blue-600 text-white hover:bg-blue-700"
    else if p.isJoined then "bg-red-600 text-white hover:bg-red-700"
    else "bg-blue-600 text-white hover:bg-blue-700"
  }

  /**
   * The `disabled` attribute of the button: without the external prop and with
   * nothing in flight, it is set exactly when a click would have no effect.
   */
  function IsDisabled(p: Props, isLoading: bool): (d: bool)
    ensures p.disabled || isLoading ==> d
    ensures !p.disabled && !isLoading ==> (d <==> ClickEffect(p).None?)
  {
    p.disabled || isLoading || (p.eventStatus == Finished && !p.isCreator)
  }

  /**
   * Without the external `disabled` prop and with nothing in flight, the button
   * is enabled exactly when a click has an effect, and its label names that
   * effect.
   */
  lemma LabelMatchesEffect(p: Props)
    requires !p.disabled
    ensures !IsDisabled(p, false) <==> ClickEffect(p).Some?
    ensures ButtonText(p, false) == "Edit Event" <==> ClickEffect(p) == Some(Edit)
    ensures ButtonText(p, false) == "Leave Event" <==> ClickEffect(p) == Some(Toggle(p.eventId, false))
    ensures ButtonText(p, false) == "Join Event" <==> ClickEffect(p) == Some(Toggle(p.eventId, true))
  {
  }

  /** A finished event still shows a creator the edit action, greyed out. */
  lemma FinishedCreatorCanEdit(p: Props)
    requires p.isCreator && p.eventStatus == Finished && !p.disabled
    ensures !IsDisabled(p, false) && ButtonText(p, false) == "Edit Event"
    ensures ButtonStyle(p) == "bg-gray-400 text-white cursor-not-allowed"
  {
  }

  /** The suffix after "participant": plural unless the count is exactly one. */
  function PluralSuffix(count: int): (suffix: string)
    ensures suffix == "" <==> count == 1
    ensures suffix != "" ==> suffix == "s"
  {
    if count != 1 then "s" else ""
  }

  /**
   * The rendered button with its loading state; `effects` records every
   * callback a click has invoked, in order.
   */
  class JoinButtonState {
    const props: Props
    var isLoading: bool
    var effects: seq<Effect>

    constructor(props: Props)
      ensures this.props == props && !isLoading && effects == []
    {
      this.props := props;
      isLoading := false;
      effects := [];
    }

    /**
     * A click on the rendered button: a disabled button swallows it; otherwise
     * `handleClick` invokes the effect `ClickEffect` names, and the button is
     * loading afterwards exactly when that effect is a join toggle.
     */
    method Click()
      modifies this
      ensures old(IsDisabled(props, isLoading)) ==> isLoading == old(isLoading) && effects == old(effects)
      ensures !old(IsDisabled(props, isLoading)) ==>
        && effects == old(effects) + [ClickEffect(props).value]
        && isLoading == ClickEffect(props).value.Toggle?
    {
      if IsDisabled(props, isLoading) {
        return;
      }
      if props.isCreator {
        effects := effects + [Edit];
        return;
      }
      if props.eventStatus == Finished {
        return;
      }
      isLoading := true;
      effects := effects + [Toggle(props.eventId, !props.isJoined)];
    }

    /** The `finally` after the awaited toggle. */
    method ToggleSettled()
      modifies this
      ensures !isLoading && effects == old(effects)
    {
      isLoading := false;
    }
  }

  /**
   * A joined participant's click asks to leave; a creator's click never
   * toggles; a second click while the first toggle is in flight is swallowed.
   */
  method ClickScenario(eventId: string) returns (joined: seq<Effect>, created: seq<Effect>)
    ensures joined == [Toggle(eventId, false)]
    ensures created == [Edit]
  {
    var b := new JoinButtonState(Props(eventId, true, false, Upcoming, false));
    b.Click();
    assert b.isLoading && ButtonText(b.props, b.isLoading) == "Loading...";
    b.ToggleSettled();
    joined := b.effects;
    var c := new JoinButtonState(Props(eventId, false, true, Started, false));
    c.Click();
    assert !c.isLoading;
    created := c.effects;
    var d := new JoinButtonState(Props(eventId, false, false, Upcoming, false));
    d.Click();
    d.Click();
    assert d.effects == [Toggle(eventId, true)];
  }
}
