/**
 * `proxmox-tui-installer/src/views/tabbed_view.rs`: the tab/focus state of
 * `TabbedView`, the view that shows one of several named tabs and a tab bar
 * that can hold the keyboard focus.
 *
 * The child views are opaque: a tab's view is a `ViewId`, and what the
 * current child answers to an event or to a focus request is a parameter of
 * `OnEvent`. Drawing and layout are not modelled.
 */
module TabbedViews {
  import opened Wrappers

  type ViewId = nat

  datatype Key = Left | Right | Up | Down | OtherKey(code: nat)

  datatype Event = KeyPress(key: Key) | FocusLost | OtherEvent(code: nat)

  datatype EventResult = Ignored | Consumed

  /** cursive's `Direction`: an absolute side or a relative one. */
  datatype Absolute = LeftSide | UpSide | RightSide | DownSide | NoSide
  datatype Relative = Front | Back
  datatype Direction = Abs(side: Absolute) | Rel(rel: Relative)

  /** `Direction::up()`. */
  const UP: Direction := Abs(UpSide)

  /**
   * Panics of the view: `tab` asserts a non-empty name, and moving between
   * tabs divides by (or subtracts one from) the number of tabs.
   */
  datatype TabPanic = EmptyName | NoTabs

  /** The tab after `current`, wrapping round to the first. */
  function NextTab(current: nat, count: nat): (r: nat)
    requires count > 0
    ensures r < count
    ensures current + 1 < count ==> r == current + 1
    ensures current + 1 == count ==> r == 0
  {
    (current + 1) % count
  }

  /** The tab before `current`, wrapping round to the last. */
  function PrevTab(current: nat, count: nat): (r: nat)
    requires count > 0
    ensures current <= count ==> r < count
    ensures current == 0 ==> r == count - 1
    ensures current > 0 ==> r == current - 1
  {
    if current == 0 then count - 1 else current - 1
  }

  /** Right then Left comes back to the same tab ... */
  lemma PrevAfterNext(current: nat, count: nat)
    requires current < count
    ensures PrevTab(NextTab(current, count), count) == current
  {
  }

  /** ... and so does Left then Right. */
  lemma NextAfterPrev(current: nat, count: nat)
    requires current < count
    ensures NextTab(PrevTab(current, count), count) == current
  {
  }

  class TabbedView {
    /** All tabs, as (name, view). */
    var views: seq<(string, ViewId)>
    /** The index of the active tab. */
    var current: nat
    /** Whether the tab bar has the focus. */
    var barHasFocus: bool

    /** The active tab exists once there are tabs, and no tab has an empty name. */
    predicate Valid()
      reads this
    {
      && (current == 0 || current < |views|)
      && forall i :: 0 <= i < |views| ==> views[i].0 != []
    }

    /** `TabbedView::new`. */
    constructor ()
      ensures views == [] && current == 0 && !barHasFocus
      ensures Valid()
    {
      views := [];
      current := 0;
      barHasFocus := false;
    }

    /** `tab`: appends a named tab; an empty name panics. */
    method Tab(name: string, view: ViewId) returns (r: Result<(), TabPanic>)
      modifies this
      ensures name == [] ==> r == Err(EmptyName) && views == old(views)
      ensures name != [] ==> r.Ok? && views == old(views) + [(name, view)]
      ensures current == old(current) && barHasFocus == old(barHasFocus)
      ensures old(Valid()) ==> Valid()
    {
      if name == [] {
        return Err(EmptyName);
      }
      views := views + [(name, view)];
      return Ok(());
    }

    /** `get` (and `get_mut`): the view of a tab, if there is one at `index`. */
    function Get(index: nat): (r: Option<ViewId>)
      reads this
      ensures r.Some? <==> index < |views|
      ensures r.Some? ==> r.value == views[index].1
    {
      if index < |views| then Some(views[index].1) else None
    }

    /**
     * `on_event`. `child` is what the active tab's view answers to an
     * event, `childFocus` what it answers when asked to take the focus from
     * above (`None` when it cannot take it).
     */
    method OnEvent(event: Event, child: Event -> EventResult, childFocus: Option<EventResult>)
      returns (r: Result<EventResult, TabPanic>)
      requires Valid()
      modifies this
      ensures views == old(views)
      // Tab bar focused: Left and Right switch tabs, wrapping round.
      ensures old(barHasFocus) && event == KeyPress(Right) ==>
        if |views| == 0 then r == Err(NoTabs)
        else r == Ok(Consumed) && current == NextTab(old(current), |views|) && barHasFocus
      ensures old(barHasFocus) && event == KeyPress(Left) ==>
        if |views| == 0 then r == Err(NoTabs)
        else r == Ok(Consumed) && current == PrevTab(old(current), |views|) && barHasFocus
      // Tab bar focused: Down hands the focus to the active tab.
      ensures old(barHasFocus) && event == KeyPress(Down) ==>
        && !barHasFocus && current == old(current)
        && r == Ok(if Get(current).Some? && childFocus.Some? then childFocus.value else Ignored)
      ensures old(barHasFocus) && event == KeyPress(Up) ==>
        r == Ok(Ignored) && barHasFocus && current == old(current)
      ensures old(barHasFocus) && event == FocusLost ==>
        r == Ok(Consumed) && !barHasFocus && current == old(current)
      ensures old(barHasFocus) && event.OtherEvent? ==>
        r == Ok(Ignored) && barHasFocus && current == old(current)
      ensures old(barHasFocus) && event.KeyPress? && event.key.OtherKey? ==>
        r == Ok(Ignored) && barHasFocus && current == old(current)
      // Tab bar not focused: Up goes to the active tab first and moves the
      // focus to the bar only when the tab ignores it.
      ensures !old(barHasFocus) && event == KeyPress(Up) ==>
        var answer := if Get(current).Some? then child(event) else Ignored;
        && current == old(current)
        && (answer == Ignored ==> r == Ok(Consumed) && barHasFocus)
        && (answer != Ignored ==> r == Ok(answer) && !barHasFocus)
      ensures !old(barHasFocus) && event != KeyPress(Up) ==>
        && r == Ok(if Get(current).Some? then child(event) else Consumed)
        && !barHasFocus && current == old(current)
      ensures Valid()
    {
      var count := |views|;
      if barHasFocus {
        match event {
          case KeyPress(Right) =>
            if count == 0 {
              return Err(NoTabs);
            }
            current := NextTab(current, count);
            return Ok(Consumed);
          case KeyPress(Left) =>
            if current == 0 && count == 0 {
              return Err(NoTabs);
            }
            current := if current == 0 then count - 1 else current - 1;
            return Ok(Consumed);
          case KeyPress(Down) =>
            barHasFocus := false;
            if Get(current).Some? && childFocus.Some? {
              return Ok(childFocus.value);
            }
            return Ok(Ignored);
          case FocusLost =>
            barHasFocus := false;
            return Ok(Consumed);
          case _ =>
            return Ok(Ignored);
        }
      } else if event == KeyPress(Up) {
        var answer := if Get(current).Some? then child(event) else Ignored;
        if answer == Ignored {
          // The tab is told it lost the focus; its answer is not used.
          barHasFocus := true;
          return Ok(Consumed);
        }
        return Ok(answer);
      } else {
        return Ok(if Get(current).Some? then child(event) else Consumed);
      }
    }

    /** `take_focus`: the bar takes the focus when it is entered from above. */
    method TakeFocus(direction: Direction) returns (r: EventResult)
      modifies this
      ensures barHasFocus == (direction == UP)
      ensures r == Consumed
      ensures views == old(views) && current == old(current)
      ensures old(Valid()) ==> Valid()
    {
      barHasFocus := direction == UP;
      return Consumed;
    }
  }
}
