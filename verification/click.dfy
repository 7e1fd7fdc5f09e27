/**
 * The click handler of crates/ori-core/src/views/click_handler.rs: a view
 * wrapper that turns pointer presses and releases over its content into
 * press, release and click callbacks and `ClickEvent`s sent to the content.
 *
 * The framework around it is reduced to inputs: whether the content already
 * handled the event, whether the view is hot (under the pointer) and active
 * (holding the pointer), and the pointer position in local coordinates. The
 * callbacks are opaque; what the handler does is recorded as a sequence of
 * effects in the order it performs them.
 */
module Click {
  import opened Wrappers
  import opened Geometry

  datatype ClickEvent = Press | Release | Click

  /** A boxed callback, known only by identity. */
  type Callback = nat

  /** A click handler's callbacks (its content is not modelled). */
  datatype Clickable = Clickable(onPress: Option<Callback>, onRelease: Option<Callback>, onClick: Option<Callback>)

  /** `Clickable::new`: no callbacks. */
  function New(): (c: Clickable)
    ensures c.onPress.None? && c.onRelease.None? && c.onClick.None?
  {
    Clickable(None, None, None)
  }

  /** `on_press`: sets the press callback and nothing else. */
  function OnPress(c: Clickable, cb: Callback): (r: Clickable)
    ensures r.onPress == Some(cb)
    ensures r.onRelease == c.onRelease && r.onClick == c.onClick
  {
    c.(onPress := Some(cb))
  }

  /** `on_release`: sets the release callback and nothing else. */
  function OnRelease(c: Clickable, cb: Callback): (r: Clickable)
    ensures r.onRelease == Some(cb)
    ensures r.onPress == c.onPress && r.onClick == c.onClick
  {
    c.(onRelease := Some(cb))
  }

  /** `on_click`: sets the click callback and nothing else. */
  function OnClick(c: Clickable, cb: Callback): (r: Clickable)
    ensures r.onClick == Some(cb)
    ensures r.onPress == c.onPress && r.onRelease == c.onRelease
  {
    c.(onClick := Some(cb))
  }

  /** The free functions `on_press`, `on_release` and `on_click`: a new handler with that one callback. */
  function WithPress(cb: Callback): (c: Clickable)
    ensures c.onPress == Some(cb) && c.onRelease.None? && c.onClick.None?
  {
    OnPress(New(), cb)
  }

  function WithRelease(cb: Callback): (c: Clickable)
    ensures c.onRelease == Some(cb) && c.onPress.None? && c.onClick.None?
  {
    OnRelease(New(), cb)
  }

  function WithClick(cb: Callback): (c: Clickable)
    ensures c.onClick == Some(cb) && c.onPress.None? && c.onRelease.None?
  {
    OnClick(New(), cb)
  }

  /** `MAX_CLICK_DISTANCE`: how far a release may land from its press and still be a click. */
  const MAX_CLICK_DISTANCE: real := 10.0

  /**
   * `local.distance(click_start) > MAX_CLICK_DISTANCE`, compared on squares:
   * the distance is the square root of the squared distance, and both sides
   * are non-negative.
   */
  predicate TooFar(local: Vec, start: Vec) {
    var d := Sub(local, start);
    Dot(d, d) > MAX_CLICK_DISTANCE * MAX_CLICK_DISTANCE
  }

  /** The handler's own state: where the last press landed (the origin before any). */
  datatype ClickState = ClickState(clickStart: Vec)

  const INITIAL: ClickState := ClickState(ZERO)

  /** A pointer event, reduced to its kind and its position in the view's local coordinates. */
  datatype PointerEvent = PointerEvent(local: Vec, isMove: bool, isPress: bool, isRelease: bool)

  /**
   * An event as the handler sees it after passing it to its content:
   * whether the content handled it, the pointer event it carries if any,
   * and whether the view is hot and active.
   */
  datatype Input = Input(contentHandled: bool, pointer: Option<PointerEvent>, hot: bool, active: bool)

  datatype Hook = PressHook | ReleaseHook | ClickHook

  /** What the handler does, in order: call one of its callbacks, request a rebuild, send a click event to the content. */
  datatype Effect = Called(hook: Hook) | RequestRebuild | Dispatch(event: ClickEvent)

  /** The handler's reaction: the event's handled flag, the view's active flag, its own state and its effects. */
  datatype Outcome = Outcome(handled: bool, active: bool, state: ClickState, effects: seq<Effect>)

  /** A callback that is set is called, and then a rebuild is requested; an unset one does nothing. */
  function Invoke(cb: Option<Callback>, hook: Hook): (r: seq<Effect>)
    ensures cb.None? ==> r == []
    ensures cb.Some? ==> r == [Called(hook), RequestRebuild]
  {
    if cb.Some? then [Called(hook), RequestRebuild] else []
  }

  /**
   * `Clickable::event`. An event the content handled, or one without a
   * pointer, is left alone. A pointer move over the hot view is handled. A
   * press over the hot view makes it active, records the press position,
   * calls `on_press`, handles the event and sends `Press`. Otherwise a
   * release while active makes it inactive, calls `on_release` and sends
   * `Release`; then, unless the pointer moved more than
   * `MAX_CLICK_DISTANCE` from the press, calls `on_click` and sends `Click`.
   */
  function Event(c: Clickable, st: ClickState, input: Input): (o: Outcome)
    ensures input.contentHandled ==> o.handled
    ensures o.state != st ==> o.active && o.handled
    ensures o.active != input.active ==> |o.effects| > 0 && o.effects[|o.effects| - 1].Dispatch?
  {
    if input.contentHandled || input.pointer.None? then
      Outcome(input.contentHandled, input.active, st, [])
    else
      var pointer := input.pointer.value;
      var handled := input.hot && pointer.isMove;
      if input.hot && pointer.isPress then
        Outcome(true, true, ClickState(pointer.local), Invoke(c.onPress, PressHook) + [Dispatch(Press)])
      else if input.active && pointer.isRelease then
        var released := Invoke(c.onRelease, ReleaseHook) + [Dispatch(Release)];
        if TooFar(pointer.local, st.clickStart) then
          Outcome(handled, false, st, released)
        else
          Outcome(handled, false, st, released + Invoke(c.onClick, ClickHook) + [Dispatch(Click)])
      else
        Outcome(handled, input.active, st, [])
  }

  /** The click events an outcome sends to the content, in order. */
  function Dispatched(effects: seq<Effect>): (r: seq<ClickEvent>)
    ensures |r| <= |effects|
  {
    if |effects| == 0 then []
    else
      var rest := Dispatched(effects[1..]);
      if effects[0].Dispatch? then [effects[0].event] + rest else rest
  }

  /** The callbacks an outcome calls, in order. */
  function CalledHooks(effects: seq<Effect>): (r: seq<Hook>)
    ensures |r| <= |effects|
  {
    if |effects| == 0 then []
    else
      var rest := CalledHooks(effects[1..]);
      if effects[0].Called? then [effects[0].hook] + rest else rest
  }

  lemma {:induction false} DispatchedConcat(a: seq<Effect>, b: seq<Effect>)
    ensures Dispatched(a + b) == Dispatched(a) + Dispatched(b)
    ensures CalledHooks(a + b) == CalledHooks(a) + CalledHooks(b)
    decreases |a|
  {
    if |a| > 0 {
      assert (a + b)[1..] == a[1..] + b;
      DispatchedConcat(a[1..], b);
    } else {
      assert a + b == b;
    }
  }

  lemma InvokeDispatchesNothing(cb: Option<Callback>, hook: Hook)
    ensures Dispatched(Invoke(cb, hook)) == []
    ensures CalledHooks(Invoke(cb, hook)) == if cb.Some? then [hook] else []
  {
    if cb.Some? {
      var r := Invoke(cb, hook);
      assert r[1..][1..] == [];
      assert r[1..] == [RequestRebuild];
    }
  }

  lemma SingleDispatch(e: ClickEvent)
    ensures Dispatched([Dispatch(e)]) == [e]
    ensures CalledHooks([Dispatch(e)]) == []
  {
    assert [Dispatch(e)][1..] == [];
  }

  /** A callback's effects followed by one dispatch: the callback's hook is called, and the event alone is sent. */
  lemma HookThenDispatch(cb: Option<Callback>, hook: Hook, e: ClickEvent)
    ensures Dispatched(Invoke(cb, hook) + [Dispatch(e)]) == [e]
    ensures CalledHooks(Invoke(cb, hook) + [Dispatch(e)]) == if cb.Some? then [hook] else []
  {
    InvokeDispatchesNothing(cb, hook);
    SingleDispatch(e);
    DispatchedConcat(Invoke(cb, hook), [Dispatch(e)]);
  }

  /** The effects of a click: the release's, then the click callback's, then the click itself. */
  lemma ReleaseThenClick(c: Clickable)
    ensures var released := Invoke(c.onRelease, ReleaseHook) + [Dispatch(Release)];
      var all := released + Invoke(c.onClick, ClickHook) + [Dispatch(Click)];
      && Dispatched(all) == [Release, Click]
      && CalledHooks(all) == (if c.onRelease.Some? then [ReleaseHook] else [])
                             + (if c.onClick.Some? then [ClickHook] else [])
  {
    var released := Invoke(c.onRelease, ReleaseHook) + [Dispatch(Release)];
    HookThenDispatch(c.onRelease, ReleaseHook, Release);
    HookThenDispatch(c.onClick, ClickHook, Click);
    DispatchedConcat(released, Invoke(c.onClick, ClickHook) + [Dispatch(Click)]);
    assert released + Invoke(c.onClick, ClickHook) + [Dispatch(Click)]
        == released + (Invoke(c.onClick, ClickHook) + [Dispatch(Click)]);
  }

  /** Whether the release branch runs: not a press over the hot view, and a release while active. */
  predicate Releases(input: Input)
    requires input.pointer.Some?
  {
    !(input.hot && input.pointer.value.isPress) && input.active && input.pointer.value.isRelease
  }

  /** Whether the event completes a click: a release within `MAX_CLICK_DISTANCE` of the press. */
  predicate Clicks(st: ClickState, input: Input) {
    && !input.contentHandled
    && input.pointer.Some?
    && Releases(input)
    && !TooFar(input.pointer.value.local, st.clickStart)
  }

  /** If the content already handled the event, the handler changes nothing and does nothing. */
  lemma ContentHandledIsFinal(c: Clickable, st: ClickState, input: Input)
    requires input.contentHandled
    ensures Event(c, st, input) == Outcome(true, input.active, st, [])
  {
  }

  /**
   * The events the handler sends and the callbacks it calls: `Press` (and
   * `on_press`) for a press over the hot view; `Release` (and
   * `on_release`) for a release while active; then `Click` (and
   * `on_click`) exactly when that release is within `MAX_CLICK_DISTANCE`
   * of the press; nothing in any other case. Callbacks that are not set
   * are not called.
   */
  lemma EventEffects(c: Clickable, st: ClickState, input: Input)
    ensures var o := Event(c, st, input);
      var pressed := !input.contentHandled && input.pointer.Some? && input.hot && input.pointer.value.isPress;
      var released := !input.contentHandled && input.pointer.Some? && Releases(input);
      && (pressed ==>
            Dispatched(o.effects) == [Press]
            && CalledHooks(o.effects) == (if c.onPress.Some? then [PressHook] else []))
      && (released && !Clicks(st, input) ==>
            Dispatched(o.effects) == [Release]
            && CalledHooks(o.effects) == (if c.onRelease.Some? then [ReleaseHook] else []))
      && (Clicks(st, input) ==>
            Dispatched(o.effects) == [Release, Click]
            && CalledHooks(o.effects) == (if c.onRelease.Some? then [ReleaseHook] else [])
                                         + (if c.onClick.Some? then [ClickHook] else []))
      && (!pressed && !released ==> o.effects == [])
  {
    if !input.contentHandled && input.pointer.Some? {
      var pointer := input.pointer.value;
      if input.hot && pointer.isPress {
        HookThenDispatch(c.onPress, PressHook, Press);
      } else if input.active && pointer.isRelease {
        HookThenDispatch(c.onRelease, ReleaseHook, Release);
        if !TooFar(pointer.local, st.clickStart) {
          ReleaseThenClick(c);
        }
      }
    }
  }

  /**
   * The handler's state changes: a press over the hot view activates it and
   * records the press position and handles the event; a release while
   * active deactivates it; a move over the hot view is handled; nothing
   * else changes the active flag, the press position or the handled flag.
   */
  lemma EventState(c: Clickable, st: ClickState, input: Input)
    ensures var o := Event(c, st, input);
      var live := !input.contentHandled && input.pointer.Some?;
      var pressed := live && input.hot && input.pointer.value.isPress;
      var released := live && Releases(input);
      && (pressed ==> o.active && o.handled && o.state.clickStart == input.pointer.value.local)
      && (!pressed ==> o.state == st)
      && (released ==> !o.active)
      && (!pressed && !released ==> o.active == input.active)
      && (live && input.hot && input.pointer.value.isMove ==> o.handled)
      && (o.handled <==> input.contentHandled
                         || (live && input.hot && (input.pointer.value.isMove || input.pointer.value.isPress)))
  {
  }

  /**
   * A press over the hot view at `p`, followed directly by a release at
   * `q` while still active, is a click exactly when `q` is within
   * `MAX_CLICK_DISTANCE` of `p`, wherever earlier presses landed.
   */
  lemma PressThenRelease(c: Clickable, st: ClickState, p: Vec, q: Vec, hotOnRelease: bool)
    ensures var press := Input(false, Some(PointerEvent(p, false, true, false)), true, false);
      var o1 := Event(c, st, press);
      var release := Input(false, Some(PointerEvent(q, false, false, true)), hotOnRelease, o1.active);
      var o2 := Event(c, o1.state, release);
      && o1.active && !o2.active
      && (Click in Dispatched(o2.effects) <==> !TooFar(q, p))
  {
    var press := Input(false, Some(PointerEvent(p, false, true, false)), true, false);
    var o1 := Event(c, st, press);
    var release := Input(false, Some(PointerEvent(q, false, false, true)), hotOnRelease, o1.active);
    EventEffects(c, o1.state, release);
  }

  /** A release that is not preceded by an activating press does nothing. */
  lemma InactiveReleaseIsIgnored(c: Clickable, st: ClickState, q: Vec, hot: bool)
    ensures var o := Event(c, st, Input(false, Some(PointerEvent(q, false, false, true)), hot, false));
      o.effects == [] && !o.active && o.state == st && !o.handled
  {
  }
}
