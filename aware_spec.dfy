/**
 * The view-holder visibility notifier of Aware.kt as a pure state machine.
 *
 * Every handler of `ViewHolderVisibleAwareNotifier` is a function from the
 * notifier's state (and whatever the framework reports at that moment) to a
 * new state and the callbacks it delivers, in delivery order. The class in
 * aware_notifier.dfy is proved to compute exactly these functions.
 *
 * All three holder collections of the source hold `WeakReference` objects,
 * and `WeakReference` has identity equality. A `Ref` is such an object: a
 * token that is fresh for every `WeakReference(...)` the source allocates,
 * plus the holder it points at.
 */
module AwareSpec {
  import opened Wrappers

  /** Kotlin's `Int.MIN_VALUE`, the page position before any page is selected. */
  const IntMinValue: int := -0x8000_0000

  /** The four notification strategies; chosen by `Install`. */
  datatype NotifyMode = NotifyNone | OnPageSelect | OnScrollAreaVisible | OnAttachWindow

  /** A view holder: its object identity and whether its class implements `VisibleAware`. */
  datatype Holder = Holder(id: nat, visibleAware: bool)

  /** A `WeakReference` object: its identity and its referent. */
  datatype Ref = Ref(token: nat, target: Holder)

  /** A call the notifier makes into a holder, or into its own owner. */
  datatype Callback =
    | AttachedChanged(holder: Holder, attached: bool)
    | VisibleChanged(holder: Holder, visible: bool)
    | Destroyed(holder: Holder)
    | AwareDestroyed

  /**
   * What the framework reports while one event is handled: whether a weak
   * reference's referent is still reachable (`get()` is non-null) and each
   * holder's current `adapterPosition`.
   */
  datatype Env = Env(alive: Holder -> bool, position: Holder -> int)

  /** The structure of the RecyclerView that `install` inspects. */
  datatype HostConfig = HostConfig(parentIsViewPager2: bool, linearLayoutManager: bool)

  /** The host's layout manager when a recompute runs, with its visible span. */
  datatype Layout = OtherLayout | Linear(first: int, last: int)

  datatype LifecycleEvent = Create | Start | Resume | Pause | Stop | Destroy | Any

  /**
   * The notifier's fields. `pendingRecompute` is the posted `triggerTask`;
   * `pendingPages` are the positions of page selections whose posted block
   * has not run yet, oldest first; `nextToken` allocates `WeakReference`s.
   */
  datatype State = State(
    enableVisibleAware: bool,
    mode: NotifyMode,
    lifecycleVisible: bool,
    hostInstalled: bool,
    attached: seq<Ref>,
    all: seq<Ref>,
    visible: seq<Ref>,
    current: Option<Ref>,
    currentPagePos: int,
    pendingRecompute: bool,
    pendingPages: seq<int>,
    nextToken: nat)

  /** The state after a handler and the callbacks it made. */
  datatype Out = Out(state: State, log: seq<Callback>)

  /** The fields as the constructor leaves them. */
  function Initial(enableVisibleAware: bool): State
  {
    State(enableVisibleAware, OnAttachWindow, false, false, [], [], [], None, IntMinValue, false, [], 0)
  }

  /** No two references in `refs` are the same object. */
  ghost predicate DistinctTokens(refs: seq<Ref>)
  {
    forall i, j :: 0 <= i < j < |refs| ==> refs[i].token != refs[j].token
  }

  /** Every reference in `refs` was allocated before `bound`. */
  ghost predicate Allocated(refs: seq<Ref>, bound: nat)
  {
    forall r :: r in refs ==> r.token < bound
  }

  /** The invariant every handler keeps: references are allocated, and attached ones are distinct objects. */
  ghost predicate Wf(s: State)
  {
    && Allocated(s.attached, s.nextToken)
    && Allocated(s.all, s.nextToken)
    && Allocated(s.visible, s.nextToken)
    && (s.current.Some? ==> s.current.value.token < s.nextToken)
    && DistinctTokens(s.attached)
  }

  // ---------------------------------------------------------------- install

  /** The precedence `install` applies when it picks the notification mode. */
  function SelectMode(enableVisibleAware: bool, c: HostConfig): (m: NotifyMode)
    ensures (m == NotifyNone) == !enableVisibleAware
    ensures (m == OnPageSelect) == (enableVisibleAware && c.parentIsViewPager2)
    ensures (m == OnScrollAreaVisible) == (enableVisibleAware && !c.parentIsViewPager2 && c.linearLayoutManager)
    ensures (m == OnAttachWindow) == (enableVisibleAware && !c.parentIsViewPager2 && !c.linearLayoutManager)
  {
    if !enableVisibleAware then NotifyNone
    else if c.parentIsViewPager2 then OnPageSelect
    else if c.linearLayoutManager then OnScrollAreaVisible
    else OnAttachWindow
  }

  function Install(s: State, c: HostConfig): State
  {
    s.(hostInstalled := true, mode := SelectMode(s.enableVisibleAware, c))
  }

  // ------------------------------------------------------- attach / detach

  /** `refs` without the reference object `r` (`LinkedHashSet.remove`). */
  function RemoveRef(refs: seq<Ref>, r: Ref): (rest: seq<Ref>)
    ensures forall x :: x in rest <==> x in refs && x != r
    ensures r !in refs ==> rest == refs
  {
    if refs == [] then []
    else if refs[0] == r then RemoveRef(refs[1..], r)
    else [refs[0]] + RemoveRef(refs[1..], r)
  }

  /** `[VisibleChanged(h, v)]` when `b` holds, nothing otherwise. */
  function ShowIf(b: bool, h: Holder, v: bool): seq<Callback>
  {
    if b then [VisibleChanged(h, v)] else []
  }

  function RegisterViewHolder(s: State, h: Holder): State
  {
    s.(all := s.all + [Ref(s.nextToken, h)], nextToken := s.nextToken + 1)
  }

  function NotifyViewAttachedToWindow(s: State, h: Holder, position: int): Out
  {
    var r := RegisterViewHolder(s, h);
    AttachedCallbacks(r.(attached := r.attached + [Ref(r.nextToken, h)], nextToken := r.nextToken + 1), h, position)
  }

  /** What `notifyViewAttachedToWindow` does once the holder is registered and in the attached set. */
  function AttachedCallbacks(s: State, h: Holder, position: int): Out
  {
    if !h.visibleAware || s.mode == NotifyNone then Out(s, [])
    else if s.mode == OnAttachWindow then
      Out(s, [AttachedChanged(h, true)] + ShowIf(s.lifecycleVisible, h, true))
    else if s.mode == OnPageSelect && s.current.None? && position == s.currentPagePos then
      Out(s.(current := Some(Ref(s.nextToken, h)), nextToken := s.nextToken + 1),
          [AttachedChanged(h, true)] + ShowIf(s.lifecycleVisible, h, true))
    else if s.mode == OnScrollAreaVisible then
      Out(s.(pendingRecompute := true), [AttachedChanged(h, true)])
    else
      Out(s, [AttachedChanged(h, true)])
  }

  function NotifyViewDetachedFromWindow(s: State, h: Holder): Out
  {
    var probe := Ref(s.nextToken, h);
    DetachedCallbacks(s.(attached := RemoveRef(s.attached, probe), nextToken := s.nextToken + 1), h)
  }

  /** What `notifyViewDetachedFromWindow` does once its probe has been removed from the attached set. */
  function DetachedCallbacks(s: State, h: Holder): Out
  {
    if !h.visibleAware || s.mode == NotifyNone then Out(s, [])
    else if s.mode == OnAttachWindow then
      Out(s, [AttachedChanged(h, false), VisibleChanged(h, false)])
    else if s.mode == OnScrollAreaVisible then
      var probe2 := Ref(s.nextToken, h);
      var exist := probe2 in s.visible;
      Out(s.(visible := RemoveRef(s.visible, probe2), nextToken := s.nextToken + 1),
          [AttachedChanged(h, false)] + ShowIf(exist, h, false))
    else
      Out(s, [AttachedChanged(h, false)])
  }

  // ------------------------------------------------------------ page select

  /** What `currentVisibleViewHolder?.get()` yields. */
  function CurrentHolder(s: State, env: Env): Option<Holder>
  {
    if s.current.Some? && env.alive(s.current.value.target) then Some(s.current.value.target) else None
  }

  /** `onPageSelected`: posts the selection, unless the host RecyclerView is gone. */
  function OnPageSelected(s: State, position: int, hostAlive: bool): State
  {
    if s.hostInstalled && hostAlive then s.(pendingPages := s.pendingPages + [position]) else s
  }

  /** The posted block of `onPageSelected`, run for the oldest pending selection; `found` is what `findViewHolderForAdapterPosition` returns. */
  function DeliverPageSelected(s: State, found: Option<Holder>, env: Env): Out
    requires s.pendingPages != []
  {
    var previous := CurrentHolder(s, env);
    var o := AdoptSelected(s.(pendingPages := s.pendingPages[1..], currentPagePos := s.pendingPages[0]), previous, found);
    Out(o.state, HidePrevious(previous, found) + o.log)
  }

  /** Step 1 of the posted block: the previous current holder is told it is hidden, unless it is the one found. */
  function HidePrevious(previous: Option<Holder>, found: Option<Holder>): seq<Callback>
  {
    if previous.Some? && previous.value.visibleAware && previous != found then [VisibleChanged(previous.value, false)] else []
  }

  /** Step 2 of the posted block: a `VisibleAware` holder found at the position becomes current and is told it is visible. */
  function AdoptSelected(s: State, previous: Option<Holder>, found: Option<Holder>): Out
  {
    if found.Some? && found.value.visibleAware then
      if previous != found then
        Out(s.(current := Some(Ref(s.nextToken, found.value)), nextToken := s.nextToken + 1), [VisibleChanged(found.value, true)])
      else
        Out(s, [])
    else
      Out(s.(current := None), [])
  }

  // ------------------------------------------------------ scroll recompute

  /** The visible-set contents and callbacks of a recompute in progress. */
  datatype Recomputed = Recomputed(visible: seq<Ref>, log: seq<Callback>)

  /** `viewHolder.adapterPosition in first..last`. */
  predicate InSpan(env: Env, r: Ref, first: int, last: int)
  {
    first <= env.position(r.target) <= last
  }

  /** One turn of the `forEach` in `triggerVisibleChange`. */
  function RecomputeOne(r: Ref, vis: seq<Ref>, first: int, last: int, env: Env): Recomputed
  {
    if !env.alive(r.target) then Recomputed(vis, [])
    else if InSpan(env, r, first, last) && r !in vis then
      Recomputed(vis + [r], ShowIf(r.target.visibleAware, r.target, true))
    else if !InSpan(env, r, first, last) && r in vis then
      Recomputed(RemoveRef(vis, r), ShowIf(r.target.visibleAware, r.target, false))
    else Recomputed(vis, [])
  }

  /** The `forEach` of `triggerVisibleChange` over `refs`, in order. */
  function RecomputeEach(refs: seq<Ref>, vis: seq<Ref>, first: int, last: int, env: Env): Recomputed
    decreases |refs|
  {
    if refs == [] then Recomputed(vis, [])
    else
      var prev := RecomputeEach(refs[..|refs| - 1], vis, first, last, env);
      var step := RecomputeOne(refs[|refs| - 1], prev.visible, first, last, env);
      Recomputed(step.visible, prev.log + step.log)
  }

  function TriggerVisibleChange(s: State, layout: Layout, env: Env): Out
  {
    match layout
    case OtherLayout => Out(s, [])
    case Linear(first, last) =>
      var r := RecomputeEach(s.attached, s.visible, first, last, env);
      Out(s.(visible := r.visible), r.log)
  }

  /** The posted `triggerTask` runs. */
  function RunTriggerTask(s: State, hostAlive: bool, layout: Layout, env: Env): Out
  {
    var s1 := s.(pendingRecompute := false);
    if s.hostInstalled && hostAlive then TriggerVisibleChange(s1, layout, env) else Out(s1, [])
  }

  // --------------------------------------------------- lifecycle and destroy

  /** `onVisibleChanged(v)` for every live `VisibleAware` referent of `refs`, in order. */
  function NotifyEach(refs: seq<Ref>, env: Env, v: bool): seq<Callback>
    decreases |refs|
  {
    if refs == [] then []
    else
      var r := refs[|refs| - 1];
      NotifyEach(refs[..|refs| - 1], env, v) + ShowIf(env.alive(r.target) && r.target.visibleAware, r.target, v)
  }

  /** The private `onVisibleChanged(newVisible)` run on resume and pause. */
  function OnVisibleChanged(s: State, v: bool, env: Env): Out
  {
    if s.lifecycleVisible == v then Out(s, [])
    else Out(s.(lifecycleVisible := v), LifecycleNotifications(s, v, env))
  }

  /** Whom `onVisibleChanged(newVisible)` notifies, by mode. */
  function LifecycleNotifications(s: State, v: bool, env: Env): seq<Callback>
  {
    match s.mode
    case OnAttachWindow => NotifyEach(s.attached, env, v)
    case OnPageSelect =>
      var h := CurrentHolder(s, env);
      if h.Some? && h.value.visibleAware then [VisibleChanged(h.value, v)] else []
    case OnScrollAreaVisible => NotifyEach(s.visible, env, v)
    case NotifyNone => []
  }

  /** `onDestroy()` for every live `VisibleAware` referent of `refs`, unless the mode is NONE. */
  function DestroyEach(refs: seq<Ref>, env: Env, mode: NotifyMode): seq<Callback>
    decreases |refs|
  {
    if refs == [] then []
    else
      var r := refs[|refs| - 1];
      DestroyEach(refs[..|refs| - 1], env, mode)
        + (if env.alive(r.target) && r.target.visibleAware && mode != NotifyNone then [Destroyed(r.target)] else [])
  }

  function OnDestroy(s: State, env: Env): Out
  {
    Out(s.(all := [], attached := [], current := None), DestroyEach(s.all, env, s.mode) + [AwareDestroyed])
  }

  function OnStateChanged(s: State, event: LifecycleEvent, env: Env): Out
  {
    if event == Resume then OnVisibleChanged(s, true, env)
    else if event == Pause then OnVisibleChanged(s, false, env)
    else if event == Destroy then OnDestroy(s, env)
    else Out(s, [])
  }

  // ---------------------------------------------------------- event streams

  /** Everything that can happen to a notifier. */
  datatype Event =
    | Installed(config: HostConfig)
    | Registered(holder: Holder)
    | AttachedToWindow(holder: Holder, position: int)
    | DetachedFromWindow(holder: Holder)
    | Recycled(holder: Holder)
    | PageSelected(position: int, hostAlive: bool)
    | PageSelectionDelivered(found: Option<Holder>, env: Env)
    | TriggerTaskRun(hostAlive: bool, layout: Layout, env: Env)
    | ScrollStateChanged(layout: Layout, env: Env)
    | LifecycleChanged(event: LifecycleEvent, env: Env)

  /** One event; a delivery or task run with nothing posted does nothing. */
  function Step(s: State, e: Event): Out
  {
    match e
    case Installed(c) => Out(Install(s, c), [])
    case Registered(h) => Out(RegisterViewHolder(s, h), [])
    case AttachedToWindow(h, p) => NotifyViewAttachedToWindow(s, h, p)
    case DetachedFromWindow(h) => NotifyViewDetachedFromWindow(s, h)
    case Recycled(_) => Out(s, [])
    case PageSelected(p, alive) => Out(OnPageSelected(s, p, alive), [])
    case PageSelectionDelivered(found, env) =>
      if s.pendingPages == [] then Out(s, []) else DeliverPageSelected(s, found, env)
    case TriggerTaskRun(alive, layout, env) =>
      if s.pendingRecompute then RunTriggerTask(s, alive, layout, env) else Out(s, [])
    case ScrollStateChanged(layout, env) => TriggerVisibleChange(s, layout, env)
    case LifecycleChanged(event, env) => OnStateChanged(s, event, env)
  }

  /** A sequence of events, with all their callbacks in order. */
  function Run(s: State, es: seq<Event>): Out
    decreases |es|
  {
    if es == [] then Out(s, [])
    else
      var prev := Run(s, es[..|es| - 1]);
      var last := Step(prev.state, es[|es| - 1]);
      Out(last.state, prev.log + last.log)
  }
}
