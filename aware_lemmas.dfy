/**
 * Properties of the notifier state machine in aware_spec.dfy.
 *
 * The recompute lemmas compare the stateful `forEach` of
 * `triggerVisibleChange` with `FlipLog`, a stateless reference that says
 * which holders must be told what. The counting lemmas say how often each
 * holder hears a callback: once per `WeakReference` registered for it, not
 * once per holder, because the source's sets compare references by identity.
 */
module AwareLemmas {
  import opened Wrappers
  import opened AwareSpec

  /** How many references in `refs` point at `h`. */
  function RefsTo(refs: seq<Ref>, h: Holder): nat
    decreases |refs|
  {
    if refs == [] then 0
    else RefsTo(refs[..|refs| - 1], h) + (if refs[|refs| - 1].target == h then 1 else 0)
  }

  lemma RefsToAppend(refs: seq<Ref>, r: Ref, h: Holder)
    ensures RefsTo(refs + [r], h) == RefsTo(refs, h) + (if r.target == h then 1 else 0)
  {
    assert (refs + [r])[..|refs|] == refs;
  }

  /**
   * The independent reference for a recompute: in list order, every live
   * `VisibleAware` referent whose membership in `vis` disagrees with the
   * visible span is told its new visibility, and nobody else is told anything.
   */
  function FlipLog(refs: seq<Ref>, vis: seq<Ref>, first: int, last: int, env: Env): seq<Callback>
    decreases |refs|
  {
    if refs == [] then []
    else
      var x := refs[|refs| - 1];
      var shown := InSpan(env, x, first, last);
      FlipLog(refs[..|refs| - 1], vis, first, last, env)
        + ShowIf(env.alive(x.target) && x.target.visibleAware && shown != (x in vis), x.target, shown)
  }

  // ------------------------------------------------------------- invariant

  lemma DistinctAppendFresh(refs: seq<Ref>, r: Ref, bound: nat)
    requires Allocated(refs, bound) && DistinctTokens(refs) && bound <= r.token
    ensures DistinctTokens(refs + [r])
  {
    forall i, j | 0 <= i < j < |refs + [r]| ensures (refs + [r])[i].token != (refs + [r])[j].token {
      if j == |refs| {
        assert (refs + [r])[i] in refs;
      }
    }
  }

  lemma AttachKeepsWf(s: State, h: Holder, position: int)
    requires Wf(s)
    ensures Wf(NotifyViewAttachedToWindow(s, h, position).state)
  {
    var n := s.nextToken;
    var s1 := s.(all := s.all + [Ref(n, h)], attached := s.attached + [Ref(n + 1, h)], nextToken := n + 2);
    DistinctAppendFresh(s.attached, Ref(n + 1, h), n);
    assert Allocated(s1.all, s1.nextToken);
    assert Allocated(s1.attached, s1.nextToken);
    assert Allocated(s1.visible, s1.nextToken);
    assert Wf(s1);
    var r := RegisterViewHolder(s, h);
    assert r.(attached := r.attached + [Ref(r.nextToken, h)], nextToken := r.nextToken + 1) == s1;
    AttachedCallbacksKeepsWf(s1, h, position);
  }

  lemma AttachedCallbacksKeepsWf(s: State, h: Holder, position: int)
    requires Wf(s)
    ensures Wf(AttachedCallbacks(s, h, position).state)
  {
    var n := s.nextToken;
    var s2 := s.(current := Some(Ref(n, h)), nextToken := n + 1);
    assert Allocated(s2.all, s2.nextToken);
    assert Allocated(s2.attached, s2.nextToken);
    assert Allocated(s2.visible, s2.nextToken);
  }

  lemma DetachKeepsWf(s: State, h: Holder)
    requires Wf(s)
    ensures Wf(NotifyViewDetachedFromWindow(s, h).state)
  {
    assert Ref(s.nextToken, h) !in s.attached;
  }

  /** Detach's probe is a fresh reference: removing it leaves the attached set as it was. */
  lemma DetachUnfold(s: State, h: Holder)
    requires Wf(s)
    ensures RemoveRef(s.attached, Ref(s.nextToken, h)) == s.attached
    ensures NotifyViewDetachedFromWindow(s, h) == DetachedCallbacks(s.(nextToken := s.nextToken + 1), h)
  {
    assert Ref(s.nextToken, h) !in s.attached;
  }

  lemma RecomputeKeepsWf(s: State, layout: Layout, env: Env)
    requires Wf(s)
    ensures Wf(TriggerVisibleChange(s, layout, env).state)
  {
    if layout.Linear? {
      RecomputeMembership(s.attached, s.visible, layout.first, layout.last, env);
    }
  }

  lemma DeliverKeepsWf(s: State, found: Option<Holder>, env: Env)
    requires Wf(s) && s.pendingPages != []
    ensures Wf(DeliverPageSelected(s, found, env).state)
  {
    var s1 := s.(pendingPages := s.pendingPages[1..], currentPagePos := s.pendingPages[0]);
    assert Wf(s1);
    var previous := CurrentHolder(s, env);
    var o := AdoptSelected(s1, previous, found);
    assert DeliverPageSelected(s, found, env).state == o.state;
    if found.Some? && found.value.visibleAware && previous != found {
      var n := s.nextToken;
      var s2 := s1.(current := Some(Ref(n, found.value)), nextToken := n + 1);
      assert Allocated(s2.all, s2.nextToken);
      assert Allocated(s2.attached, s2.nextToken);
      assert Allocated(s2.visible, s2.nextToken);
      assert Wf(s2);
      assert o.state == s2;
    } else if found.Some? && found.value.visibleAware {
      assert o.state == s1;
    } else {
      assert o.state == s1.(current := None);
    }
  }

  lemma LifecycleKeepsWf(s: State, event: LifecycleEvent, env: Env)
    requires Wf(s)
    ensures Wf(OnStateChanged(s, event, env).state)
  {
  }

  lemma StepKeepsWf(s: State, e: Event)
    requires Wf(s)
    ensures Wf(Step(s, e).state)
  {
    match e
    case Installed(c) =>
      assert Step(s, e).state == Install(s, c);
    case Registered(h) =>
      assert Step(s, e).state == RegisterViewHolder(s, h);
    case AttachedToWindow(h, p) =>
      assert Step(s, e) == NotifyViewAttachedToWindow(s, h, p);
      AttachKeepsWf(s, h, p);
    case DetachedFromWindow(h) =>
      assert Step(s, e) == NotifyViewDetachedFromWindow(s, h);
      DetachKeepsWf(s, h);
    case Recycled(_) =>
    case PageSelected(p, alive) =>
      assert Step(s, e).state == OnPageSelected(s, p, alive);
    case PageSelectionDelivered(found, env) =>
      if s.pendingPages != [] {
        assert Step(s, e) == DeliverPageSelected(s, found, env);
        DeliverKeepsWf(s, found, env);
      }
    case TriggerTaskRun(alive, layout, env) =>
      if s.pendingRecompute && s.hostInstalled && alive {
        RecomputeKeepsWf(s.(pendingRecompute := false), layout, env);
      }
    case ScrollStateChanged(layout, env) =>
      assert Step(s, e) == TriggerVisibleChange(s, layout, env);
      RecomputeKeepsWf(s, layout, env);
    case LifecycleChanged(event, env) =>
      assert Step(s, e) == OnStateChanged(s, event, env);
      LifecycleKeepsWf(s, event, env);
  }

  /** `Run` extended by one event. */
  lemma RunSnoc(s: State, es: seq<Event>, e: Event)
    ensures Run(s, es + [e]).state == Step(Run(s, es).state, e).state
    ensures Run(s, es + [e]).log == Run(s, es).log + Step(Run(s, es).state, e).log
  {
    assert (es + [e])[..|es|] == es;
  }

  /** `Run` over three events is their composition. */
  lemma Run3(s: State, e1: Event, e2: Event, e3: Event)
    ensures var o1 := Step(s, e1); var o2 := Step(o1.state, e2); var o3 := Step(o2.state, e3);
      Run(s, [e1, e2, e3]) == Out(o3.state, o1.log + o2.log + o3.log)
  {
    var o1 := Step(s, e1);
    var o2 := Step(o1.state, e2);
    var o3 := Step(o2.state, e3);
    RunExtend(s, [], e1, Out(s, []), o1);
    assert [] + [e1] == [e1] && [] + o1.log == o1.log;
    RunExtend(s, [e1], e2, Out(o1.state, o1.log), o2);
    assert [e1] + [e2] == [e1, e2];
    RunExtend(s, [e1, e2], e3, Out(o2.state, o1.log + o2.log), o3);
    assert [e1, e2] + [e3] == [e1, e2, e3];
  }

  /** One more event extends a run by that event's step. */
  lemma RunExtend(s: State, es: seq<Event>, e: Event, prev: Out, last: Out)
    requires Run(s, es) == prev && Step(prev.state, e) == last
    ensures Run(s, es + [e]) == Out(last.state, prev.log + last.log)
  {
    assert (es + [e])[..|es|] == es;
  }

  /** `Run` over four events is their composition. */
  lemma Run4(s: State, e1: Event, e2: Event, e3: Event, e4: Event)
    ensures var o1 := Step(s, e1); var o2 := Step(o1.state, e2); var o3 := Step(o2.state, e3); var o4 := Step(o3.state, e4);
      Run(s, [e1, e2, e3, e4]) == Out(o4.state, o1.log + o2.log + o3.log + o4.log)
  {
    var l3 := [e1, e2, e3];
    var l4 := l3 + [e4];
    Run3(s, e1, e2, e3);
    RunSnoc(s, l3, e4);
    assert l4 == [e1, e2, e3, e4];
  }

  /** Every reachable state satisfies `Wf`. */
  lemma {:induction false} RunKeepsWf(s: State, es: seq<Event>)
    requires Wf(s)
    ensures Wf(Run(s, es).state)
    decreases |es|
  {
    if es != [] {
      RunKeepsWf(s, es[..|es| - 1]);
      StepKeepsWf(Run(s, es[..|es| - 1]).state, es[|es| - 1]);
    }
  }

  // ----------------------------------------------------------------- mode

  /** Only `install` assigns the mode. */
  lemma {:induction false} ModeFixedAfterInstall(s: State, es: seq<Event>)
    requires forall i :: 0 <= i < |es| ==> !es[i].Installed?
    ensures Run(s, es).state.mode == s.mode
    decreases |es|
  {
    if es != [] {
      ModeFixedAfterInstall(s, es[..|es| - 1]);
      StepKeepsMode(Run(s, es[..|es| - 1]).state, es[|es| - 1]);
    }
  }

  /** Every handler but `install` leaves the mode alone. */
  lemma StepKeepsMode(s: State, e: Event)
    requires !e.Installed?
    ensures Step(s, e).state.mode == s.mode
  {
    match e
    case Installed(_) =>
    case Registered(_) =>
    case AttachedToWindow(h, p) =>
    case DetachedFromWindow(h) =>
    case Recycled(_) =>
    case PageSelected(_, _) =>
    case PageSelectionDelivered(found, env) =>
    case TriggerTaskRun(alive, layout, env) =>
    case ScrollStateChanged(layout, env) =>
    case LifecycleChanged(event, env) =>
  }

  // ------------------------------------------------------- attach / detach

  /** Attach registers a fresh reference in both sets before checking anything; without interest it calls nobody. */
  lemma AttachAlwaysRegisters(s: State, h: Holder, position: int)
    ensures var o := NotifyViewAttachedToWindow(s, h, position);
      && o.state.all == s.all + [Ref(s.nextToken, h)]
      && o.state.attached == s.attached + [Ref(s.nextToken + 1, h)]
      && RefsTo(o.state.all, h) == RefsTo(s.all, h) + 1
      && o.state.mode == s.mode && o.state.visible == s.visible
      && o.state.lifecycleVisible == s.lifecycleVisible && o.state.currentPagePos == s.currentPagePos
      && ((!h.visibleAware || s.mode == NotifyNone) ==>
            o.log == [] && o.state == s.(all := o.state.all, attached := o.state.attached, nextToken := s.nextToken + 2))
  {
    var all := s.all + [Ref(s.nextToken, h)];
    assert all[..|all| - 1] == s.all;
  }

  /** Detach removes a reference nobody holds, so the attached set never shrinks; without interest it calls nobody. */
  lemma DetachRemovesNothing(s: State, h: Holder)
    requires Wf(s)
    ensures var o := NotifyViewDetachedFromWindow(s, h);
      && o.state.attached == s.attached
      && o.state.mode == s.mode && o.state.current == s.current
      && ((!h.visibleAware || s.mode == NotifyNone) ==> o.log == [])
  {
    assert Ref(s.nextToken, h) !in s.attached;
  }

  /** ON_ATTACH_WINDOW: attach tells attached, then visible iff the host is visible; detach tells both false. */
  lemma AttachWindowCallbacks(s: State, h: Holder, position: int)
    requires s.mode == OnAttachWindow && h.visibleAware
    ensures NotifyViewAttachedToWindow(s, h, position).state
            == s.(all := s.all + [Ref(s.nextToken, h)], attached := s.attached + [Ref(s.nextToken + 1, h)], nextToken := s.nextToken + 2)
    ensures NotifyViewAttachedToWindow(s, h, position).log
            == [AttachedChanged(h, true)] + (if s.lifecycleVisible then [VisibleChanged(h, true)] else [])
    ensures NotifyViewDetachedFromWindow(s, h).log == [AttachedChanged(h, false), VisibleChanged(h, false)]
  {
  }

  /** ON_SCROLL_AREA_VISIBLE attach tells attached only and leaves one recompute pending. */
  lemma ScrollAttachSchedules(s: State, h: Holder, position: int)
    requires s.mode == OnScrollAreaVisible
    ensures var o := NotifyViewAttachedToWindow(s, h, position);
      && o.state.pendingRecompute == (h.visibleAware || s.pendingRecompute)
      && (h.visibleAware ==> o.log == [AttachedChanged(h, true)])
      && o.state.visible == s.visible && o.state.current == s.current
  {
  }

  /** ON_SCROLL_AREA_VISIBLE detach never finds its fresh reference in the visible set, so it never tells visible=false. */
  lemma ScrollDetachNeverHides(s: State, h: Holder)
    requires Wf(s) && s.mode == OnScrollAreaVisible && h.visibleAware
    ensures var o := NotifyViewDetachedFromWindow(s, h);
      o.log == [AttachedChanged(h, false)] && o.state.visible == s.visible && o.state.attached == s.attached
  {
    assert Ref(s.nextToken, h) !in s.attached;
    assert Ref(s.nextToken + 1, h) !in s.visible;
  }

  /** ON_PAGE_SELECT attach adopts the holder exactly when nothing is current and its position is the selected page. */
  lemma PageAttachAdoption(s: State, h: Holder, position: int)
    ensures var o := NotifyViewAttachedToWindow(s, h, position);
      var adopted := s.mode == OnPageSelect && h.visibleAware && s.current.None? && position == s.currentPagePos;
      && (o.state.current != s.current <==> adopted)
      && (adopted ==> o.state.current.Some? && o.state.current.value.target == h
                      && o.log == [AttachedChanged(h, true)] + (if s.lifecycleVisible then [VisibleChanged(h, true)] else []))
  {
  }

  /** Until a page selection is delivered, `currentPagePos` stays `Int.MIN_VALUE` and no attach is adopted as current. */
  lemma {:induction false} NoAdoptionBeforeFirstSelection(s: State, es: seq<Event>)
    requires s.currentPagePos == IntMinValue && s.current.None?
    requires forall i :: 0 <= i < |es| ==>
      !es[i].PageSelectionDelivered? && (es[i].AttachedToWindow? ==> es[i].position != IntMinValue)
    ensures Run(s, es).state.currentPagePos == IntMinValue && Run(s, es).state.current.None?
    decreases |es|
  {
    if es != [] {
      NoAdoptionBeforeFirstSelection(s, es[..|es| - 1]);
      StepKeepsNoAdoption(Run(s, es[..|es| - 1]).state, es[|es| - 1]);
    }
  }

  lemma StepKeepsNoAdoption(s: State, e: Event)
    requires s.currentPagePos == IntMinValue && s.current.None?
    requires !e.PageSelectionDelivered? && (e.AttachedToWindow? ==> e.position != IntMinValue)
    ensures Step(s, e).state.currentPagePos == IntMinValue && Step(s, e).state.current.None?
  {
    match e
    case AttachedToWindow(h, p) =>
      assert Step(s, e) == NotifyViewAttachedToWindow(s, h, p);
    case DetachedFromWindow(h) =>
      assert Step(s, e) == NotifyViewDetachedFromWindow(s, h);
    case LifecycleChanged(event, env) =>
      assert Step(s, e) == OnStateChanged(s, event, env);
    case TriggerTaskRun(alive, layout, env) =>
    case ScrollStateChanged(layout, env) =>
      assert Step(s, e) == TriggerVisibleChange(s, layout, env);
    case _ =>
  }

  // ------------------------------------------------------------ page select

  /**
   * Page selections are delivered first in, first out: after two selections
   * on an installed host, the first delivery settles on the first position
   * and the second on the second, whatever holders the lookups find.
   */
  lemma PageSelectionsInOrder(s: State, p1: int, p2: int, f1: Option<Holder>, f2: Option<Holder>, env1: Env, env2: Env)
    requires s.hostInstalled && s.pendingPages == []
    ensures var r := Run(s, [PageSelected(p1, true), PageSelected(p2, true), PageSelectionDelivered(f1, env1)]);
      r.state.currentPagePos == p1 && r.state.pendingPages == [p2]
    ensures var r := Run(s, [PageSelected(p1, true), PageSelected(p2, true), PageSelectionDelivered(f1, env1), PageSelectionDelivered(f2, env2)]);
      r.state.currentPagePos == p2 && r.state.pendingPages == []
  {
    var o1 := Step(s, PageSelected(p1, true));
    PageSelectedStep(s, p1);
    assert o1.state.pendingPages == [p1];
    var o2 := Step(o1.state, PageSelected(p2, true));
    PageSelectedStep(o1.state, p2);
    assert o2.state.pendingPages == [p1, p2];
    var o3 := Step(o2.state, PageSelectionDelivered(f1, env1));
    DeliverTakesHead(o2.state, f1, env1);
    assert o3.state.pendingPages == [p2];
    var o4 := Step(o3.state, PageSelectionDelivered(f2, env2));
    DeliverTakesHead(o3.state, f2, env2);
    Run3(s, PageSelected(p1, true), PageSelected(p2, true), PageSelectionDelivered(f1, env1));
    Run4(s, PageSelected(p1, true), PageSelected(p2, true), PageSelectionDelivered(f1, env1), PageSelectionDelivered(f2, env2));
  }

  /** What the delivered page-selected block does, case by case. */
  lemma DeliverPageSelectedCases(s: State, found: Option<Holder>, env: Env)
    requires s.pendingPages != []
    ensures var o := DeliverPageSelected(s, found, env);
      var previous := CurrentHolder(s, env);
      var resolved := found.Some? && found.value.visibleAware;
      && o.state.currentPagePos == s.pendingPages[0]
      && o.state.pendingPages == s.pendingPages[1..]
      && o.state.mode == s.mode && o.state.lifecycleVisible == s.lifecycleVisible
      && o.state.attached == s.attached && o.state.all == s.all && o.state.visible == s.visible
      && ((exists c :: c in o.log && c == VisibleChanged(c.holder, false))
            <==> previous.Some? && previous.value.visibleAware && previous != found)
      && (resolved && previous != found ==>
            o.state.current.Some? && o.state.current.value.target == found.value
            && o.log[|o.log| - 1] == VisibleChanged(found.value, true))
      && (resolved && previous == found ==> o.log == [] && o.state.current == s.current)
      && (!resolved ==> o.state.current.None? && |o.log| <= 1)
  {
    var o := DeliverPageSelected(s, found, env);
    var previous := CurrentHolder(s, env);
    if previous.Some? && previous.value.visibleAware && previous != found {
      assert o.log[0] == VisibleChanged(previous.value, false);
    }
  }

  /**
   * The page-select race, attach first: a holder attached at position p
   * before the selection of p is delivered becomes current when the posted
   * block runs, and is told visible=true whether or not the host is
   * resumed, because the delivered block never checks `lifecycleVisible`.
   */
  lemma PageAttachThenSelect(s: State, h: Holder, p: int, env: Env)
    requires s.mode == OnPageSelect && s.hostInstalled && s.current.None? && s.pendingPages == []
    requires h.visibleAware && s.currentPagePos != p
    ensures var a := Run(s, [AttachedToWindow(h, p), PageSelected(p, true), PageSelectionDelivered(Some(h), env)]);
      && a.state.current.Some? && a.state.current.value.target == h
      && a.state.currentPagePos == p
      && a.log == [AttachedChanged(h, true), VisibleChanged(h, true)]
  {
    var a1 := Step(s, AttachedToWindow(h, p));
    PageAttachStep(s, h, p);
    var a2 := Step(a1.state, PageSelected(p, true));
    PageSelectedStep(a1.state, p);
    assert a2.state.pendingPages == [p];
    var a3 := Step(a2.state, PageSelectionDelivered(Some(h), env));
    DeliverAdoptStep(a2.state, h, env);
    Run3(s, AttachedToWindow(h, p), PageSelected(p, true), PageSelectionDelivered(Some(h), env));
  }

  /**
   * The page-select race, select first: when the selected page's holder is
   * not yet attached, the delivery records the position, and the holder
   * attached there later is adopted by the attach handler, which does check
   * `lifecycleVisible`.
   */
  lemma PageSelectThenAttach(s: State, h: Holder, p: int, env: Env)
    requires s.mode == OnPageSelect && s.hostInstalled && s.current.None? && s.pendingPages == []
    requires h.visibleAware
    ensures var b := Run(s, [PageSelected(p, true), PageSelectionDelivered(None, env), AttachedToWindow(h, p)]);
      && b.state.current.Some? && b.state.current.value.target == h
      && b.state.currentPagePos == p
      && b.log == [AttachedChanged(h, true)] + ShowIf(s.lifecycleVisible, h, true)
  {
    var b1 := Step(s, PageSelected(p, true));
    PageSelectedStep(s, p);
    assert b1.state.pendingPages == [p];
    var b2 := Step(b1.state, PageSelectionDelivered(None, env));
    DeliverMissStep(b1.state, env);
    var b3 := Step(b2.state, AttachedToWindow(h, p));
    PageAdoptStep(b2.state, h, p);
    Run3(s, PageSelected(p, true), PageSelectionDelivered(None, env), AttachedToWindow(h, p));
  }

  // ------------------------------------------------------ scroll recompute

  /** After a recompute, a live attached reference is in the visible set iff its position lies in the span; others keep their membership. */
  lemma {:induction false} RecomputeMembership(refs: seq<Ref>, vis: seq<Ref>, first: int, last: int, env: Env)
    ensures forall x :: x in RecomputeEach(refs, vis, first, last, env).visible <==>
      (if x in refs && env.alive(x.target) then InSpan(env, x, first, last) else x in vis)
    decreases |refs|
  {
    if refs != [] {
      var pre := refs[..|refs| - 1];
      RecomputeMembership(pre, vis, first, last, env);
      assert refs == pre + [refs[|refs| - 1]];
    }
  }

  /** With distinct references, the stateful recompute delivers exactly `FlipLog`: one callback per flipped membership and no others. */
  lemma {:induction false} RecomputeIsFlipLog(refs: seq<Ref>, vis: seq<Ref>, first: int, last: int, env: Env)
    requires DistinctTokens(refs)
    ensures RecomputeEach(refs, vis, first, last, env).log == FlipLog(refs, vis, first, last, env)
    decreases |refs|
  {
    if refs != [] {
      var pre := refs[..|refs| - 1];
      var y := refs[|refs| - 1];
      assert forall k :: 0 <= k < |pre| ==> pre[k] == refs[k];
      RecomputeIsFlipLog(pre, vis, first, last, env);
      RecomputeMembership(pre, vis, first, last, env);
      assert forall k :: 0 <= k < |pre| ==> pre[k].token != y.token;
      assert y !in pre;
    }
  }

  /** When membership already matches the span, `FlipLog` is empty. */
  lemma {:induction false} FlipLogSettled(refs: seq<Ref>, vis: seq<Ref>, first: int, last: int, env: Env)
    requires forall x :: x in refs && env.alive(x.target) ==> (x in vis <==> InSpan(env, x, first, last))
    ensures FlipLog(refs, vis, first, last, env) == []
    decreases |refs|
  {
    if refs != [] {
      var pre := refs[..|refs| - 1];
      assert refs == pre + [refs[|refs| - 1]];
      FlipLogSettled(pre, vis, first, last, env);
    }
  }

  /** A recompute over the attached set settles it: the visible set agrees with the span, only flips are told, and a second recompute under the same layout tells nobody. */
  lemma TriggerVisibleChangeSettles(s: State, first: int, last: int, env: Env)
    requires Wf(s)
    ensures var o := TriggerVisibleChange(s, Linear(first, last), env);
      && o.state == s.(visible := o.state.visible)
      && (forall r :: r in s.attached && env.alive(r.target) ==> (r in o.state.visible <==> InSpan(env, r, first, last)))
      && (forall r :: r in o.state.visible ==> r in s.visible || r in s.attached)
      && o.log == FlipLog(s.attached, s.visible, first, last, env)
      && TriggerVisibleChange(o.state, Linear(first, last), env).log == []
  {
    var v1 := RecomputeEach(s.attached, s.visible, first, last, env).visible;
    RecomputeMembership(s.attached, s.visible, first, last, env);
    RecomputeIsFlipLog(s.attached, s.visible, first, last, env);
    RecomputeIsFlipLog(s.attached, v1, first, last, env);
    FlipLogSettled(s.attached, v1, first, last, env);
  }

  /** Without a LinearLayoutManager a recompute does nothing. */
  lemma TriggerNeedsLinearLayout(s: State, env: Env)
    ensures TriggerVisibleChange(s, OtherLayout, env) == Out(s, [])
  {
  }

  // --------------------------------------------------- lifecycle and destroy

  /** `NotifyEach` tells each live `VisibleAware` holder once per reference to it, and nobody else. */
  lemma {:induction false} NotifyEachCounts(refs: seq<Ref>, env: Env, v: bool, c: Callback)
    ensures multiset(NotifyEach(refs, env, v))[c]
            == if c.VisibleChanged? && c.visible == v && env.alive(c.holder) && c.holder.visibleAware
               then RefsTo(refs, c.holder) else 0
    decreases |refs|
  {
    if refs != [] {
      NotifyEachCounts(refs[..|refs| - 1], env, v, c);
    }
  }

  /** `DestroyEach` tells each live `VisibleAware` holder `onDestroy` once per reference to it, unless the mode is NONE. */
  lemma {:induction false} DestroyEachCounts(refs: seq<Ref>, env: Env, mode: NotifyMode, c: Callback)
    ensures multiset(DestroyEach(refs, env, mode))[c]
            == if c.Destroyed? && mode != NotifyNone && env.alive(c.holder) && c.holder.visibleAware
               then RefsTo(refs, c.holder) else 0
    decreases |refs|
  {
    if refs != [] {
      DestroyEachCounts(refs[..|refs| - 1], env, mode, c);
    }
  }

  /** Resume and pause: nothing on an unchanged flag; otherwise notify by mode, then set the flag. */
  lemma OnVisibleChangedNotifies(s: State, v: bool, env: Env, c: Callback)
    ensures var o := OnVisibleChanged(s, v, env);
      && (s.lifecycleVisible == v ==> o == Out(s, []))
      && (s.lifecycleVisible != v ==> o.state == s.(lifecycleVisible := v))
      && (s.lifecycleVisible != v && s.mode == OnAttachWindow ==>
            multiset(o.log)[c] == if c.VisibleChanged? && c.visible == v && env.alive(c.holder) && c.holder.visibleAware
                                  then RefsTo(s.attached, c.holder) else 0)
      && (s.lifecycleVisible != v && s.mode == OnScrollAreaVisible ==>
            multiset(o.log)[c] == if c.VisibleChanged? && c.visible == v && env.alive(c.holder) && c.holder.visibleAware
                                  then RefsTo(s.visible, c.holder) else 0)
      && (s.lifecycleVisible != v && s.mode == OnPageSelect ==>
            o.log == if CurrentHolder(s, env).Some? && CurrentHolder(s, env).value.visibleAware
                     then [VisibleChanged(CurrentHolder(s, env).value, v)] else [])
      && (s.mode == NotifyNone ==> o.log == [])
  {
    NotifyEachCounts(s.attached, env, v, c);
    NotifyEachCounts(s.visible, env, v, c);
  }

  /**
   * Resume in ON_ATTACH_WINDOW after a holder was attached, detached and
   * attached again: the detach removed nothing, so the holder is told
   * visible=true twice.
   */
  lemma ReattachedHolderHearsResumeTwice(s: State, h: Holder, p: int, env: Env)
    requires Wf(s) && s.mode == OnAttachWindow && !s.lifecycleVisible
    requires h.visibleAware && env.alive(h) && RefsTo(s.attached, h) == 0
    ensures var o := Run(s, [AttachedToWindow(h, p), DetachedFromWindow(h), AttachedToWindow(h, p), LifecycleChanged(Resume, env)]);
      multiset(o.log)[VisibleChanged(h, true)] == 2
  {
    var e1, e2, e3, e4 := AttachedToWindow(h, p), DetachedFromWindow(h), AttachedToWindow(h, p), LifecycleChanged(Resume, env);
    var s1 := Step(s, e1);
    var s2 := Step(s1.state, e2);
    var s3 := Step(s2.state, e3);
    ReattachPrefix(s, h, p);
    ReattachRefs(s, h, p);
    ResumeCounts(s3.state, h, env);
    Run4(s, e1, e2, e3, e4);
  }

  /** Resume in ON_ATTACH_WINDOW tells a live `VisibleAware` holder visible=true once per attached reference to it. */
  lemma ResumeCounts(s: State, h: Holder, env: Env)
    requires s.mode == OnAttachWindow && !s.lifecycleVisible && h.visibleAware && env.alive(h)
    ensures multiset(Step(s, LifecycleChanged(Resume, env)).log)[VisibleChanged(h, true)] == RefsTo(s.attached, h)
  {
    assert Step(s, LifecycleChanged(Resume, env)) == OnVisibleChanged(s, true, env);
    OnVisibleChangedNotifies(s, true, env, VisibleChanged(h, true));
  }

  /** Attach, detach and attach again in ON_ATTACH_WINDOW while paused: two references stay attached and nobody is told visible=true. */
  lemma ReattachPrefix(s: State, h: Holder, p: int)
    requires Wf(s) && s.mode == OnAttachWindow && !s.lifecycleVisible && h.visibleAware
    ensures var s1 := Step(s, AttachedToWindow(h, p));
      var s2 := Step(s1.state, DetachedFromWindow(h));
      var s3 := Step(s2.state, AttachedToWindow(h, p));
      && s3.state.attached == s.attached + [Ref(s.nextToken + 1, h), Ref(s.nextToken + 4, h)]
      && s3.state.mode == OnAttachWindow && !s3.state.lifecycleVisible
      && multiset(s1.log + s2.log + s3.log)[VisibleChanged(h, true)] == 0
  {
    var n := s.nextToken;
    AttachWindowStep(s, h, p);
    var t1 := Step(s, AttachedToWindow(h, p)).state;
    DetachWindowStep(t1, h);
    var t2 := Step(t1, DetachedFromWindow(h)).state;
    AttachWindowStep(t2, h, p);
    assert [AttachedChanged(h, true)] + [AttachedChanged(h, false), VisibleChanged(h, false)] + [AttachedChanged(h, true)]
        == [AttachedChanged(h, true), AttachedChanged(h, false), VisibleChanged(h, false), AttachedChanged(h, true)];
  }

  /** ON_PAGE_SELECT attach of a holder that does not become current, as one step. */
  lemma PageAttachStep(s: State, h: Holder, p: int)
    requires s.mode == OnPageSelect && h.visibleAware && !(s.current.None? && p == s.currentPagePos)
    ensures Step(s, AttachedToWindow(h, p))
      == Out(s.(all := s.all + [Ref(s.nextToken, h)], attached := s.attached + [Ref(s.nextToken + 1, h)], nextToken := s.nextToken + 2),
             [AttachedChanged(h, true)])
  {
    var r := RegisterViewHolder(s, h);
    var t := r.(attached := r.attached + [Ref(r.nextToken, h)], nextToken := r.nextToken + 1);
    assert Step(s, AttachedToWindow(h, p)) == AttachedCallbacks(t, h, p);
  }

  /** ON_PAGE_SELECT attach at the selected position while nothing is current, as one step. */
  lemma PageAdoptStep(s: State, h: Holder, p: int)
    requires s.mode == OnPageSelect && h.visibleAware && s.current.None? && p == s.currentPagePos
    ensures Step(s, AttachedToWindow(h, p))
      == Out(s.(all := s.all + [Ref(s.nextToken, h)], attached := s.attached + [Ref(s.nextToken + 1, h)],
                current := Some(Ref(s.nextToken + 2, h)), nextToken := s.nextToken + 3),
             [AttachedChanged(h, true)] + ShowIf(s.lifecycleVisible, h, true))
  {
    var r := RegisterViewHolder(s, h);
    var t := r.(attached := r.attached + [Ref(r.nextToken, h)], nextToken := r.nextToken + 1);
    assert Step(s, AttachedToWindow(h, p)) == AttachedCallbacks(t, h, p);
  }

  /** `onPageSelected` on an installed host, as one step: the position is queued. */
  lemma PageSelectedStep(s: State, p: int)
    requires s.hostInstalled
    ensures Step(s, PageSelected(p, true)) == Out(s.(pendingPages := s.pendingPages + [p]), [])
  {
    assert Step(s, PageSelected(p, true)) == Out(OnPageSelected(s, p, true), []);
  }

  /** The posted block, as one step: it takes the oldest queued position, whatever holder is found. */
  lemma DeliverTakesHead(s: State, found: Option<Holder>, env: Env)
    requires s.pendingPages != []
    ensures var o := Step(s, PageSelectionDelivered(found, env));
      o.state.currentPagePos == s.pendingPages[0] && o.state.pendingPages == s.pendingPages[1..]
  {
    assert Step(s, PageSelectionDelivered(found, env)) == DeliverPageSelected(s, found, env);
  }

  /** The posted block, as one step, when nothing is current and a `VisibleAware` holder is found. */
  lemma DeliverAdoptStep(s: State, h: Holder, env: Env)
    requires s.pendingPages != [] && s.current.None? && h.visibleAware
    ensures var o := Step(s, PageSelectionDelivered(Some(h), env));
      && o.state.current == Some(Ref(s.nextToken, h))
      && o.state.currentPagePos == s.pendingPages[0]
      && o.log == [VisibleChanged(h, true)]
  {
    assert CurrentHolder(s, env) == None;
    assert Step(s, PageSelectionDelivered(Some(h), env)) == DeliverPageSelected(s, Some(h), env);
  }

  /** The posted block, as one step, when nothing is current and no holder is found: only the position is taken. */
  lemma DeliverMissStep(s: State, env: Env)
    requires s.pendingPages != [] && s.current.None?
    ensures Step(s, PageSelectionDelivered(None, env)) == Out(s.(pendingPages := s.pendingPages[1..], currentPagePos := s.pendingPages[0]), [])
  {
    assert CurrentHolder(s, env) == None;
    assert Step(s, PageSelectionDelivered(None, env)) == DeliverPageSelected(s, None, env);
  }

  /** ON_ATTACH_WINDOW attach while paused, as one step. */
  lemma AttachWindowStep(s: State, h: Holder, p: int)
    requires Wf(s) && s.mode == OnAttachWindow && !s.lifecycleVisible && h.visibleAware
    ensures var o := Step(s, AttachedToWindow(h, p));
      && o.state == s.(all := s.all + [Ref(s.nextToken, h)], attached := s.attached + [Ref(s.nextToken + 1, h)], nextToken := s.nextToken + 2)
      && o.log == [AttachedChanged(h, true)] && Wf(o.state)
  {
    AttachKeepsWf(s, h, p);
    AttachWindowCallbacks(s, h, p);
  }

  /** ON_ATTACH_WINDOW detach, as one step. */
  lemma DetachWindowStep(s: State, h: Holder)
    requires Wf(s) && s.mode == OnAttachWindow && h.visibleAware
    ensures var o := Step(s, DetachedFromWindow(h));
      && o.state == s.(nextToken := s.nextToken + 1)
      && o.log == [AttachedChanged(h, false), VisibleChanged(h, false)] && Wf(o.state)
  {
    DetachKeepsWf(s, h);
    DetachUnfold(s, h);
  }

  /** After that prefix the holder has two more attached references than before. */
  lemma ReattachRefs(s: State, h: Holder, p: int)
    requires Wf(s) && s.mode == OnAttachWindow && !s.lifecycleVisible && h.visibleAware
    ensures var s1 := Step(s, AttachedToWindow(h, p));
      var s2 := Step(s1.state, DetachedFromWindow(h));
      var s3 := Step(s2.state, AttachedToWindow(h, p));
      RefsTo(s3.state.attached, h) == RefsTo(s.attached, h) + 2
  {
    var n := s.nextToken;
    AttachWindowStep(s, h, p);
    var t1 := Step(s, AttachedToWindow(h, p)).state;
    DetachWindowStep(t1, h);
    var t2 := Step(t1, DetachedFromWindow(h)).state;
    AttachWindowStep(t2, h, p);
    RefsToAppend(s.attached, Ref(n + 1, h), h);
    RefsToAppend(t2.attached, Ref(n + 4, h), h);
  }

  /** Destroy: `onDestroy` once per live `VisibleAware` registration (none in NONE mode), then clear all, attached and current, keep visible and the page position, and call `onAwareDestroyed`. */
  lemma OnDestroyCases(s: State, env: Env, c: Callback)
    ensures var o := OnDestroy(s, env);
      && o.state == s.(all := [], attached := [], current := None)
      && o.log[|o.log| - 1] == AwareDestroyed
      && (c != AwareDestroyed ==>
            multiset(o.log)[c] == if c.Destroyed? && s.mode != NotifyNone && env.alive(c.holder) && c.holder.visibleAware
                                  then RefsTo(s.all, c.holder) else 0)
  {
    DestroyEachCounts(s.all, env, s.mode, c);
  }

  /** A second destroy tells no holder anything. */
  lemma SecondDestroyIsSilent(s: State, env: Env, env2: Env)
    ensures OnDestroy(OnDestroy(s, env).state, env2).log == [AwareDestroyed]
  {
  }
}
