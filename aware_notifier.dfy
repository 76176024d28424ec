/**
 * `ViewHolderVisibleAwareNotifier` of Aware.kt as a class whose fields the
 * handlers update in place.
 *
 * Every handler is proved to move the fields exactly as the matching
 * function of `AwareSpec` moves its `State`, and to append exactly that
 * function's callbacks to `log`, the ghost record of the calls the notifier
 * has made into holders (`onAttachedChanged`, `onVisibleChanged`,
 * `onDestroy`) and into its owner (`onAwareDestroyed`). The properties proved
 * in `AwareLemmas` about those functions therefore hold of the class.
 */
module AwareNotifier {
  import opened Wrappers
  import opened AwareSpec
  import AwareLemmas

  class ViewHolderVisibleAwareNotifier {
    const enableVisibleAware: bool
    var notifyMode: NotifyMode
    var lifecycleVisible: bool
    /** `hostRecyclerViewWrf != null`: `install` has run. */
    var hostInstalled: bool
    var attachWindowViewHolders: seq<Ref>
    var allViewHolders: seq<Ref>
    var visibleViewHolders: seq<Ref>
    var currentVisibleViewHolder: Option<Ref>
    var currentPagePos: int
    /** `triggerTask` is posted on the main handler and has not run yet. */
    var triggerTaskPending: bool
    /** Positions of `onPageSelected` calls whose posted block has not run yet, oldest first. */
    var pendingPageSelections: seq<int>
    /** The identity the next `WeakReference(...)` gets. */
    var nextToken: nat
    /** Every callback made so far, in order. */
    ghost var log: seq<Callback>

    /** The fields, as the state machine of `AwareSpec` sees them. */
    ghost function Model(): State
      reads this
    {
      State(enableVisibleAware, notifyMode, lifecycleVisible, hostInstalled,
            attachWindowViewHolders, allViewHolders, visibleViewHolders,
            currentVisibleViewHolder, currentPagePos, triggerTaskPending,
            pendingPageSelections, nextToken)
    }

    ghost predicate Valid()
      reads this
    {
      Wf(Model())
    }

    /** `enableVisibleAware` is a plain field that the source always leaves `true`; here it is a parameter. */
    constructor(enableVisibleAware: bool)
      ensures Model() == Initial(enableVisibleAware) && log == [] && Valid()
    {
      this.enableVisibleAware := enableVisibleAware;
      notifyMode := OnAttachWindow;
      lifecycleVisible := false;
      hostInstalled := false;
      attachWindowViewHolders := [];
      allViewHolders := [];
      visibleViewHolders := [];
      currentVisibleViewHolder := None;
      currentPagePos := IntMinValue;
      triggerTaskPending := false;
      pendingPageSelections := [];
      nextToken := 0;
      log := [];
    }

    /** `WeakReference(h)`: a reference object distinct from every earlier one. */
    method NewWeakReference(h: Holder) returns (r: Ref)
      modifies this`nextToken
      ensures r == Ref(old(nextToken), h) && nextToken == old(nextToken) + 1
    {
      r := Ref(nextToken, h);
      nextToken := nextToken + 1;
    }

    method Install(config: HostConfig)
      requires Valid()
      modifies this
      ensures Model() == AwareSpec.Install(old(Model()), config) && log == old(log) && Valid()
    {
      hostInstalled := true;
      if !enableVisibleAware {
        notifyMode := NotifyNone;
      } else if config.parentIsViewPager2 {
        notifyMode := OnPageSelect;
      } else if config.linearLayoutManager {
        notifyMode := OnScrollAreaVisible;
      } else {
        notifyMode := OnAttachWindow;
      }
    }

    method RegisterViewHolder(h: Holder)
      requires Valid()
      modifies this
      ensures Model() == AwareSpec.RegisterViewHolder(old(Model()), h) && log == old(log) && Valid()
    {
      var r := NewWeakReference(h);
      allViewHolders := allViewHolders + [r];
    }

    /** `position` is the holder's `adapterPosition` at the call. */
    method NotifyViewAttachedToWindow(h: Holder, position: int)
      requires Valid()
      modifies this
      ensures var o := AwareSpec.NotifyViewAttachedToWindow(old(Model()), h, position);
        Model() == o.state && log == old(log) + o.log && Valid()
    {
      ghost var s0 := Model();
      AwareLemmas.AttachKeepsWf(s0, h, position);
      RegisterViewHolder(h);
      ghost var s1 := Model();
      assert s1 == AwareSpec.RegisterViewHolder(s0, h);
      var r := NewWeakReference(h);
      attachWindowViewHolders := attachWindowViewHolders + [r];
      ghost var s2 := Model();
      assert s2 == s1.(attached := s1.attached + [Ref(s1.nextToken, h)], nextToken := s1.nextToken + 1);
      AttachedCallbacks(h, position);
      assert Model() == AwareSpec.NotifyViewAttachedToWindow(s0, h, position).state;
    }

    /** The part of `notifyViewAttachedToWindow` after the holder is added to both sets. */
    method AttachedCallbacks(h: Holder, position: int)
      modifies this
      ensures var o := AwareSpec.AttachedCallbacks(old(Model()), h, position);
        Model() == o.state && log == old(log) + o.log
    {
      if !h.visibleAware || notifyMode == NotifyNone {
        return;
      }
      ghost var calls := [AttachedChanged(h, true)];
      if notifyMode == OnAttachWindow {
        if lifecycleVisible {
          calls := calls + [VisibleChanged(h, true)];
        }
      } else if notifyMode == OnPageSelect && currentVisibleViewHolder.None? && position == currentPagePos {
        var current := NewWeakReference(h);
        currentVisibleViewHolder := Some(current);
        if lifecycleVisible {
          calls := calls + [VisibleChanged(h, true)];
        }
      } else if notifyMode == OnScrollAreaVisible {
        triggerTaskPending := true;
      }
      log := log + calls;
    }

    method NotifyViewDetachedFromWindow(h: Holder)
      requires Valid()
      modifies this
      ensures var o := AwareSpec.NotifyViewDetachedFromWindow(old(Model()), h);
        Model() == o.state && log == old(log) + o.log && Valid()
    {
      ghost var s0 := Model();
      AwareLemmas.DetachKeepsWf(s0, h);
      AwareLemmas.DetachUnfold(s0, h);
      var probe := NewWeakReference(h);
      attachWindowViewHolders := RemoveRef(attachWindowViewHolders, probe);
      assert Model() == s0.(nextToken := s0.nextToken + 1);
      DetachedCallbacks(h);
    }

    /** The part of `notifyViewDetachedFromWindow` after the probe is removed from the attached set. */
    method DetachedCallbacks(h: Holder)
      modifies this
      ensures var o := AwareSpec.DetachedCallbacks(old(Model()), h);
        Model() == o.state && log == old(log) + o.log
    {
      if !h.visibleAware || notifyMode == NotifyNone {
        return;
      }
      ghost var calls := [AttachedChanged(h, false)];
      if notifyMode == OnAttachWindow {
        calls := calls + [VisibleChanged(h, false)];
      } else if notifyMode == OnScrollAreaVisible {
        var probe2 := NewWeakReference(h);
        var exist := probe2 in visibleViewHolders;
        visibleViewHolders := RemoveRef(visibleViewHolders, probe2);
        if exist {
          calls := calls + [VisibleChanged(h, false)];
        }
      }
      log := log + calls;
    }

    /** The page-change callback: posts the delivery unless the host RecyclerView is gone (`hostAlive`). */
    method OnPageSelected(position: int, hostAlive: bool)
      requires Valid()
      modifies this
      ensures Model() == AwareSpec.OnPageSelected(old(Model()), position, hostAlive) && log == old(log) && Valid()
    {
      if hostInstalled && hostAlive {
        pendingPageSelections := pendingPageSelections + [position];
      }
    }

    /** The posted block of the oldest pending selection runs; `found` is `findViewHolderForAdapterPosition(position)`. */
    method DeliverPageSelected(found: Option<Holder>, env: Env)
      requires Valid() && pendingPageSelections != []
      modifies this
      ensures var o := AwareSpec.DeliverPageSelected(old(Model()), found, env);
        Model() == o.state && log == old(log) + o.log && Valid()
    {
      ghost var s0 := Model();
      AwareLemmas.DeliverKeepsWf(s0, found, env);
      var currentVisibleHolder := if currentVisibleViewHolder.Some? && env.alive(currentVisibleViewHolder.value.target)
        then Some(currentVisibleViewHolder.value.target) else None;
      assert currentVisibleHolder == CurrentHolder(s0, env);
      TakePageSelection();
      ghost var s1 := Model();
      ghost var hidden := HidePrevious(currentVisibleHolder, found);
      HidePreviousHolder(currentVisibleHolder, found);
      assert Model() == s1;
      AdoptSelected(currentVisibleHolder, found);
      ghost var adopted := AwareSpec.AdoptSelected(s1, currentVisibleHolder, found);
      assert Model() == adopted.state;
      assert log == old(log) + (hidden + adopted.log);
    }

    /** Step 1 of the posted block: the previous current holder hears it is hidden, unless it is the one found. */
    method HidePreviousHolder(previous: Option<Holder>, found: Option<Holder>)
      modifies this`log
      ensures log == old(log) + HidePrevious(previous, found)
    {
      if previous.Some? && previous.value.visibleAware && previous != found {
        log := log + [VisibleChanged(previous.value, false)];
      }
    }

    /** The posted block's `currentPagePos = position`, for the oldest pending selection. */
    method TakePageSelection()
      requires pendingPageSelections != []
      modifies this
      ensures Model() == old(Model()).(pendingPages := old(pendingPageSelections)[1..], currentPagePos := old(pendingPageSelections)[0])
      ensures log == old(log)
    {
      var position := pendingPageSelections[0];
      pendingPageSelections := pendingPageSelections[1..];
      currentPagePos := position;
    }

    /** Step 2 of the posted block: adopt the holder found at the selected position. */
    method AdoptSelected(previous: Option<Holder>, found: Option<Holder>)
      modifies this
      ensures var o := AwareSpec.AdoptSelected(old(Model()), previous, found);
        Model() == o.state && log == old(log) + o.log
    {
      if found.Some? && found.value.visibleAware {
        if previous != found {
          var r := NewWeakReference(found.value);
          currentVisibleViewHolder := Some(r);
          log := log + [VisibleChanged(found.value, true)];
        }
      } else {
        currentVisibleViewHolder := None;
      }
    }

    /** The loop of `triggerVisibleChange` over the attached references. */
    method TriggerVisibleChange(layout: Layout, env: Env)
      requires Valid()
      modifies this
      ensures var o := AwareSpec.TriggerVisibleChange(old(Model()), layout, env);
        Model() == o.state && log == old(log) + o.log && Valid()
    {
      AwareLemmas.RecomputeKeepsWf(Model(), layout, env);
      if layout.OtherLayout? {
        return;
      }
      var vis, calls := RecomputeAttached(attachWindowViewHolders, visibleViewHolders, layout.first, layout.last, env);
      visibleViewHolders := vis;
      log := log + calls;
    }

    /** The scroll listener: a recompute on every scroll-state change. */
    method OnScrollStateChanged(layout: Layout, env: Env)
      requires Valid()
      modifies this
      ensures var o := AwareSpec.TriggerVisibleChange(old(Model()), layout, env);
        Model() == o.state && log == old(log) + o.log && Valid()
    {
      TriggerVisibleChange(layout, env);
    }

    /** The posted `triggerTask` runs; it recomputes only while the host RecyclerView is alive. */
    method RunTriggerTask(hostAlive: bool, layout: Layout, env: Env)
      requires Valid() && triggerTaskPending
      modifies this
      ensures var o := AwareSpec.RunTriggerTask(old(Model()), hostAlive, layout, env);
        Model() == o.state && log == old(log) + o.log && Valid()
    {
      triggerTaskPending := false;
      if hostInstalled && hostAlive {
        TriggerVisibleChange(layout, env);
      }
    }

    /** `onVisibleChanged(v)` for each live `VisibleAware` referent of `refs`, in order. */
    method NotifyEach(refs: seq<Ref>, env: Env, v: bool)
      modifies this`log
      ensures log == old(log) + AwareSpec.NotifyEach(refs, env, v)
    {
      var i := 0;
      while i < |refs|
        invariant 0 <= i <= |refs|
        invariant log == old(log) + AwareSpec.NotifyEach(refs[..i], env, v)
      {
        var r := refs[i];
        if env.alive(r.target) && r.target.visibleAware {
          log := log + [VisibleChanged(r.target, v)];
        }
        assert refs[..i + 1][..i] == refs[..i];
        i := i + 1;
      }
      assert refs[..i] == refs;
    }

    /** The private `onVisibleChanged(newVisible)`, run on resume and pause. */
    method OnVisibleChanged(v: bool, env: Env)
      requires Valid()
      modifies this
      ensures var o := AwareSpec.OnVisibleChanged(old(Model()), v, env);
        Model() == o.state && log == old(log) + o.log && Valid()
    {
      if lifecycleVisible == v {
        return;
      }
      if notifyMode == OnAttachWindow {
        NotifyEach(attachWindowViewHolders, env, v);
      } else if notifyMode == OnPageSelect {
        if currentVisibleViewHolder.Some? && env.alive(currentVisibleViewHolder.value.target)
           && currentVisibleViewHolder.value.target.visibleAware {
          log := log + [VisibleChanged(currentVisibleViewHolder.value.target, v)];
        }
      } else if notifyMode == OnScrollAreaVisible {
        NotifyEach(visibleViewHolders, env, v);
      }
      lifecycleVisible := v;
    }

    /** The private `onDestroy()`. */
    method OnDestroy(env: Env)
      requires Valid()
      modifies this
      ensures var o := AwareSpec.OnDestroy(old(Model()), env);
        Model() == o.state && log == old(log) + o.log && Valid()
    {
      var refs := allViewHolders;
      var i := 0;
      while i < |refs|
        invariant 0 <= i <= |refs|
        invariant Model() == old(Model()) && log == old(log) + DestroyEach(refs[..i], env, notifyMode)
      {
        var r := refs[i];
        if env.alive(r.target) && r.target.visibleAware && notifyMode != NotifyNone {
          log := log + [Destroyed(r.target)];
        }
        assert refs[..i + 1][..i] == refs[..i];
        i := i + 1;
      }
      assert refs[..i] == refs;
      allViewHolders := [];
      attachWindowViewHolders := [];
      currentVisibleViewHolder := None;
      log := log + [AwareDestroyed];
    }

    /** The lifecycle observer. */
    method OnStateChanged(event: LifecycleEvent, env: Env)
      requires Valid()
      modifies this
      ensures var o := AwareSpec.OnStateChanged(old(Model()), event, env);
        Model() == o.state && log == old(log) + o.log && Valid()
    {
      AwareLemmas.LifecycleKeepsWf(Model(), event, env);
      if event == Resume {
        OnVisibleChanged(true, env);
      } else if event == Pause {
        OnVisibleChanged(false, env);
      }
      if event == Destroy {
        OnDestroy(env);
      }
    }
  }

  /** The `forEach` of `triggerVisibleChange`: each live attached reference joins or leaves the visible set by its adapter position. */
  method RecomputeAttached(refs: seq<Ref>, visible: seq<Ref>, first: int, last: int, env: Env) returns (vis: seq<Ref>, ghost calls: seq<Callback>)
    ensures Recomputed(vis, calls) == RecomputeEach(refs, visible, first, last, env)
  {
    vis := visible;
    calls := [];
    var i := 0;
    while i < |refs|
      invariant 0 <= i <= |refs|
      invariant RecomputeEach(refs[..i], visible, first, last, env) == Recomputed(vis, calls)
    {
      var r := refs[i];
      ghost var step := RecomputeOne(r, vis, first, last, env);
      ghost var calls0 := calls;
      if env.alive(r.target) {
        var inSpan := first <= env.position(r.target) <= last;
        if inSpan && r !in vis {
          vis := vis + [r];
          if r.target.visibleAware {
            calls := calls + [VisibleChanged(r.target, true)];
          }
        } else if !inSpan && r in vis {
          vis := RemoveRef(vis, r);
          if r.target.visibleAware {
            calls := calls + [VisibleChanged(r.target, false)];
          }
        }
      }
      assert vis == step.visible && calls == calls0 + step.log;
      assert refs[..i + 1][..i] == refs[..i];
      i := i + 1;
    }
    assert refs[..i] == refs;
  }
}
