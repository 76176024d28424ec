/**
 * Properties of the section registry and of the stub cache.
 */
module SectionLemmas {
  import opened Wrappers
  import opened SectionSpec

  // ----------------------------------------------------------- registerSections

  lemma {:induction false} AdmittedAppend(a: seq<SectionClass>, b: seq<SectionClass>)
    ensures Admitted(a + b) == Admitted(a) + Admitted(b)
    decreases |b|
  {
    if b == [] {
      assert a + b == a;
    } else {
      AdmittedAppend(a, b[..|b| - 1]);
      assert (a + b)[..|a + b| - 1] == a + b[..|b| - 1];
    }
  }

  /** Exactly the classes that instantiate and are enabled are registered, and never more than were given. */
  lemma {:induction false} AdmittedMembers(classes: seq<SectionClass>)
    ensures forall c :: c in Admitted(classes) <==> c in classes && c.instantiable && c.enabled
    ensures |Admitted(classes)| <= |classes|
    decreases |classes|
  {
    if classes != [] {
      var init := classes[..|classes| - 1];
      AdmittedMembers(init);
      assert classes == init + [classes[|classes| - 1]];
    }
  }

  /** A class whose instantiation fails is skipped on its own: the classes around it register as if it were absent. */
  lemma AdmittedSkipsFailure(before: seq<SectionClass>, c: SectionClass, after: seq<SectionClass>)
    requires !c.instantiable
    ensures Admitted(before + [c] + after) == Admitted(before) + Admitted(after)
  {
    AdmittedAppend(before + [c], after);
    AdmittedAppend(before, [c]);
    assert Admitted([c]) == [] by {
      assert [c][..0] == [];
    }
  }

  /** Section classes as Section.kt defines them all register, in the given order. */
  lemma {:induction false} AdmittedDefault(classes: seq<SectionClass>)
    requires forall k :: 0 <= k < |classes| ==> classes[k] == DefaultSectionClass(classes[k].name, classes[k].stubIds)
    ensures Admitted(classes) == classes
    decreases |classes|
  {
    if classes != [] {
      var n := |classes| - 1;
      var init := classes[..n];
      assert classes[n].instantiable && classes[n].enabled;
      forall k | 0 <= k < |init|
        ensures init[k] == DefaultSectionClass(init[k].name, init[k].stubIds)
      {
        assert init[k] == classes[k];
      }
      AdmittedDefault(init);
      assert classes == init + [classes[n]];
    }
  }

  // ------------------------------------------------------ replaying the history

  lemma {:induction false} ReplayAppend<T>(c: map<int, View>, a: seq<Event<T>>, b: seq<Event<T>>)
    ensures Replay(c, a + b) == Replay(Replay(c, a), b)
    decreases |b|
  {
    if b == [] {
      assert a + b == a;
    } else {
      ReplayAppend(c, a, b[..|b| - 1]);
      assert (a + b)[..|a + b| - 1] == a + b[..|b| - 1];
    }
  }

  /** Replaying keeps every cached id and caches every inflated one. */
  lemma {:induction false} ReplayKeys<T>(c: map<int, View>, events: seq<Event<T>>)
    ensures forall id :: id in c ==> id in Replay(c, events)
    ensures forall i :: 0 <= i < |events| && events[i].Inflated? ==> events[i].stubId in Replay(c, events)
    decreases |events|
  {
    if events != [] {
      var p := events[..|events| - 1];
      ReplayKeys(c, p);
      assert forall i :: 0 <= i < |p| ==> p[i] == events[i];
    }
  }

  /** Calls alone leave the cache as it is. */
  lemma {:induction false} ReplayCalls<T>(c: map<int, View>, events: seq<Event<T>>)
    requires forall e :: e in events ==> e.Hooked?
    ensures Replay(c, events) == c
    decreases |events|
  {
    if events != [] {
      var p := events[..|events| - 1];
      assert forall e :: e in p ==> e in events;
      assert events[|events| - 1] in events;
      ReplayCalls(c, p);
    }
  }

  /**
   * When no id is inflated twice, the replayed cache holds exactly the
   * starting ids and the inflated ones, and an inflated id maps to the view
   * its inflation produced.
   */
  lemma {:induction false} ReplayLookup<T>(c: map<int, View>, events: seq<Event<T>>)
    requires InflatesOnce(events)
    ensures forall id :: id in Replay(c, events) <==> id in c || exists i :: 0 <= i < |events| && events[i].Inflated? && events[i].stubId == id
    ensures forall i :: 0 <= i < |events| && events[i].Inflated? ==> Replay(c, events)[events[i].stubId] == events[i].view
    decreases |events|
  {
    if events != [] {
      var n := |events| - 1;
      var p := events[..n];
      assert forall i :: 0 <= i < |p| ==> p[i] == events[i];
      ReplayLookup(c, p);
      var e := events[n];
      forall id | id in Replay(c, events)
        ensures id in c || exists i :: 0 <= i < |events| && events[i].Inflated? && events[i].stubId == id
      {
        if id !in Replay(c, p) {
          assert events[n].Inflated? && events[n].stubId == id;
        }
      }
      forall id | id in c || exists i :: 0 <= i < |events| && events[i].Inflated? && events[i].stubId == id
        ensures id in Replay(c, events)
      {
        if id !in c {
          var i :| 0 <= i < |events| && events[i].Inflated? && events[i].stubId == id;
          if i < n {
            assert p[i].Inflated? && p[i].stubId == id;
          }
        }
      }
      forall i | 0 <= i < |events| && events[i].Inflated?
        ensures Replay(c, events)[events[i].stubId] == events[i].view
      {
        if i < n {
          assert p[i] == events[i];
          if e.Inflated? {
            assert e.stubId != events[i].stubId;
          }
        }
      }
    }
  }

  /** The cache agrees with the history `log` starting from an empty cache, and no id was inflated twice. */
  ghost predicate Recorded<T>(log: seq<Event<T>>, cache: map<int, View>)
  {
    cache == Replay(map[], log) && InflatesOnce(log)
  }

  // ------------------------------------------------------------ initSectionStub

  /**
   * One section's stubs look up only ids not yet cached, inflate each id at
   * most once, never change an existing entry, and record no section call;
   * the walk finds everything it looks up unless it returned early.
   */
  lemma {:induction false} InitStubsFresh<T>(cache: map<int, View>, ids: seq<int>, resolve: int -> Option<View>)
    ensures var r := InitStubs<T>(cache, ids, resolve);
      && (forall e :: e in r.events ==> !e.Hooked? && e.stubId !in cache)
      && InflatesOnce(r.events)
      && (forall id :: id in cache ==> id in r.cache && r.cache[id] == cache[id])
      && (!r.aborted ==> forall e :: e in r.events ==> e.Inflated?)
    decreases |ids|
  {
    if ids != [] && ids[0] in cache {
      InitStubsFresh<T>(cache, ids[1..], resolve);
    } else if ids != [] && resolve(ids[0]).Some? {
      var v := resolve(ids[0]).value;
      var c := cache[ids[0] := v];
      InitStubsFresh<T>(c, ids[1..], resolve);
      var rest := InitStubs<T>(c, ids[1..], resolve);
      var events := [Inflated(ids[0], v)] + rest.events;
      assert InitStubs<T>(cache, ids, resolve).events == events;
      assert forall j :: 1 <= j < |events| ==> events[j] == rest.events[j - 1];
      assert forall j :: 1 <= j < |events| ==> events[j] in rest.events;
    }
  }

  /** One round of the walk over `ids` from index `i`, for the three cases of the `i`-th id. */
  lemma InitStubsStep<T>(cache: map<int, View>, ids: seq<int>, i: nat, resolve: int -> Option<View>)
    requires i < |ids|
    ensures var id := ids[i];
      var r := InitStubs<T>(cache, ids[i..], resolve);
      && (id in cache ==> r == InitStubs<T>(cache, ids[i + 1..], resolve))
      && (id !in cache && resolve(id).None? ==> r == StubRun(cache, [Missing(id)], true))
      && (id !in cache && resolve(id).Some? ==>
            var rest := InitStubs<T>(cache[id := resolve(id).value], ids[i + 1..], resolve);
            r == StubRun(rest.cache, [Inflated(id, resolve(id).value)] + rest.events, rest.aborted))
  {
    assert ids[i..][0] == ids[i] && ids[i..][1..] == ids[i + 1..];
  }

  /** The cache after one section's stubs is the cache replayed through the events recorded for them. */
  lemma {:induction false} InitStubsReplay<T>(cache: map<int, View>, ids: seq<int>, resolve: int -> Option<View>)
    ensures InitStubs<T>(cache, ids, resolve).cache == Replay(cache, InitStubs<T>(cache, ids, resolve).events)
    decreases |ids|
  {
    if ids != [] && ids[0] in cache {
      InitStubsReplay<T>(cache, ids[1..], resolve);
    } else if ids != [] && resolve(ids[0]).Some? {
      var v := resolve(ids[0]).value;
      var c := cache[ids[0] := v];
      InitStubsReplay<T>(c, ids[1..], resolve);
      var first: seq<Event<T>> := [Inflated(ids[0], v)];
      var rest := InitStubs<T>(c, ids[1..], resolve).events;
      ReplayAppend(cache, first, rest);
      assert first[..0] == [];
      assert Replay(cache, first) == c;
    } else if ids != [] {
      var first: seq<Event<T>> := [Missing(ids[0])];
      assert first[..0] == [];
    }
  }

  lemma {:induction false} FirstFailureCached(cache: map<int, View>, ids: seq<int>, resolve: int -> Option<View>, x: int, v: View)
    requires resolve(x).Some?
    ensures FirstFailure(cache[x := v], ids, resolve) == FirstFailure(cache, ids, resolve)
    decreases |ids|
  {
    if ids != [] {
      FirstFailureCached(cache, ids[1..], resolve, x, v);
    }
  }

  /** The walk returns early exactly when some id is neither cached nor found, and then records that failure last. */
  lemma {:induction false} InitStubsAborts<T>(cache: map<int, View>, ids: seq<int>, resolve: int -> Option<View>)
    ensures var r := InitStubs<T>(cache, ids, resolve);
      var stop := FirstFailure(cache, ids, resolve);
      && (r.aborted <==> stop < |ids|)
      && (r.aborted ==> r.events != [] && r.events[|r.events| - 1] == Missing(ids[stop]))
    decreases |ids|
  {
    if ids != [] && ids[0] in cache {
      InitStubsAborts<T>(cache, ids[1..], resolve);
    } else if ids != [] && resolve(ids[0]).Some? {
      var v := resolve(ids[0]).value;
      InitStubsAborts<T>(cache[ids[0] := v], ids[1..], resolve);
      FirstFailureCached(cache, ids[1..], resolve, ids[0], v);
    }
  }

  /**
   * The walk against an independent description of its cache: the ids
   * before the first failing one are cached, nothing else is added, and
   * what is added is what the oracle produced.
   */
  lemma InitStubsCaches<T>(cache: map<int, View>, ids: seq<int>, resolve: int -> Option<View>)
    ensures var r := InitStubs<T>(cache, ids, resolve);
      var stop := FirstFailure(cache, ids, resolve);
      && (forall k :: 0 <= k < stop ==> ids[k] in r.cache)
      && (forall id :: id in r.cache ==> id in cache || id in ids[..stop])
      && (forall id :: id in r.cache && id !in cache ==> resolve(id) == Some(r.cache[id]))
  {
    InitStubsCachesPrefix<T>(cache, ids, resolve);
    InitStubsAddsOnlyPrefix<T>(cache, ids, resolve);
    InitStubsAddsFound<T>(cache, ids, resolve);
  }

  /** Every id before the first failing one ends up cached. */
  lemma {:induction false} InitStubsCachesPrefix<T>(cache: map<int, View>, ids: seq<int>, resolve: int -> Option<View>)
    ensures var r := InitStubs<T>(cache, ids, resolve);
      forall k :: 0 <= k < FirstFailure(cache, ids, resolve) ==> ids[k] in r.cache
    decreases |ids|
  {
    if ids != [] && (ids[0] in cache || resolve(ids[0]).Some?) {
      var c := if ids[0] in cache then cache else cache[ids[0] := resolve(ids[0]).value];
      var tail := ids[1..];
      InitStubsCachesPrefix<T>(c, tail, resolve);
      InitStubsFresh<T>(c, tail, resolve);
      if ids[0] !in cache {
        FirstFailureCached(cache, tail, resolve, ids[0], resolve(ids[0]).value);
      }
      var r := InitStubs<T>(c, tail, resolve);
      assert InitStubs<T>(cache, ids, resolve).cache == r.cache;
      forall k | 0 <= k < FirstFailure(cache, ids, resolve)
        ensures ids[k] in r.cache
      {
        if k > 0 {
          assert ids[k] == tail[k - 1];
        }
      }
    }
  }

  /** The walk caches no id other than those before the first failing one. */
  lemma {:induction false} InitStubsAddsOnlyPrefix<T>(cache: map<int, View>, ids: seq<int>, resolve: int -> Option<View>)
    ensures var r := InitStubs<T>(cache, ids, resolve);
      forall id :: id in r.cache ==> id in cache || id in ids[..FirstFailure(cache, ids, resolve)]
    decreases |ids|
  {
    if ids != [] && (ids[0] in cache || resolve(ids[0]).Some?) {
      var c := if ids[0] in cache then cache else cache[ids[0] := resolve(ids[0]).value];
      var tail := ids[1..];
      InitStubsAddsOnlyPrefix<T>(c, tail, resolve);
      if ids[0] !in cache {
        FirstFailureCached(cache, tail, resolve, ids[0], resolve(ids[0]).value);
      }
      var stop := FirstFailure(cache, tail, resolve);
      assert InitStubs<T>(cache, ids, resolve).cache == InitStubs<T>(c, tail, resolve).cache;
      assert FirstFailure(cache, ids, resolve) == stop + 1;
      assert ids[..stop + 1] == [ids[0]] + tail[..stop];
    }
  }

  /** Each entry the walk adds is the view the oracle produced for its id. */
  lemma {:induction false} InitStubsAddsFound<T>(cache: map<int, View>, ids: seq<int>, resolve: int -> Option<View>)
    ensures var r := InitStubs<T>(cache, ids, resolve);
      forall id :: id in r.cache && id !in cache ==> resolve(id) == Some(r.cache[id])
    decreases |ids|
  {
    if ids != [] && ids[0] in cache {
      InitStubsAddsFound<T>(cache, ids[1..], resolve);
    } else if ids != [] && resolve(ids[0]).Some? {
      var c := cache[ids[0] := resolve(ids[0]).value];
      InitStubsAddsFound<T>(c, ids[1..], resolve);
      InitStubsFresh<T>(c, ids[1..], resolve);
      assert InitStubs<T>(cache, ids, resolve).cache == InitStubs<T>(c, ids[1..], resolve).cache;
    }
  }

  /** The walk looks up no id after the first failing one. */
  lemma {:induction false} InitStubsStops<T>(cache: map<int, View>, ids: seq<int>, resolve: int -> Option<View>)
    ensures var r := InitStubs<T>(cache, ids, resolve);
      var stop := FirstFailure(cache, ids, resolve);
      forall e :: e in r.events ==> !e.Hooked? && e.stubId in ids[..if stop < |ids| then stop + 1 else stop]
    decreases |ids|
  {
    if ids != [] && (ids[0] in cache || resolve(ids[0]).Some?) {
      var c := if ids[0] in cache then cache else cache[ids[0] := resolve(ids[0]).value];
      var tail := ids[1..];
      InitStubsStops<T>(c, tail, resolve);
      if ids[0] !in cache {
        FirstFailureCached(cache, tail, resolve, ids[0], resolve(ids[0]).value);
      }
      var stop := FirstFailure(cache, tail, resolve);
      var lim := if stop < |tail| then stop + 1 else stop;
      var rest := InitStubs<T>(c, tail, resolve).events;
      var events := InitStubs<T>(cache, ids, resolve).events;
      assert ids[..lim + 1] == [ids[0]] + tail[..lim];
      assert FirstFailure(cache, ids, resolve) == stop + 1;
      forall e | e in events
        ensures !e.Hooked? && e.stubId in ids[..lim + 1]
      {
        if e !in rest {
          assert ids[0] !in cache && e == Inflated(ids[0], resolve(ids[0]).value);
        }
      }
    } else if ids != [] {
      assert ids[..1] == [ids[0]];
    }
  }

  /** `initSectionStub` keeps the cache in agreement with the history. */
  lemma RecordSectionStubs<T>(log: seq<Event<T>>, cache: map<int, View>, stubIds: Option<seq<int>>, resolve: int -> Option<View>)
    requires Recorded(log, cache)
    ensures var r := SectionStubs<T>(cache, stubIds, resolve);
      Recorded(log + r.events, r.cache)
  {
    if stubIds.None? || stubIds.value == [] {
      assert log + [] == log;
    } else {
      var r := InitStubs<T>(cache, stubIds.value, resolve);
      InitStubsFresh<T>(cache, stubIds.value, resolve);
      InitStubsReplay<T>(cache, stubIds.value, resolve);
      ReplayAppend(map[], log, r.events);
      ReplayKeys(map[], log);
      var all := log + r.events;
      forall i, j | 0 <= i < j < |all| && all[i].Inflated? && all[j].Inflated?
        ensures all[i].stubId != all[j].stubId
      {
        if j >= |log| {
          assert all[j] == r.events[j - |log|];
          assert all[j] in r.events;
          if i >= |log| {
            assert all[i] == r.events[i - |log|];
          } else {
            assert all[i] == log[i];
          }
        }
      }
    }
  }

  /** Calls to sections keep the cache in agreement with the history. */
  lemma RecordCalls<T>(log: seq<Event<T>>, cache: map<int, View>, calls: seq<Event<T>>)
    requires Recorded(log, cache)
    requires forall e :: e in calls ==> e.Hooked?
    ensures Recorded(log + calls, cache)
  {
    ReplayAppend(map[], log, calls);
    ReplayCalls(cache, calls);
    var all := log + calls;
    assert forall j :: |log| <= j < |all| ==> all[j] == calls[j - |log|];
    assert forall j :: |log| <= j < |all| ==> all[j] in calls;
  }

  /** Stub initialisation is a no-op when the section has no stub ids, and otherwise is the walk over them. */
  lemma SectionStubsFacts<T>(cache: map<int, View>, stubIds: Option<seq<int>>, resolve: int -> Option<View>)
    ensures var r := SectionStubs<T>(cache, stubIds, resolve);
      && (stubIds.None? || stubIds.value == [] ==> r.cache == cache && r.events == [] && !r.aborted)
      && (forall e :: e in r.events ==> !e.Hooked? && e.stubId !in cache)
      && (forall id :: id in cache ==> id in r.cache && r.cache[id] == cache[id])
      && (!r.aborted ==> forall e :: e in r.events ==> e.Inflated?)
      && (stubIds.Some? && !r.aborted ==> forall k :: 0 <= k < |stubIds.value| ==> stubIds.value[k] in r.cache)
  {
    if stubIds.Some? && stubIds.value != [] {
      InitStubsFresh<T>(cache, stubIds.value, resolve);
      InitStubsAborts<T>(cache, stubIds.value, resolve);
      InitStubsCaches<T>(cache, stubIds.value, resolve);
    }
  }

  // ------------------------------------------------------------------ initView

  lemma {:induction false} CallsAppend<T>(a: seq<Event<T>>, b: seq<Event<T>>)
    ensures Calls(a + b) == Calls(a) + Calls(b)
    decreases |b|
  {
    if b == [] {
      assert a + b == a;
    } else {
      CallsAppend(a, b[..|b| - 1]);
      assert (a + b)[..|a + b| - 1] == a + b[..|b| - 1];
    }
  }

  lemma {:induction false} CallsOfStubs<T>(events: seq<Event<T>>)
    requires forall e :: e in events ==> !e.Hooked?
    ensures Calls(events) == []
    decreases |events|
  {
    if events != [] {
      var p := events[..|events| - 1];
      assert forall e :: e in p ==> e in events;
      CallsOfStubs(p);
    }
  }

  /** Stub initialisation calls no section. */
  lemma SectionStubsCallNothing<T>(cache: map<int, View>, stubIds: Option<seq<int>>, resolve: int -> Option<View>)
    ensures Calls(SectionStubs<T>(cache, stubIds, resolve).events) == []
  {
    var r := SectionStubs<T>(cache, stubIds, resolve);
    if stubIds.Some? && stubIds.value != [] {
      InitStubsFresh<T>(cache, stubIds.value, resolve);
    }
    CallsOfStubs(r.events);
  }

  /** Every section gets `onInitView(root)` exactly once, in list order, whatever happens to its stubs. */
  lemma {:induction false} InitViewCalls<T>(cache: map<int, View>, classes: seq<SectionClass>, root: View, resolve: int -> Option<View>)
    ensures Calls(InitViewRun<T>(cache, classes, root, resolve).events) == FanOut(InitView(root), |classes|)
    decreases |classes|
  {
    if classes != [] {
      var n := |classes| - 1;
      InitViewCalls<T>(cache, classes[..n], root, resolve);
      var p := InitViewRun<T>(cache, classes[..n], root, resolve);
      var r := SectionStubs<T>(p.cache, classes[n].stubIds, resolve);
      SectionStubsCallNothing<T>(p.cache, classes[n].stubIds, resolve);
      var hook: seq<Event<T>> := [Hooked(InitView(root), n)];
      assert InitViewRun<T>(cache, classes, root, resolve).events == p.events + r.events + hook;
      var stubbed := p.events + r.events;
      CallsAppend(p.events, r.events);
      assert Calls(stubbed) == FanOut(InitView(root), n) + [];
      assert Calls(stubbed) == FanOut(InitView(root), n);
      assert (stubbed + hook)[..|stubbed|] == stubbed;
      assert Calls(stubbed + hook) == Calls(stubbed) + hook;
    }
  }

  /** Regrouping a history extended three times. */
  lemma AppendThree<T>(log: seq<Event<T>>, a: seq<Event<T>>, b: seq<Event<T>>, c: seq<Event<T>>)
    ensures log + a + b + c == log + (a + b + c)
  {
  }

  /** `InitViewRun` over one more section: that section's stubs, then its `onInitView`. */
  lemma InitViewRunSnoc<T>(cache: map<int, View>, classes: seq<SectionClass>, i: nat, root: View, resolve: int -> Option<View>)
    requires i < |classes|
    ensures var p := InitViewRun<T>(cache, classes[..i], root, resolve);
      var r := SectionStubs<T>(p.cache, classes[i].stubIds, resolve);
      InitViewRun<T>(cache, classes[..i + 1], root, resolve) == ViewRun(r.cache, p.events + r.events + [Hooked(InitView(root), i)])
  {
    assert classes[..i + 1][..i] == classes[..i];
  }

  /** `initView` keeps the cache in agreement with the history. */
  lemma {:induction false} InitViewKeepsRecord<T>(log: seq<Event<T>>, cache: map<int, View>, classes: seq<SectionClass>, root: View, resolve: int -> Option<View>)
    requires Recorded(log, cache)
    ensures var r := InitViewRun<T>(cache, classes, root, resolve);
      Recorded(log + r.events, r.cache)
    decreases |classes|
  {
    if classes == [] {
      assert log + [] == log;
    } else {
      var n := |classes| - 1;
      InitViewKeepsRecord<T>(log, cache, classes[..n], root, resolve);
      var p := InitViewRun<T>(cache, classes[..n], root, resolve);
      var r := SectionStubs<T>(p.cache, classes[n].stubIds, resolve);
      RecordSectionStubs<T>(log + p.events, p.cache, classes[n].stubIds, resolve);
      RecordCalls<T>(log + p.events + r.events, r.cache, [Hooked(InitView(root), n)]);
      assert InitViewRun<T>(cache, classes, root, resolve) == ViewRun(r.cache, p.events + r.events + [Hooked(InitView(root), n)]);
      assert log + p.events + r.events + [Hooked(InitView(root), n)] == log + (p.events + r.events + [Hooked(InitView(root), n)]);
    }
  }

  /** `initView` never looks up an id that was cached before, and never changes an existing entry. */
  lemma {:induction false} InitViewGrowsCache<T>(cache: map<int, View>, classes: seq<SectionClass>, root: View, resolve: int -> Option<View>)
    ensures var r := InitViewRun<T>(cache, classes, root, resolve);
      && (forall e :: e in r.events && !e.Hooked? ==> e.stubId !in cache)
      && (forall id :: id in cache ==> id in r.cache && r.cache[id] == cache[id])
    decreases |classes|
  {
    if classes != [] {
      var n := |classes| - 1;
      InitViewGrowsCache<T>(cache, classes[..n], root, resolve);
      var p := InitViewRun<T>(cache, classes[..n], root, resolve);
      SectionStubsFacts<T>(p.cache, classes[n].stubIds, resolve);
    }
  }

  /** Every stub id of every section is one the oracle can inflate. */
  ghost predicate Resolvable(classes: seq<SectionClass>, resolve: int -> Option<View>)
  {
    forall k, j :: 0 <= k < |classes| && classes[k].stubIds.Some? && 0 <= j < |classes[k].stubIds.value| ==> resolve(classes[k].stubIds.value[j]).Some?
  }

  /** One section whose stubs can all be inflated: nothing is missed, every id is cached, and nothing cached is lost. */
  lemma SectionStubsResolvable<T>(cache: map<int, View>, stubIds: Option<seq<int>>, resolve: int -> Option<View>)
    requires stubIds.Some? ==> forall j :: 0 <= j < |stubIds.value| ==> resolve(stubIds.value[j]).Some?
    ensures var r := SectionStubs<T>(cache, stubIds, resolve);
      && (forall e :: e in r.events ==> e.Inflated?)
      && (stubIds.Some? ==> forall j :: 0 <= j < |stubIds.value| ==> stubIds.value[j] in r.cache)
      && (forall id :: id in cache ==> id in r.cache)
  {
    if stubIds.Some? && stubIds.value != [] {
      var ids := stubIds.value;
      InitStubsFresh<T>(cache, ids, resolve);
      InitStubsAborts<T>(cache, ids, resolve);
      InitStubsCachesPrefix<T>(cache, ids, resolve);
      assert !InitStubs<T>(cache, ids, resolve).aborted;
    }
  }

  /** When every stub can be inflated, no stub is missed and afterwards every stub id of every section is cached. */
  lemma {:induction false} InitViewAllResolvable<T>(cache: map<int, View>, classes: seq<SectionClass>, root: View, resolve: int -> Option<View>)
    requires Resolvable(classes, resolve)
    ensures var r := InitViewRun<T>(cache, classes, root, resolve);
      && (forall e :: e in r.events ==> !e.Missing?)
      && (forall k, j :: 0 <= k < |classes| && classes[k].stubIds.Some? && 0 <= j < |classes[k].stubIds.value| ==> classes[k].stubIds.value[j] in r.cache)
    decreases |classes|
  {
    if classes != [] {
      var n := |classes| - 1;
      var init := classes[..n];
      forall k, j | 0 <= k < |init| && init[k].stubIds.Some? && 0 <= j < |init[k].stubIds.value|
        ensures resolve(init[k].stubIds.value[j]).Some?
      {
        assert init[k] == classes[k];
      }
      InitViewAllResolvable<T>(cache, init, root, resolve);
      var p := InitViewRun<T>(cache, init, root, resolve);
      var s := classes[n].stubIds;
      var sr := SectionStubs<T>(p.cache, s, resolve);
      SectionStubsResolvable<T>(p.cache, s, resolve);
      var r := InitViewRun<T>(cache, classes, root, resolve);
      assert r.cache == sr.cache;
      assert r.events == p.events + sr.events + [Hooked(InitView(root), n)];
      forall k, j | 0 <= k < n && classes[k].stubIds.Some? && 0 <= j < |classes[k].stubIds.value|
        ensures classes[k].stubIds.value[j] in r.cache
      {
        assert init[k] == classes[k];
        var id := classes[k].stubIds.value[j];
        assert id in p.cache;
        assert id in sr.cache;
      }
    }
  }
}
