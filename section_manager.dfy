/**
 * `Section` and `SectionManager` of Section.kt and SectionManager.kt as
 * classes. `sections` is `mSectionList`, `stubCache` is
 * `mSectionViewStubMap`, and `log` is the ghost record of the calls the
 * manager makes on its sections and of the stub lookups it makes on the
 * item view, with sections named by their index in `sections`. Each method
 * is proved to compute the matching function of `SectionSpec`; a
 * `rootView.findViewById(id)` followed by `inflate()` is the oracle
 * `resolve`.
 */
module SectionManagerClass {
  import opened Wrappers
  import opened SectionSpec
  import SectionLemmas

  /**
   * The loop of `initSectionStub` over the stub ids of one section: a
   * cached id is reused, an uncached one is looked up and inflated, and
   * the first id that is neither ends the walk (`return`, not `continue`).
   */
  method WalkStubs<T>(stubCache: map<int, View>, ids: seq<int>, resolve: int -> Option<View>)
    returns (cache: map<int, View>, ghost events: seq<Event<T>>)
    ensures cache == InitStubs<T>(stubCache, ids, resolve).cache
    ensures events == InitStubs<T>(stubCache, ids, resolve).events
  {
    cache := stubCache;
    events := [];
    var i := 0;
    while i < |ids|
      invariant 0 <= i <= |ids|
      invariant var r := InitStubs<T>(cache, ids[i..], resolve);
        StubRun(r.cache, events + r.events, r.aborted) == InitStubs<T>(stubCache, ids, resolve)
    {
      var id := ids[i];
      SectionLemmas.InitStubsStep<T>(cache, ids, i, resolve);
      var sectionView := if id in cache then Some(cache[id]) else None;
      if sectionView.None? {
        var viewStub := resolve(id);
        if viewStub.Some? {
          sectionView := viewStub;
          ghost var r := InitStubs<T>(cache[id := viewStub.value], ids[i + 1..], resolve);
          assert events + ([Inflated(id, viewStub.value)] + r.events) == events + [Inflated(id, viewStub.value)] + r.events;
          events := events + [Inflated(id, viewStub.value)];
        }
      } else {
        assert cache[id := sectionView.value] == cache;
      }
      if sectionView.None? {
        events := events + [Missing(id)];
        return;
      }
      cache := cache[id := sectionView.value];
      i := i + 1;
    }
    assert ids[i..] == [] && events + [] == events;
  }

  /** The fields of a section that the manager sets; `cls` is the class it was instantiated from. */
  class Section<T> {
    const cls: SectionClass
    var host: SectionManager?<T>
    var rootView: Option<View>
    var data: Option<T>
    var position: int

    constructor(cls: SectionClass)
      ensures this.cls == cls && host == null && rootView.None? && data.None? && position == 0
    {
      this.cls := cls;
      host := null;
      rootView := None;
      data := None;
      position := 0;
    }
  }

  class SectionManager<T> {
    var sections: seq<Section<T>>
    var stubCache: map<int, View>
    ghost var log: seq<Event<T>>

    /** Every registered section has this manager as its host. */
    ghost predicate Hosted()
      reads this, sections
    {
      forall k :: 0 <= k < |sections| ==> sections[k].host == this
    }

    /** The class invariant: registered sections are hosted here, and the cache is what the recorded inflations built. */
    ghost predicate Valid()
      reads this, sections
    {
      Hosted() && SectionLemmas.Recorded(log, stubCache)
    }

    /** The classes of the registered sections, in list order. */
    ghost function Classes(): seq<SectionClass>
      reads this`sections
    {
      var ss := sections;
      seq(|ss|, k requires 0 <= k < |ss| => ss[k].cls)
    }

    constructor()
      ensures sections == [] && stubCache == map[] && log == [] && Valid()
    {
      sections := [];
      stubCache := map[];
      log := [];
    }

    /**
     * `registerSections(classes)`: nothing happens for `null`; otherwise each
     * class that instantiates and whose instance is enabled is appended as a
     * new section hosted here, in input order.
     */
    method RegisterSections(classes: Option<seq<SectionClass>>)
      requires Valid()
      modifies this`sections
      ensures classes.None? ==> sections == old(sections)
      ensures classes.Some? ==> |sections| == |old(sections)| + |Admitted(classes.value)|
      ensures sections[..|old(sections)|] == old(sections)
      ensures classes.Some? ==> forall k :: |old(sections)| <= k < |sections| ==>
        sections[k].cls == Admitted(classes.value)[k - |old(sections)|]
      ensures forall k :: |old(sections)| <= k < |sections| ==>
        fresh(sections[k]) && sections[k].rootView.None? && sections[k].data.None? && sections[k].position == 0
      ensures stubCache == old(stubCache) && log == old(log) && Valid()
    {
      if classes.None? {
        return;
      }
      var cs := classes.value;
      var n := |sections|;
      var i := 0;
      while i < |cs|
        invariant 0 <= i <= |cs|
        invariant |sections| == n + |Admitted(cs[..i])|
        invariant sections[..n] == old(sections)
        invariant forall k :: n <= k < |sections| ==> sections[k].cls == Admitted(cs[..i])[k - n]
        invariant forall k :: n <= k < |sections| ==>
          fresh(sections[k]) && sections[k].rootView.None? && sections[k].data.None? && sections[k].position == 0
        invariant Hosted()
      {
        var c := cs[i];
        assert cs[..i + 1][..i] == cs[..i];
        assert Admitted(cs[..i + 1]) == Admitted(cs[..i]) + (if c.instantiable && c.enabled then [c] else []);
        if c.instantiable {
          var section := new Section(c);
          if c.enabled {
            section.host := this;
            sections := sections + [section];
          }
        }
        i := i + 1;
      }
      assert cs[..i] == cs;
    }

    /** `initSectionStub(rootView, section)`: nothing happens when the section has no stub ids. */
    method InitSectionStub(section: Section<T>, resolve: int -> Option<View>)
      requires SectionLemmas.Recorded(log, stubCache)
      modifies this`stubCache, this`log
      ensures var r := SectionStubs<T>(old(stubCache), section.cls.stubIds, resolve);
        stubCache == r.cache && log == old(log) + r.events
      ensures SectionLemmas.Recorded(log, stubCache)
    {
      SectionLemmas.RecordSectionStubs(log, stubCache, section.cls.stubIds, resolve);
      if section.cls.stubIds.None? || section.cls.stubIds.value == [] {
        return;
      }
      var cache, events := WalkStubs<T>(stubCache, section.cls.stubIds.value, resolve);
      stubCache := cache;
      log := log + events;
    }

    /** `initView(root)`: for each section in order, set its root view, initialise its stubs, then `onInitView(root)`. */
    method InitView(root: View, resolve: int -> Option<View>)
      requires Valid()
      modifies this`stubCache, this`log, sections`rootView
      ensures sections == old(sections)
      ensures forall k :: 0 <= k < |sections| ==> sections[k].rootView == Some(root)
      ensures forall k :: 0 <= k < |sections| ==>
        sections[k].host == old(sections[k].host) && sections[k].data == old(sections[k].data) && sections[k].position == old(sections[k].position)
      ensures var r := InitViewRun<T>(old(stubCache), Classes(), root, resolve);
        stubCache == r.cache && log == old(log) + r.events
      ensures Valid()
    {
      ghost var classes := Classes();
      var i := 0;
      while i < |sections|
        invariant 0 <= i <= |sections|
        invariant forall k :: 0 <= k < i ==> sections[k].rootView == Some(root)
        invariant var r := InitViewRun<T>(old(stubCache), classes[..i], root, resolve);
          stubCache == r.cache && log == old(log) + r.events
        invariant SectionLemmas.Recorded(log, stubCache)
      {
        assert classes[i] == sections[i].cls;
        VisitSection(i, sections[i], root, resolve, old(stubCache), old(log), classes);
        i := i + 1;
      }
      assert classes[..i] == classes;
      assert Classes() == classes;
    }

    /**
     * One round of `initView`'s loop: the root view, the stubs, then
     * `onInitView(root)` of the `i`-th section, which extends `InitViewRun`
     * started from `cache0` and `log0` by that section.
     */
    method VisitSection(i: nat, section: Section<T>, root: View, resolve: int -> Option<View>,
                        ghost cache0: map<int, View>, ghost log0: seq<Event<T>>, ghost classes: seq<SectionClass>)
      requires i < |classes| && classes[i] == section.cls
      requires var p := InitViewRun<T>(cache0, classes[..i], root, resolve);
        stubCache == p.cache && log == log0 + p.events
      requires SectionLemmas.Recorded(log, stubCache)
      modifies this`stubCache, this`log, section`rootView
      ensures section.rootView == Some(root)
      ensures var r := InitViewRun<T>(cache0, classes[..i + 1], root, resolve);
        stubCache == r.cache && log == log0 + r.events
      ensures SectionLemmas.Recorded(log, stubCache)
    {
      ghost var p := InitViewRun<T>(cache0, classes[..i], root, resolve);
      SectionLemmas.InitViewRunSnoc<T>(cache0, classes, i, root, resolve);
      section.rootView := Some(root);
      InitSectionStub(section, resolve);
      ghost var r := SectionStubs<T>(p.cache, classes[i].stubIds, resolve);
      ghost var hook: seq<Event<T>> := [Hooked(Hook.InitView(root), i)];
      assert log == log0 + p.events + r.events;
      SectionLemmas.RecordCalls(log, stubCache, hook);
      log := log + hook;
      SectionLemmas.AppendThree(log0, p.events, r.events, hook);
    }

    /** `bindData(data, position, payload)`: each section gets `data` and `position`, then `onBindData`. */
    method BindData(data: T, position: int)
      requires Valid()
      modifies this`log, sections
      ensures forall k :: 0 <= k < |sections| ==> sections[k].data == Some(data) && sections[k].position == position
      ensures forall k :: 0 <= k < |sections| ==> sections[k].host == old(sections[k].host) && sections[k].rootView == old(sections[k].rootView)
      ensures log == old(log) + FanOut(Hook.BindData(data, position), |sections|)
      ensures Valid()
    {
      ghost var calls: seq<Event<T>> := [];
      var i := 0;
      while i < |sections|
        invariant 0 <= i <= |sections|
        invariant forall k :: 0 <= k < i ==> sections[k].data == Some(data) && sections[k].position == position
        invariant forall k :: 0 <= k < |sections| ==> sections[k].host == old(sections[k].host) && sections[k].rootView == old(sections[k].rootView)
        invariant calls == FanOut(Hook.BindData(data, position), i)
        invariant log == old(log)
      {
        var section := sections[i];
        section.data := Some(data);
        section.position := position;
        calls := calls + [Hooked(Hook.BindData(data, position), i)];
        i := i + 1;
      }
      SectionLemmas.RecordCalls(log, stubCache, calls);
      log := log + calls;
    }

    /** The shared loop of the forwarding calls. */
    method CallEach(hook: Hook<T>)
      requires Valid()
      modifies this`log
      ensures log == old(log) + FanOut(hook, |sections|)
      ensures Valid()
    {
      ghost var calls: seq<Event<T>> := [];
      var i := 0;
      while i < |sections|
        invariant 0 <= i <= |sections|
        invariant calls == FanOut(hook, i)
      {
        calls := calls + [Hooked(hook, i)];
        i := i + 1;
      }
      SectionLemmas.RecordCalls(log, stubCache, calls);
      log := log + calls;
    }

    method OnViewRecycled()
      requires Valid()
      modifies this`log
      ensures log == old(log) + FanOut(Recycled, |sections|)
      ensures Valid()
    {
      CallEach(Recycled);
    }

    method OnVisibleChanged(visible: bool)
      requires Valid()
      modifies this`log
      ensures log == old(log) + FanOut(VisibleChanged(visible), |sections|)
      ensures Valid()
    {
      CallEach(VisibleChanged(visible));
    }

    method OnAttachedChanged(attached: bool)
      requires Valid()
      modifies this`log
      ensures log == old(log) + FanOut(AttachedChanged(attached), |sections|)
      ensures Valid()
    {
      CallEach(AttachedChanged(attached));
    }

    method OnDestroy()
      requires Valid()
      modifies this`log
      ensures log == old(log) + FanOut(Destroy, |sections|)
      ensures Valid()
    {
      CallEach(Destroy);
    }

    /**
     * `getStubView(id)`: the view inflated for `id` by this manager; `None`
     * is the `NullPointerException` of `!!`, raised exactly when no stub
     * with that id was ever inflated here.
     */
    function GetStubView(id: int): (r: Option<View>)
      reads this
      requires SectionLemmas.Recorded(log, stubCache)
      ensures r.None? <==> forall i :: 0 <= i < |log| && log[i].Inflated? ==> log[i].stubId != id
      ensures r.Some? ==> exists i :: 0 <= i < |log| && log[i] == Inflated(id, r.value)
    {
      SectionLemmas.ReplayLookup(map[], log);
      if id in stubCache then Some(stubCache[id]) else None
    }
  }
}
