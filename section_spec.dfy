/**
 * The section registry and stub cache of SectionManager.kt, as pure
 * functions.
 *
 * A `SectionManager` owns an ordered list of sections built from section
 * classes, and a cache from a `ViewStub` layout id to the view its
 * inflation produced. The calls the manager makes on its sections and on
 * the item view are recorded as a sequence of `Event`s; a section is named
 * in an event by its index in the manager's list, which never reorders.
 * `rootView.findViewById(id)` followed by `inflate()` is an oracle
 * `resolve` from a stub id to the inflated view, or `None` when the root
 * view holds no stub with that id.
 */
module SectionSpec {
  import opened Wrappers

  /** A view, as an opaque identity. */
  datatype View = View(id: nat)

  /**
   * A `Class<out Section<T>>`: whether `newInstance()` succeeds (it fails
   * with `InstantiationException` or `IllegalAccessException` otherwise),
   * what `isSectionEnabled` answers on the instance, and its
   * `viewStubLayoutId` array (`None` is `null`).
   */
  datatype SectionClass = SectionClass(name: string, instantiable: bool, enabled: bool, stubIds: Option<seq<int>>)

  /** A section class as Section.kt defines it: `isSectionEnabled` is final there and answers true. */
  function DefaultSectionClass(name: string, stubIds: Option<seq<int>>): SectionClass
  {
    SectionClass(name, true, true, stubIds)
  }

  /** The calls the manager forwards to a section. `payload` of `onBindData` is not modelled. */
  datatype Hook<T> =
    | InitView(root: View)
    | BindData(data: T, position: int)
    | Recycled
    | VisibleChanged(visible: bool)
    | AttachedChanged(attached: bool)
    | Destroy

  /**
   * `Hooked(hook, k)`: `hook` called on the `k`-th section. `Inflated(id, v)`:
   * the stub `id` was found and inflated into `v`. `Missing(id)`: no stub
   * `id` was found.
   */
  datatype Event<T> =
    | Hooked(hook: Hook<T>, section: nat)
    | Inflated(stubId: int, view: View)
    | Missing(stubId: int)

  // ----------------------------------------------------------- registerSections

  /** The classes `registerSections` turns into registered sections, in input order. */
  function Admitted(classes: seq<SectionClass>): seq<SectionClass>
    decreases |classes|
  {
    if classes == [] then []
    else
      var c := classes[|classes| - 1];
      Admitted(classes[..|classes| - 1]) + (if c.instantiable && c.enabled then [c] else [])
  }

  // --------------------------------------------------------------- fan-outs

  /** `hook` called on each of the first `n` sections, in list order. */
  function FanOut<T>(hook: Hook<T>, n: nat): (r: seq<Event<T>>)
    ensures |r| == n
    ensures forall k :: 0 <= k < n ==> r[k] == Hooked(hook, k)
  {
    if n == 0 then [] else FanOut(hook, n - 1) + [Hooked(hook, n - 1)]
  }

  // ------------------------------------------------------------ stub cache

  /** The cache after the stubs of one section, the events on the way, and whether the walk returned early. */
  datatype StubRun<T> = StubRun(cache: map<int, View>, events: seq<Event<T>>, aborted: bool)

  /**
   * The loop of `initSectionStub`: a cached id is neither looked up nor
   * inflated again; a found stub is inflated and cached; the first id that
   * is neither cached nor found ends the walk, leaving the rest of the ids
   * untouched.
   */
  function InitStubs<T>(cache: map<int, View>, ids: seq<int>, resolve: int -> Option<View>): StubRun<T>
    decreases |ids|
  {
    if ids == [] then StubRun(cache, [], false)
    else if ids[0] in cache then InitStubs(cache, ids[1..], resolve)
    else match resolve(ids[0])
      case None => StubRun(cache, [Missing(ids[0])], true)
      case Some(v) =>
        var r := InitStubs(cache[ids[0] := v], ids[1..], resolve);
        StubRun(r.cache, [Inflated(ids[0], v)] + r.events, r.aborted)
  }

  /** `initSectionStub`: nothing happens when the section's stub-id array is null or empty. */
  function SectionStubs<T>(cache: map<int, View>, stubIds: Option<seq<int>>, resolve: int -> Option<View>): StubRun<T>
  {
    if stubIds.None? || stubIds.value == [] then StubRun(cache, [], false)
    else InitStubs(cache, stubIds.value, resolve)
  }

  /** The cache after `initView` and the events it causes. */
  datatype ViewRun<T> = ViewRun(cache: map<int, View>, events: seq<Event<T>>)

  /**
   * `initView(root)` over sections of the given classes: for each section in
   * list order, its stubs, then `onInitView(root)`, whether or not its stubs
   * were all found.
   */
  function InitViewRun<T>(cache: map<int, View>, classes: seq<SectionClass>, root: View, resolve: int -> Option<View>): ViewRun<T>
    decreases |classes|
  {
    if classes == [] then ViewRun(cache, [])
    else
      var n := |classes| - 1;
      var p := InitViewRun<T>(cache, classes[..n], root, resolve);
      var r := SectionStubs<T>(p.cache, classes[n].stubIds, resolve);
      ViewRun(r.cache, p.events + r.events + [Hooked(InitView(root), n)])
  }

  // ------------------------------------------------- the cache and its history

  /** The cache that results from `cache` and the inflations recorded in `events`. */
  function Replay<T>(cache: map<int, View>, events: seq<Event<T>>): map<int, View>
    decreases |events|
  {
    if events == [] then cache
    else
      var e := events[|events| - 1];
      var c := Replay(cache, events[..|events| - 1]);
      if e.Inflated? then c[e.stubId := e.view] else c
  }

  /** No stub id is inflated twice in `events`. */
  ghost predicate InflatesOnce<T>(events: seq<Event<T>>)
  {
    forall i, j :: 0 <= i < j < |events| && events[i].Inflated? && events[j].Inflated? ==> events[i].stubId != events[j].stubId
  }

  /** The calls the sections receive, with the stub events left out. */
  function Calls<T>(events: seq<Event<T>>): seq<Event<T>>
    decreases |events|
  {
    if events == [] then []
    else Calls(events[..|events| - 1]) + (if events[|events| - 1].Hooked? then [events[|events| - 1]] else [])
  }

  /** The index of the first id that is neither cached nor found: `InitStubs` stops there. */
  function FirstFailure(cache: map<int, View>, ids: seq<int>, resolve: int -> Option<View>): (i: nat)
    ensures i <= |ids|
    ensures forall j :: 0 <= j < i ==> ids[j] in cache || resolve(ids[j]).Some?
    ensures i < |ids| ==> ids[i] !in cache && resolve(ids[i]).None?
    decreases |ids|
  {
    if ids == [] then 0
    else if ids[0] !in cache && resolve(ids[0]).None? then 0
    else 1 + FirstFailure(cache, ids[1..], resolve)
  }
}
