# OnlyMine parts, sections and view-holder visibility, modelled in Dafny

This project models three pieces of the OnlyMine Android UI toolkit and proves properties of them:

- **`ViewHolderVisibleAwareNotifier`** (Aware.kt) does two things for the view holders of a RecyclerView:
  - it tells each holder when it is attached, visible or destroyed;
  - it picks one of four notification modes when it is installed: NONE, ON_PAGE_SELECT, ON_SCROLL_AREA_VISIBLE or ON_ATTACH_WINDOW.
- **`PartManager`** (PartManager.kt) is a registry of screen "parts", keyed by class name. It forwards back presses, data requests, lifecycle calls and view-model requests to the parts.
- **`SectionManager`** (SectionManager.kt) owns the ordered sections of one list item. It forwards binding and visibility calls to them, and keeps a per-manager cache from `ViewStub` layout id to inflated view.

## How each core is modelled

Each core has two layers:

- A pure specification module:
  - `AwareSpec` is a state machine.
  - `PartSpec` computes over the registry sequence.
  - `SectionSpec` computes over the section list and the stub cache.
- A class that changes state the way the Kotlin code does. Its methods are proved to compute the specification functions:
  - `AwareNotifier.ViewHolderVisibleAwareNotifier`
  - `PartManagerClass.PartManager`
  - `SectionManagerClass.SectionManager`, with its `Section`

The lemma modules `AwareLemmas`, `PartLemmas` and `SectionLemmas` prove the properties.

Every call the code makes into other objects is recorded in a ghost log, in call order:

- callbacks into view holders;
- hooks on parts;
- hooks on sections;
- stub lookups.

A `WeakReference` is a `Ref(token, target)` with a fresh token per allocation. `WeakReference` compares by identity, so a fresh token models `remove(WeakReference(holder))` correctly: that call removes nothing.

The Android framework's answers are passed in as parameters:

- whether a weak referent is still alive, and a holder's adapter position (`Env`);
- the layout manager and its visible span (`Layout`);
- `findViewHolderForAdapterPosition` (the `found` holder);
- `findViewById` followed by `inflate` (the `resolve` oracle).

Posted `Runnable`s are pending flags or queues. Each posted block is an explicit `AwareSpec.Event` (`PageSelectionDelivered`, `TriggerTaskRun`) that a caller of `Step`/`Run` chooses when to fire.

### Where the notifier's code differs from its design description

The model follows the code in each case:

- The delivered page-selection block (Aware.kt:85-126) does not check `lifecycleVisible`. A holder adopted there is told visible=true even while the host is paused (`AwareLemmas.PageAttachThenSelect`).
- `onItemRangeChanged(start, count, payload)` forwards to the two-argument `AdapterDataObserver` default, which is empty (Aware.kt:135-139). Data changes never trigger a recompute.
- After destroy, the page and scroll listeners are still registered. `visibleViewHolders` and `currentPagePos` are not cleared (Aware.kt:385-397).
- Detach creates a fresh `WeakReference` and then removes it (Aware.kt:308, 316). It never removes anything, so in ON_SCROLL_AREA_VISIBLE detach never reports visible=false.
- In ON_ATTACH_WINDOW, a holder that is attached, detached and attached again is told visible=true twice on resume.
- Every attach registers the holder again, so `onDestroy` reaches a holder once per registration.
- `enableVisibleAware` is initialised to true and never reassigned. The model takes it as a constructor parameter, so the NONE mode is reachable.

Part.kt's `isPartEnable`, `onBackEvent` and `handleDataRequest` are final, and they answer true, false and null (Part.kt:18, 41-47). The same holds for Section.kt's `isSectionEnabled`, which answers true (Section.kt:32-38). The model treats these answers as data of each part or section class. The lemmas `DefaultParts` and `AdmittedDefault` state what the defaults imply.

## Model

| member | source | states |
|---|---|---|
| AwareSpec.SelectMode | OnlyMyPart/part/src/main/java/com/onlymine/part/Aware.kt:231-242 | The mode is NONE iff visibility awareness is disabled. It is ON_PAGE_SELECT iff enabled and the parent is a ViewPager2. It is ON_SCROLL_AREA_VISIBLE iff enabled, no ViewPager2 parent and a LinearLayoutManager. Otherwise it is ON_ATTACH_WINDOW. |
| AwareSpec.RemoveRef | OnlyMyPart/part/src/main/java/com/onlymine/part/Aware.kt:308 | `LinkedHashSet.remove` keeps exactly the other references. Removing a reference that is not present changes nothing. |
| AwareLemmas.AttachKeepsWf | OnlyMyPart/part/src/main/java/com/onlymine/part/Aware.kt:263-301 | Attach keeps the notifier's invariant: references are distinct and allocated, and the current reference is allocated. |
| AwareLemmas.DetachKeepsWf | OnlyMyPart/part/src/main/java/com/onlymine/part/Aware.kt:304-327 | Detach keeps the invariant. |
| AwareLemmas.RecomputeKeepsWf | OnlyMyPart/part/src/main/java/com/onlymine/part/Aware.kt:167-199 | A recompute keeps the invariant. |
| AwareLemmas.DeliverKeepsWf | OnlyMyPart/part/src/main/java/com/onlymine/part/Aware.kt:85-126 | A delivered page selection keeps the invariant. |
| AwareLemmas.LifecycleKeepsWf | OnlyMyPart/part/src/main/java/com/onlymine/part/Aware.kt:399-412 | Lifecycle events keep the invariant. |
| AwareLemmas.StepKeepsWf | OnlyMyPart/part/src/main/java/com/onlymine/part/Aware.kt:79-412 | Every handler keeps the invariant. |
| AwareLemmas.RunKeepsWf | OnlyMyPart/part/src/main/java/com/onlymine/part/Aware.kt:63-74 | Every state reachable by any sequence of events satisfies the invariant. |
| AwareLemmas.ModeFixedAfterInstall | OnlyMyPart/part/src/main/java/com/onlymine/part/Aware.kt:231-242 | Without an install event, no sequence of events changes the mode. |
| AwareLemmas.AttachAlwaysRegisters | OnlyMyPart/part/src/main/java/com/onlymine/part/Aware.kt:267-271 | Attach appends two fresh references, one to the registered set and one to the attached set, whatever the mode. The holder's registration count grows by one. A holder that is not `VisibleAware`, or the NONE mode, gets no callback and no other field changes. |
| AwareLemmas.DetachRemovesNothing | OnlyMyPart/part/src/main/java/com/onlymine/part/Aware.kt:308-311 | Detach leaves the attached set, the mode and the current holder unchanged. Without interest it makes no call. |
| AwareLemmas.AttachWindowCallbacks | OnlyMyPart/part/src/main/java/com/onlymine/part/Aware.kt:272-282 | In ON_ATTACH_WINDOW, attach gives exactly the new state and the calls attached=true, then visible=true iff the host is visible. Detach calls attached=false, then visible=false. |
| AwareLemmas.ScrollAttachSchedules | OnlyMyPart/part/src/main/java/com/onlymine/part/Aware.kt:296-300 | In ON_SCROLL_AREA_VISIBLE, attach of a `VisibleAware` holder calls only attached=true and leaves a recompute pending. The visible set and the current holder are untouched. |
| AwareLemmas.ScrollDetachNeverHides | OnlyMyPart/part/src/main/java/com/onlymine/part/Aware.kt:315-325 | In ON_SCROLL_AREA_VISIBLE, detach calls only attached=false and leaves the visible and attached sets as they were. |
| AwareLemmas.PageAttachAdoption | OnlyMyPart/part/src/main/java/com/onlymine/part/Aware.kt:283-295 | Attach changes the current holder iff the mode is ON_PAGE_SELECT, the holder is `VisibleAware`, nothing is current and its position is the selected page. Then it becomes current and is told visible only if the host is visible. |
| AwareLemmas.NoAdoptionBeforeFirstSelection | OnlyMyPart/part/src/main/java/com/onlymine/part/Aware.kt:71 | Until a page selection is delivered, the page position stays `Int.MIN_VALUE`. No holder attached at another position becomes current. |
| AwareLemmas.PageSelectionsInOrder | OnlyMyPart/part/src/main/java/com/onlymine/part/Aware.kt:80-89 | Page selections are delivered first in, first out. After selecting p1 then p2, the first posted block sets the page position to p1 and leaves p2 queued; the second sets it to p2 and empties the queue. |
| AwareLemmas.DeliverTakesHead | OnlyMyPart/part/src/main/java/com/onlymine/part/Aware.kt:85-89 | Whatever holder is found, the posted block takes the oldest queued position as the page position. |
| AwareLemmas.DeliverPageSelectedCases | OnlyMyPart/part/src/main/java/com/onlymine/part/Aware.kt:89-125 | The delivered block consumes the oldest queued position and sets the page position to it. A previous `VisibleAware` current holder that differs from the found one is told visible=false, and a visible=false is sent only then. A different found holder becomes current and is told visible=true last. A re-found holder changes nothing. No found holder clears the current one. The reference sets are unchanged. |
| AwareLemmas.PageAttachThenSelect | OnlyMyPart/part/src/main/java/com/onlymine/part/Aware.kt:85-126 | Attach at page p, then select p, then deliver: the holder becomes current and hears attached=true, visible=true, even while the host is paused. |
| AwareLemmas.PageSelectThenAttach | OnlyMyPart/part/src/main/java/com/onlymine/part/Aware.kt:283-295 | Select p, deliver with no holder found, then attach at p: the holder becomes current and hears attached=true, then visible=true only if the host is visible. |
| AwareLemmas.PageSelectedStep | OnlyMyPart/part/src/main/java/com/onlymine/part/Aware.kt:80-85 | On an installed host, `onPageSelected` queues the position and calls nothing. |
| AwareLemmas.DeliverAdoptStep | OnlyMyPart/part/src/main/java/com/onlymine/part/Aware.kt:85-117 | With nothing current, the posted block takes the oldest queued position. A `VisibleAware` holder found there becomes current and hears visible=true. |
| AwareLemmas.DeliverMissStep | OnlyMyPart/part/src/main/java/com/onlymine/part/Aware.kt:85-124 | With nothing current and no holder found, the posted block only takes the oldest queued position. |
| AwareLemmas.PageAttachStep | OnlyMyPart/part/src/main/java/com/onlymine/part/Aware.kt:267-283 | In ON_PAGE_SELECT mode, a `VisibleAware` holder that does not match the current page, or arrives while a holder is current, is registered and added to the attached set. It hears only attached=true. |
| AwareLemmas.PageAdoptStep | OnlyMyPart/part/src/main/java/com/onlymine/part/Aware.kt:267-295 | In ON_PAGE_SELECT mode, a `VisibleAware` holder attached at the current page while nothing is current becomes current. It hears attached=true, then visible=true iff the host is visible. |
| AwareLemmas.RecomputeMembership | OnlyMyPart/part/src/main/java/com/onlymine/part/Aware.kt:175-197 | After a recompute, a live attached reference is visible iff its adapter position lies in the visible span. Any other reference keeps its membership. |
| AwareLemmas.RecomputeIsFlipLog | OnlyMyPart/part/src/main/java/com/onlymine/part/Aware.kt:175-197 | The recompute delivers exactly one visibility callback per reference whose membership flips, in order, and no others. This matches an independent definition. |
| AwareLemmas.FlipLogSettled | OnlyMyPart/part/src/main/java/com/onlymine/part/Aware.kt:178-196 | When membership already agrees with the span, nobody is told anything. |
| AwareLemmas.TriggerVisibleChangeSettles | OnlyMyPart/part/src/main/java/com/onlymine/part/Aware.kt:167-199 | A recompute changes only the visible set and makes that set agree with the span. It adds only attached references and delivers exactly the flips. A second recompute over the same layout is silent. |
| AwareLemmas.TriggerNeedsLinearLayout | OnlyMyPart/part/src/main/java/com/onlymine/part/Aware.kt:168 | Without a LinearLayoutManager a recompute does nothing. |
| AwareLemmas.NotifyEachCounts | OnlyMyPart/part/src/main/java/com/onlymine/part/Aware.kt:345-356 | A fan-out over references tells each live `VisibleAware` holder once per reference to it, and nobody else. |
| AwareLemmas.DestroyEachCounts | OnlyMyPart/part/src/main/java/com/onlymine/part/Aware.kt:387-392 | The destroy fan-out calls `onDestroy` once per registration of each live `VisibleAware` holder. It calls nobody in NONE mode. |
| AwareLemmas.OnVisibleChangedNotifies | OnlyMyPart/part/src/main/java/com/onlymine/part/Aware.kt:340-382 | Resume or pause with an unchanged flag does nothing. Otherwise only the flag changes, and the calls depend on the mode: ON_ATTACH_WINDOW tells once per attached reference; ON_SCROLL_AREA_VISIBLE tells once per visible reference; ON_PAGE_SELECT tells only the current `VisibleAware` holder; NONE tells nobody. |
| AwareLemmas.ResumeCounts | OnlyMyPart/part/src/main/java/com/onlymine/part/Aware.kt:400-401 | In ON_ATTACH_WINDOW, resume tells a live `VisibleAware` holder visible=true once per attached reference to it. |
| AwareLemmas.ReattachedHolderHearsResumeTwice | OnlyMyPart/part/src/main/java/com/onlymine/part/Aware.kt:308 | Attach, detach, attach, then resume in ON_ATTACH_WINDOW: the holder is told visible=true twice. |
| AwareLemmas.OnDestroyCases | OnlyMyPart/part/src/main/java/com/onlymine/part/Aware.kt:385-397 | Destroy calls `onDestroy` once per live `VisibleAware` registration (none in NONE mode). It clears the registered set, the attached set and the current holder, keeps the visible set and the page position, and ends with `onAwareDestroyed`. |
| AwareLemmas.SecondDestroyIsSilent | OnlyMyPart/part/src/main/java/com/onlymine/part/Aware.kt:387-396 | A second destroy calls only `onAwareDestroyed`. |
| AwareNotifier.ViewHolderVisibleAwareNotifier.constructor | OnlyMyPart/part/src/main/java/com/onlymine/part/Aware.kt:63-74 | Fields start as in the source: ON_ATTACH_WINDOW, paused, empty sets, page `Int.MIN_VALUE`. |
| AwareNotifier.ViewHolderVisibleAwareNotifier.NewWeakReference | OnlyMyPart/part/src/main/java/com/onlymine/part/Aware.kt:268 | Each `WeakReference(holder)` is a new object with a fresh identity. |
| AwareNotifier.ViewHolderVisibleAwareNotifier.Install | OnlyMyPart/part/src/main/java/com/onlymine/part/Aware.kt:218-243 | The new fields are `AwareSpec.Install` of the old ones, with no callback and the invariant kept. |
| AwareNotifier.ViewHolderVisibleAwareNotifier.RegisterViewHolder | OnlyMyPart/part/src/main/java/com/onlymine/part/Aware.kt:258-260 | Appends a fresh reference to the registered set, and nothing else. |
| AwareNotifier.ViewHolderVisibleAwareNotifier.NotifyViewAttachedToWindow | OnlyMyPart/part/src/main/java/com/onlymine/part/Aware.kt:263-301 | The new fields and the calls made are those of `AwareSpec.NotifyViewAttachedToWindow`, and the invariant is kept. |
| AwareNotifier.ViewHolderVisibleAwareNotifier.AttachedCallbacks | OnlyMyPart/part/src/main/java/com/onlymine/part/Aware.kt:269-300 | The mode-dependent tail of attach computes `AwareSpec.AttachedCallbacks`. |
| AwareNotifier.ViewHolderVisibleAwareNotifier.NotifyViewDetachedFromWindow | OnlyMyPart/part/src/main/java/com/onlymine/part/Aware.kt:304-327 | Computes `AwareSpec.NotifyViewDetachedFromWindow` and keeps the invariant. |
| AwareNotifier.ViewHolderVisibleAwareNotifier.DetachedCallbacks | OnlyMyPart/part/src/main/java/com/onlymine/part/Aware.kt:309-326 | After the probe is removed, the callbacks and the visible-set update are those of `AwareSpec.DetachedCallbacks`. |
| AwareNotifier.ViewHolderVisibleAwareNotifier.OnPageSelected | OnlyMyPart/part/src/main/java/com/onlymine/part/Aware.kt:80-85 | Computes `AwareSpec.OnPageSelected`: the position is queued for the posted block. |
| AwareNotifier.ViewHolderVisibleAwareNotifier.DeliverPageSelected | OnlyMyPart/part/src/main/java/com/onlymine/part/Aware.kt:85-126 | The posted block computes `AwareSpec.DeliverPageSelected` and keeps the invariant. |
| AwareNotifier.ViewHolderVisibleAwareNotifier.HidePreviousHolder | OnlyMyPart/part/src/main/java/com/onlymine/part/Aware.kt:93-103 | Step 1 of the posted block: the calls are exactly `AwareSpec.HidePrevious`, and no other field changes. |
| AwareNotifier.ViewHolderVisibleAwareNotifier.TakePageSelection | OnlyMyPart/part/src/main/java/com/onlymine/part/Aware.kt:89 | Consumes the oldest queued position as `currentPagePos`. |
| AwareNotifier.ViewHolderVisibleAwareNotifier.AdoptSelected | OnlyMyPart/part/src/main/java/com/onlymine/part/Aware.kt:93-125 | Computes `AwareSpec.AdoptSelected`: hide the previous holder, adopt or clear the found one. |
| AwareNotifier.ViewHolderVisibleAwareNotifier.TriggerVisibleChange | OnlyMyPart/part/src/main/java/com/onlymine/part/Aware.kt:167-199 | The loop over the attached set computes `AwareSpec.TriggerVisibleChange` and keeps the invariant. |
| AwareNotifier.RecomputeAttached | OnlyMyPart/part/src/main/java/com/onlymine/part/Aware.kt:175-197 | The `forEach` over the attached references yields the visible set and callbacks of `AwareSpec.RecomputeEach`. |
| AwareNotifier.ViewHolderVisibleAwareNotifier.OnScrollStateChanged | OnlyMyPart/part/src/main/java/com/onlymine/part/Aware.kt:154-159 | A scroll-state change is a recompute. |
| AwareNotifier.ViewHolderVisibleAwareNotifier.RunTriggerTask | OnlyMyPart/part/src/main/java/com/onlymine/part/Aware.kt:161-165 | The posted task recomputes iff the host is still reachable. |
| AwareNotifier.ViewHolderVisibleAwareNotifier.NotifyEach | OnlyMyPart/part/src/main/java/com/onlymine/part/Aware.kt:345-356 | The loop appends exactly `AwareSpec.NotifyEach` to the calls. |
| AwareNotifier.ViewHolderVisibleAwareNotifier.OnVisibleChanged | OnlyMyPart/part/src/main/java/com/onlymine/part/Aware.kt:340-382 | Computes `AwareSpec.OnVisibleChanged`. |
| AwareNotifier.ViewHolderVisibleAwareNotifier.OnDestroy | OnlyMyPart/part/src/main/java/com/onlymine/part/Aware.kt:385-397 | The loop computes `AwareSpec.OnDestroy`. |
| AwareNotifier.ViewHolderVisibleAwareNotifier.OnStateChanged | OnlyMyPart/part/src/main/java/com/onlymine/part/Aware.kt:399-412 | ON_RESUME, ON_PAUSE and ON_DESTROY dispatch as in `AwareSpec.OnStateChanged`. Other events do nothing. |
| PartSpec.FirstBackHandler | OnlyMyPart/part/src/main/java/com/onlymine/part/PartManager.kt:22-26 | The index at which `onBackEvent`'s loop stops: no earlier part handles the event, and the part there does. |
| PartSpec.FirstResponder | OnlyMyPart/part/src/main/java/com/onlymine/part/PartManager.kt:62-67 | The index of the first part with a non-null answer. |
| PartLemmas.FanOutCalls | OnlyMyPart/part/src/main/java/com/onlymine/part/PartManager.kt:82-89 | A lifecycle fan-out makes one call per part, the i-th to the i-th part. |
| PartLemmas.FanOutOncePerPart | OnlyMyPart/part/src/main/java/com/onlymine/part/PartManager.kt:82-116 | Over a registry, start, resume, pause, stop, destroy and save-state each reach every registered part exactly once, and nothing else. |
| PartLemmas.EnabledMembers | OnlyMyPart/part/src/main/java/com/onlymine/part/PartManager.kt:38-40 | The parts `registPart` does not skip are exactly the enabled ones. |
| PartLemmas.RegisterCallsTargets | OnlyMyPart/part/src/main/java/com/onlymine/part/PartManager.kt:37-41 | `setEnvironment(partHost, rootView, this)` is called on exactly the enabled input parts, stored or not. |
| PartLemmas.RegisterExtends | OnlyMyPart/part/src/main/java/com/onlymine/part/PartManager.kt:43-47 | Registration never replaces or removes a part: the old registry is a prefix of the new one. |
| PartLemmas.RegisterKeepsRegistry | OnlyMyPart/part/src/main/java/com/onlymine/part/PartManager.kt:36-49 | Registration keeps one part per class name and only enabled parts. |
| PartLemmas.RegisterNames | OnlyMyPart/part/src/main/java/com/onlymine/part/PartManager.kt:42-47 | The names afterwards are the old names plus the names of the enabled input parts. |
| PartLemmas.RegisterMembers | OnlyMyPart/part/src/main/java/com/onlymine/part/PartManager.kt:36-49 | A part is registered afterwards iff it was registered before, or it is the first enabled input part with a name not yet registered. |
| PartLemmas.RegisterKeepsOrder | OnlyMyPart/part/src/main/java/com/onlymine/part/PartManager.kt:17 | The added parts appear in input order, as the `LinkedHashMap` iterates them. |
| PartLemmas.BackEventStops | OnlyMyPart/part/src/main/java/com/onlymine/part/PartManager.kt:20-27 | `onBackEvent` calls the parts in order up to and including the first that returns true, or all of them if none does. |
| PartLemmas.BackEventSkipsLater | OnlyMyPart/part/src/main/java/com/onlymine/part/PartManager.kt:23-25 | Over a registry, no part after the first handler is consulted. |
| PartLemmas.MessageIsFirstAnswer | OnlyMyPart/part/src/main/java/com/onlymine/part/PartManager.kt:60-69 | The answer is v iff some part answers v and no earlier part answers. It is null iff no part answers. |
| PartLemmas.MessageCallsStop | OnlyMyPart/part/src/main/java/com/onlymine/part/PartManager.kt:62-67 | The parts asked are those up to and including the one that answers. |
| PartLemmas.CreateEachCalls | OnlyMyPart/part/src/main/java/com/onlymine/part/PartManager.kt:72-80 | With a root view, each part gets `onPartCreate`, then `onInitView(root)`, in registry order. |
| PartLemmas.DefaultParts | OnlyMyPart/part/src/main/java/com/onlymine/part/Part.kt:18-47 | With Part.kt's own answers, every input part is enabled, every part is asked on back, and no data request is ever answered. |
| PartLemmas.ViewModelKeyEndsWithName | OnlyMyPart/part/src/main/java/com/onlymine/part/interfaces/IPartHost.kt:40-44 | The view-model key always ends with the class's canonical name. |
| PartLemmas.ViewModelKeyInjective | OnlyMyPart/part/src/main/java/com/onlymine/part/interfaces/IPartHost.kt:40-44 | With one prefix, distinct classes get distinct keys. A null prefix and an empty one give the bare name. |
| PartLemmas.SendMessageNeverReturns | OnlyMyPart/part/src/main/java/com/onlymine/part/PartManager.kt:29-34 | As written, `sendMessage` over an empty registry returns with no calls. Over a non-empty one it never returns, whatever the stack depth: the run is `depth + 1` calls of the first part's `sendMessage` and nothing else. |
| PartLemmas.SendMessageReachesOnlyFirst | OnlyMyPart/part/src/main/java/com/onlymine/part/PartManager.kt:31-33 | As written, no call of the run is a `handleMessage`, and with one part per class name no call reaches any part after the first. |
| PartLemmas.SendMessageOncePerPart | OnlyMyPart/part/src/main/java/com/onlymine/part/PartManager.kt:29-34 | As intended, every registered part handles the message exactly once, in order. |
| PartManagerClass.PartManager.constructor | OnlyMyPart/part/src/main/java/com/onlymine/part/PartManager.kt:10-17 | Starts with the given host and root view and an empty registry. |
| PartManagerClass.PartManager.SetRootView | OnlyMyPart/part/src/main/java/com/onlymine/part/PartManager.kt:15 | The public `rootView` setter. |
| PartManagerClass.PartManager.RegistPart | OnlyMyPart/part/src/main/java/com/onlymine/part/PartManager.kt:36-49 | The loop computes `Register` and `RegisterCalls`, and keeps one enabled part per name. |
| PartManagerClass.PartManager.OnBackEvent | OnlyMyPart/part/src/main/java/com/onlymine/part/PartManager.kt:20-27 | The early-return loop makes exactly the calls of `BackEventCalls`. |
| PartManagerClass.PartManager.GetMessageFromPart | OnlyMyPart/part/src/main/java/com/onlymine/part/PartManager.kt:60-69 | Returns `MessageFromPart` after exactly the calls of `MessageCalls`. |
| PartManagerClass.PartManager.OnPartCreate | OnlyMyPart/part/src/main/java/com/onlymine/part/PartManager.kt:72-80 | Without a root view, `rootView!!` throws right after the first part is created. With one, every part is created and initialised. |
| PartManagerClass.PartManager.OnPartStart | OnlyMyPart/part/src/main/java/com/onlymine/part/PartManager.kt:82-89 | `onPartStart` on every part, in order. |
| PartManagerClass.PartManager.OnPartResume | OnlyMyPart/part/src/main/java/com/onlymine/part/PartManager.kt:91-98 | `onPartResume` on every part, in order. |
| PartManagerClass.PartManager.OnPartPause | OnlyMyPart/part/src/main/java/com/onlymine/part/PartManager.kt:100-107 | `onPartPause` on every part, in order. |
| PartManagerClass.PartManager.OnPartStop | OnlyMyPart/part/src/main/java/com/onlymine/part/PartManager.kt:109-116 | `onPartStop` on every part, in order. |
| PartManagerClass.PartManager.OnPartSaveInstanceState | OnlyMyPart/part/src/main/java/com/onlymine/part/PartManager.kt:129-136 | `onPartSaveInstanceState` on every part, in order. |
| PartManagerClass.PartManager.OnPartDestroy | OnlyMyPart/part/src/main/java/com/onlymine/part/PartManager.kt:118-127 | Destroys every part in order, then empties the registry and drops the host. Later fan-outs reach no part, and `getViewModel` returns null. |
| PartManagerClass.PartManager.GetViewModel | OnlyMyPart/part/src/main/java/com/onlymine/part/PartManager.kt:138-140 | Null iff there is no host. Otherwise the host is asked for the class under a key that ends with its canonical name. |
| PartManagerClass.PartManager.SendMessage | OnlyMyPart/part/src/main/java/com/onlymine/part/PartManager.kt:29-34 | Corrected `sendMessage`: `handleMessage` on every part, in order. |
| SectionSpec.FanOut | OnlyMyPart/adapter/src/main/java/com/onlymine/onlymypart/adapter/section/SectionManager.kt:110-126 | A forwarding call makes exactly one call per section, the k-th to the k-th section. |
| SectionSpec.FirstFailure | OnlyMyPart/adapter/src/main/java/com/onlymine/onlymypart/adapter/section/SectionManager.kt:74-87 | The index of the first stub id that is neither cached nor found. Every earlier id is cached or found. |
| SectionLemmas.AdmittedMembers | OnlyMyPart/adapter/src/main/java/com/onlymine/onlymypart/adapter/section/SectionManager.kt:29-46 | The registered classes are exactly the given ones that instantiate and are enabled, never more than were given. |
| SectionLemmas.AdmittedSkipsFailure | OnlyMyPart/adapter/src/main/java/com/onlymine/onlymypart/adapter/section/SectionManager.kt:30-45 | A class whose `newInstance` throws is skipped on its own. Registration continues with the rest as if it were absent. |
| SectionLemmas.AdmittedDefault | OnlyMyPart/adapter/src/main/java/com/onlymine/onlymypart/adapter/section/Section.kt:32-38 | With Section.kt's own `isSectionEnabled`, every instantiable class registers, in order. |
| SectionLemmas.InitStubsFresh | OnlyMyPart/adapter/src/main/java/com/onlymine/onlymypart/adapter/section/SectionManager.kt:75-88 | The stub walk looks up only ids not yet cached and inflates each id at most once. It never changes an existing cache entry, and it finds everything it looks up unless it returns early. |
| SectionLemmas.InitStubsAborts | OnlyMyPart/adapter/src/main/java/com/onlymine/onlymypart/adapter/section/SectionManager.kt:82-87 | The walk returns early iff some id is neither cached nor found. The miss of that first such id is then the last event. |
| SectionLemmas.InitStubsCaches | OnlyMyPart/adapter/src/main/java/com/onlymine/onlymypart/adapter/section/SectionManager.kt:74-89 | Compared with `FirstFailure`: afterwards the ids before the failure are cached, nothing else is added, and each added entry is the view the oracle inflated. |
| SectionLemmas.InitStubsCachesPrefix | OnlyMyPart/adapter/src/main/java/com/onlymine/onlymypart/adapter/section/SectionManager.kt:74-88 | Every id before the first failing one is in the cache afterwards. |
| SectionLemmas.InitStubsAddsOnlyPrefix | OnlyMyPart/adapter/src/main/java/com/onlymine/onlymypart/adapter/section/SectionManager.kt:74-88 | The walk caches no id other than those before the first failing one. |
| SectionLemmas.InitStubsAddsFound | OnlyMyPart/adapter/src/main/java/com/onlymine/onlymypart/adapter/section/SectionManager.kt:75-88 | Each entry the walk adds is the view the oracle produced for its id. |
| SectionLemmas.InitStubsStops | OnlyMyPart/adapter/src/main/java/com/onlymine/onlymypart/adapter/section/SectionManager.kt:86 | `return`, not `continue`: no id after the failing one is looked up. |
| SectionLemmas.SectionStubsFacts | OnlyMyPart/adapter/src/main/java/com/onlymine/onlymypart/adapter/section/SectionManager.kt:70-73 | A null or empty stub-id array changes nothing. Otherwise the walk only adds entries, and without an early return it caches every id of the section. |
| SectionLemmas.SectionStubsResolvable | OnlyMyPart/adapter/src/main/java/com/onlymine/onlymypart/adapter/section/SectionManager.kt:70-90 | When every stub id of a section resolves, nothing is missed, every id ends up cached, and no cached entry is lost. |
| SectionLemmas.SectionStubsCallNothing | OnlyMyPart/adapter/src/main/java/com/onlymine/onlymypart/adapter/section/SectionManager.kt:70-90 | Stub initialisation calls no hook of any section. |
| SectionLemmas.InitViewCalls | OnlyMyPart/adapter/src/main/java/com/onlymine/onlymypart/adapter/section/SectionManager.kt:56-62 | `initView` calls `onInitView(root)` exactly once per section, in list order, even for sections whose stubs were not all found. |
| SectionLemmas.InitViewRunSnoc | OnlyMyPart/adapter/src/main/java/com/onlymine/onlymypart/adapter/section/SectionManager.kt:57-61 | One more section extends `initView` by that section's stubs, then its `onInitView(root)`. |
| SectionLemmas.InitViewKeepsRecord | OnlyMyPart/adapter/src/main/java/com/onlymine/onlymypart/adapter/section/SectionManager.kt:75-88 | After `initView` the cache is still exactly what the recorded inflations built, and no id has been inflated twice by this manager. |
| SectionLemmas.InitViewGrowsCache | OnlyMyPart/adapter/src/main/java/com/onlymine/onlymypart/adapter/section/SectionManager.kt:75-81 | `initView` never looks up an id that was already cached and never changes an existing entry. |
| SectionLemmas.InitViewAllResolvable | OnlyMyPart/adapter/src/main/java/com/onlymine/onlymypart/adapter/section/SectionManager.kt:56-62 | When every stub can be inflated, nothing is missed, and afterwards every stub id of every section is cached. |
| SectionLemmas.ReplayLookup | OnlyMyPart/adapter/src/main/java/com/onlymine/onlymypart/adapter/section/SectionManager.kt:88 | If no id is inflated twice, the cache built from a history holds exactly the inflated ids, each mapped to the view its inflation produced. |
| SectionManagerClass.WalkStubs | OnlyMyPart/adapter/src/main/java/com/onlymine/onlymypart/adapter/section/SectionManager.kt:74-89 | The loop with its early `return` computes the cache and events of `InitStubs`. |
| SectionManagerClass.Section.constructor | OnlyMyPart/adapter/src/main/java/com/onlymine/onlymypart/adapter/section/Section.kt:15-22 | A new section has no host, root view or data, and position 0. |
| SectionManagerClass.SectionManager.constructor | OnlyMyPart/adapter/src/main/java/com/onlymine/onlymypart/adapter/section/SectionManager.kt:13-15 | No sections and an empty stub cache. |
| SectionManagerClass.SectionManager.RegisterSections | OnlyMyPart/adapter/src/main/java/com/onlymine/onlymypart/adapter/section/SectionManager.kt:22-46 | Null leaves the list unchanged. Otherwise exactly `Admitted(classes)` are appended in order, as fresh sections hosted by this manager. The old sections, the cache and the log are untouched. |
| SectionManagerClass.SectionManager.InitSectionStub | OnlyMyPart/adapter/src/main/java/com/onlymine/onlymypart/adapter/section/SectionManager.kt:70-90 | The cache and events after one section's stubs are those of `SectionStubs`. The cache stays in agreement with the history. |
| SectionManagerClass.SectionManager.InitView | OnlyMyPart/adapter/src/main/java/com/onlymine/onlymypart/adapter/section/SectionManager.kt:56-62 | Every section gets the root view; the other section fields are unchanged. The cache and events are those of `InitViewRun`. |
| SectionManagerClass.SectionManager.VisitSection | OnlyMyPart/adapter/src/main/java/com/onlymine/onlymypart/adapter/section/SectionManager.kt:57-61 | After round `i`, the section's root view is the given root. The stub cache and the event log are exactly those of `InitViewRun` over the first `i + 1` section classes: this section's stub lookups and its `onInitView(root)` entry are appended. Every cached stub is backed by a recorded lookup. |
| SectionManagerClass.SectionManager.BindData | OnlyMyPart/adapter/src/main/java/com/onlymine/onlymypart/adapter/section/SectionManager.kt:95-101 | Afterwards every section holds the given data and position, and its host and root view are unchanged. The log gains exactly one `onBindData(data, position)` entry per section, in list order. The manager stays well-formed. |
| SectionManagerClass.SectionManager.OnViewRecycled | OnlyMyPart/adapter/src/main/java/com/onlymine/onlymypart/adapter/section/SectionManager.kt:103-107 | `onViewRecycled` on every section, in order. |
| SectionManagerClass.SectionManager.OnVisibleChanged | OnlyMyPart/adapter/src/main/java/com/onlymine/onlymypart/adapter/section/SectionManager.kt:110-114 | `onVisibleChanged(visible)` on every section, in order. |
| SectionManagerClass.SectionManager.OnAttachedChanged | OnlyMyPart/adapter/src/main/java/com/onlymine/onlymypart/adapter/section/SectionManager.kt:116-120 | `onAttachedChanged(attached)` on every section, in order. |
| SectionManagerClass.SectionManager.OnDestroy | OnlyMyPart/adapter/src/main/java/com/onlymine/onlymypart/adapter/section/SectionManager.kt:122-126 | `onDestroy` on every section, in order. |
| SectionManagerClass.SectionManager.GetStubView | OnlyMyPart/adapter/src/main/java/com/onlymine/onlymypart/adapter/section/SectionManager.kt:128-130 | Null, which is the `NullPointerException` of `!!`, iff this manager never inflated a stub with that id. Otherwise it is the view that inflation produced. |

## Findings

| source | as written | input that shows it | evidently intended | confidence | as-written member | corrected member |
|---|---|---|---|---|---|---|
| OnlyMyPart/part/src/main/java/com/onlymine/part/PartManager.kt:29-34 | `PartManager.sendMessage` calls each part's `sendMessage`. Part.kt:36-38 sends it straight back to the manager's `sendMessage`, which starts over at the first part. | Any registry with at least one part. `registPart` has made the manager every part's `partManager`. | Each part handles the message once, through its otherwise unused `handleMessage(action, obj)` (Part.kt:22-24). | high; not executed | PartLemmas.SendMessageNeverReturns | PartManagerClass.PartManager.SendMessage |

## Left out

- Lifecycle-owner discovery and observer registration in `install` and `unInstall` (Aware.kt:219-230, 245-256). These are Android framework lookups; the host's lifecycle events are plain method calls here.
- `Handler.post` and `removeCallbacks` timing: posted blocks are explicit events, and a re-post replaces a pending task.
- `adapterChangeListener` (Aware.kt:130-152): every callback is empty or forwards to an empty default, so nothing is modelled for it.
- `notifyViewRecycled` (Aware.kt:330-337) only logs.
- Logging (`logInfo`, `logViewHolderStatus`) throughout.
- Garbage collection: whether a weak referent is alive is a parameter (`Env.alive`), not a heap property.
- Threads: every handler runs to completion on the main thread, as `@UiThread` requires.
- `PartManager.onConfigurationChanged` (PartManager.kt:51-57): its loop body is empty.
- `PartManager`'s `stubView` map (PartManager.kt:16): it is never used.
- `System.currentTimeMillis()` reads in the lifecycle loops: their results are never used.
- The `Activity` and `Bundle` arguments of the lifecycle hooks: they are passed through unread.
- The `msg` and `obj` arguments of `getMessageFromPart` and `sendMessage`: they are passed through unread.
- `PartManagerClass.PartManager.SendMessage` models the corrected behaviour. The as-written recursion exists only as the functions `PartSpec.ManagerSend` and `PartSpec.PartSend`, because a method cannot model a call that never returns. Stack depth is their `fuel` argument.
- `PartSpec.PartSend` assumes each part's `partManager` is the manager whose registry is walked. A part that a second manager has registered since then would forward to that manager; the model does not capture this.
- `PartSpec.RegisterCalls` accepts a null root view: it passes `rootView` through as an `Option`. PartManager.kt:41 passes the nullable `rootView: View?` to `setEnvironment(host, rootView: View, partManager)` (Part.kt:30), which Kotlin rejects as a type mismatch, so the source as written would not compile.
- `PartManagerClass.PartManager.GetViewModel` assumes the host keeps the interface default of `IPartHost.getViewModel` (interfaces/IPartHost.kt:39-46), which picks the key. A host that overrides it may use another key; the model does not capture that.
- `AwareSpec.Step` accepts more events than the notifier can receive. `PageSelected` is accepted in every mode, though the page callback is registered only in ON_PAGE_SELECT (Aware.kt:233-235). `ScrollStateChanged` is accepted in every mode, though the scroll listener is registered only in ON_SCROLL_AREA_VISIBLE (Aware.kt:236-238). `LifecycleChanged` is accepted after ON_DESTROY, though `onStateChanged` then removes the observer (Aware.kt:410). The invariant lemmas hold over this larger set of runs.
- `ViewModelProvider` store semantics: the model records which host is asked for which key and class, not the instance it returns.
- Reflection: `Class.newInstance` is the `instantiable` flag of a section class. Exceptions other than `InstantiationException` and `IllegalAccessException` are not modelled.
- `ViewStub` inflation is the `resolve` oracle: one fixed function of the stub id for each `initView` call.
- The `payload` argument of `bindData`: it is passed through unread.
- `Section.getStubView` (Section.kt:98-100): it forwards to its host, which registration sets to the manager.
- The section hooks' own bodies (`onInitView`, `onBindData` and so on), which are abstract or empty in Section.kt. Which field values a section observes during its hook is not recorded in the log.
- The delegate adapters, the ViewPager2 and fragment glue and RecyclerView internals (the adapter and fragment modules).
