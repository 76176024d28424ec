/**
 * `PartManager` of PartManager.kt as a class. `parts` is `partsMap.values`
 * in insertion order and `calls` is the ghost record of every hook the
 * manager has called on a part. Each method is proved to compute the
 * matching function of `PartSpec`.
 */
module PartManagerClass {
  import opened Wrappers
  import opened PartSpec
  import PartLemmas

  class PartManager {
    var partHost: Option<Host>
    var rootView: Option<View>
    var parts: seq<Part>
    ghost var calls: seq<PartCall>

    ghost predicate Valid()
      reads this
    {
      Registry(parts)
    }

    constructor(host: Option<Host>, root: Option<View>)
      ensures partHost == host && rootView == root && parts == [] && calls == [] && Valid()
    {
      partHost := host;
      rootView := root;
      parts := [];
      calls := [];
    }

    /** The public `rootView` setter. */
    method SetRootView(root: Option<View>)
      modifies this`rootView
      ensures rootView == root
    {
      rootView := root;
    }

    method RegistPart(input: seq<Part>)
      requires Valid()
      modifies this
      ensures parts == Register(old(parts), input)
      ensures calls == old(calls) + RegisterCalls(input, partHost, rootView)
      ensures partHost == old(partHost) && rootView == old(rootView) && Valid()
    {
      ghost var reg := parts;
      var i := 0;
      while i < |input|
        invariant 0 <= i <= |input|
        invariant partHost == old(partHost) && rootView == old(rootView)
        invariant parts == Register(reg, input[..i])
        invariant calls == old(calls) + FanOut(SetEnvironment(partHost, rootView), Enabled(input[..i]))
      {
        var part := input[i];
        assert input[..i + 1][..i] == input[..i];
        if !part.enabled {
          assert Enabled(input[..i + 1]) == Enabled(input[..i]);
          i := i + 1;
          continue;
        }
        assert Enabled(input[..i + 1]) == Enabled(input[..i]) + [part];
        PartLemmas.FanOutSnoc(SetEnvironment(partHost, rootView), Enabled(input[..i]), part);
        calls := calls + [PartCall(SetEnvironment(partHost, rootView), part)];
        if part.className !in Names(parts) {
          parts := parts + [part];
        }
        i := i + 1;
      }
      assert input[..i] == input;
      PartLemmas.RegisterKeepsRegistry(reg, input);
    }

    /** Consults the parts in order and stops at the first whose `onBackEvent` returns true. */
    method OnBackEvent()
      modifies this`calls
      ensures calls == old(calls) + BackEventCalls(parts)
    {
      var i := 0;
      while i < |parts|
        invariant 0 <= i <= |parts|
        invariant forall j :: 0 <= j < i ==> !parts[j].backHandled
        invariant calls == old(calls) + FanOut(BackEvent, parts[..i])
      {
        var part := parts[i];
        calls := calls + [PartCall(BackEvent, part)];
        assert parts[..i + 1][..i] == parts[..i];
        if part.backHandled {
          return;
        }
        i := i + 1;
      }
      assert parts[..i] == parts;
    }

    /** The first non-null `handleDataRequest(action, msg)` in registry order; `msg` is passed through unread. */
    method GetMessageFromPart(action: string) returns (r: Option<nat>)
      modifies this`calls
      ensures r == MessageFromPart(parts, action)
      ensures calls == old(calls) + MessageCalls(parts, action)
    {
      var i := 0;
      while i < |parts|
        invariant 0 <= i <= |parts|
        invariant forall j :: 0 <= j < i ==> action !in parts[j].responses
        invariant calls == old(calls) + FanOut(DataRequest(action), parts[..i])
      {
        var part := parts[i];
        calls := calls + [PartCall(DataRequest(action), part)];
        assert parts[..i + 1][..i] == parts[..i];
        if action in part.responses {
          return Some(part.responses[action]);
        }
        i := i + 1;
      }
      assert parts[..i] == parts;
      return None;
    }

    /** `onPartCreate` then `onInitView(rootView!!)` on each part; a null root view throws after the first part is created. */
    method OnPartCreate() returns (outcome: Outcome)
      modifies this`calls
      ensures outcome == CreateOutcome(parts, rootView)
      ensures calls == old(calls) + CreateCalls(parts, rootView)
    {
      var ps, root := parts, rootView;
      var i := 0;
      while i < |ps|
        invariant 0 <= i <= |ps|
        invariant root.None? ==> i == 0 && calls == old(calls)
        invariant root.Some? ==> calls == old(calls) + CreateEach(ps[..i], root.value)
      {
        var part := ps[i];
        calls := calls + [PartCall(Create, part)];
        if root.None? {
          return ThrewNullPointer;
        }
        calls := calls + [PartCall(InitView(root.value), part)];
        assert ps[..i + 1][..i] == ps[..i];
        i := i + 1;
      }
      assert ps[..i] == ps;
      return Completed;
    }

    /** The shared loop of the lifecycle fan-outs. */
    method CallEach(hook: Hook)
      modifies this`calls
      ensures calls == old(calls) + FanOut(hook, parts)
    {
      var i := 0;
      while i < |parts|
        invariant 0 <= i <= |parts|
        invariant calls == old(calls) + FanOut(hook, parts[..i])
      {
        calls := calls + [PartCall(hook, parts[i])];
        assert parts[..i + 1][..i] == parts[..i];
        i := i + 1;
      }
      assert parts[..i] == parts;
    }

    method OnPartStart()
      modifies this`calls
      ensures calls == old(calls) + FanOut(Start, parts)
    {
      CallEach(Start);
    }

    method OnPartResume()
      modifies this`calls
      ensures calls == old(calls) + FanOut(Resume, parts)
    {
      CallEach(Resume);
    }

    method OnPartPause()
      modifies this`calls
      ensures calls == old(calls) + FanOut(Pause, parts)
    {
      CallEach(Pause);
    }

    method OnPartStop()
      modifies this`calls
      ensures calls == old(calls) + FanOut(Stop, parts)
    {
      CallEach(Stop);
    }

    method OnPartSaveInstanceState()
      modifies this`calls
      ensures calls == old(calls) + FanOut(SaveInstanceState, parts)
    {
      CallEach(SaveInstanceState);
    }

    /**
     * `sendMessage(action, obj)` as evidently intended: each part handles the
     * message; `obj` is passed through unread.
     */
    method SendMessage(action: string)
      modifies this`calls
      ensures calls == old(calls) + PartSpec.SendMessage(parts, action)
    {
      CallEach(HandleMessage(action));
    }

    /** Destroys every part, then empties the registry and drops the host. */
    method OnPartDestroy()
      modifies this
      ensures calls == old(calls) + FanOut(Destroy, old(parts))
      ensures parts == [] && partHost.None? && rootView == old(rootView) && Valid()
    {
      CallEach(Destroy);
      parts := [];
      partHost := None;
    }

    /** `partHost?.getViewModel(keyPrefix, viewModelClass)`: the request the host receives, or null without a host. */
    function GetViewModel(keyPrefix: Option<string>, canonicalName: string): (r: Option<ViewModelRequest>)
      reads this
      ensures r.None? <==> partHost.None?
      ensures r.Some? ==> r.value.host == partHost.value && r.value.canonicalName == canonicalName
      ensures r.Some? ==> |r.value.key| >= |canonicalName| && r.value.key[|r.value.key| - |canonicalName|..] == canonicalName
    {
      PartLemmas.ViewModelKeyEndsWithName(keyPrefix, canonicalName);
      if partHost.None? then None
      else Some(ViewModelRequest(partHost.value, ViewModelKey(keyPrefix, canonicalName), canonicalName))
    }
  }
}
