/** Properties of the Part registry functions in part_spec.dfy. */
module PartLemmas {
  import opened Wrappers
  import opened PartSpec

  /** The new part is the sequence `a` drawn from `b` in order (not necessarily contiguously). */
  ghost predicate Subsequence(a: seq<Part>, b: seq<Part>)
    decreases |b|
  {
    if a == [] then true
    else if b == [] then false
    else (a[|a| - 1] == b[|b| - 1] && Subsequence(a[..|a| - 1], b[..|b| - 1])) || Subsequence(a, b[..|b| - 1])
  }

  /** The `hook`-th call goes to the part at the same index. */
  lemma {:induction false} FanOutCalls(hook: Hook, ps: seq<Part>)
    ensures |FanOut(hook, ps)| == |ps|
    ensures forall i :: 0 <= i < |ps| ==> FanOut(hook, ps)[i] == PartCall(hook, ps[i])
    decreases |ps|
  {
    if ps != [] {
      FanOutCalls(hook, ps[..|ps| - 1]);
    }
  }

  lemma FanOutSnoc(hook: Hook, ps: seq<Part>, p: Part)
    ensures FanOut(hook, ps + [p]) == FanOut(hook, ps) + [PartCall(hook, p)]
  {
    assert (ps + [p])[..|ps|] == ps;
  }

  /** Over a registry, a fan-out calls every registered part exactly once and nothing else. */
  lemma {:induction false} FanOutOncePerPart(hook: Hook, ps: seq<Part>, c: PartCall)
    requires DistinctNames(ps)
    ensures multiset(FanOut(hook, ps))[c] == if c.hook == hook && c.part in ps then 1 else 0
    decreases |ps|
  {
    if ps != [] {
      var pre := ps[..|ps| - 1];
      var last := ps[|ps| - 1];
      assert DistinctNames(pre) by {
        forall i, j | 0 <= i < j < |pre| ensures pre[i].className != pre[j].className {
          assert pre[i] == ps[i] && pre[j] == ps[j];
        }
      }
      FanOutOncePerPart(hook, pre, c);
      assert last !in pre by {
        forall i | 0 <= i < |pre| ensures pre[i] != last {
          assert pre[i] == ps[i];
        }
      }
      assert ps == pre + [last];
    }
  }

  lemma {:induction false} EnabledMembers(ps: seq<Part>)
    ensures forall p :: p in Enabled(ps) <==> p in ps && p.enabled
    decreases |ps|
  {
    if ps != [] {
      EnabledMembers(ps[..|ps| - 1]);
      assert ps == ps[..|ps| - 1] + [ps[|ps| - 1]];
    }
  }

  /** `registPart` calls `setEnvironment(partHost, rootView, this)` on exactly the enabled input parts, stored or not. */
  lemma RegisterCallsTargets(input: seq<Part>, host: Option<Host>, root: Option<View>)
    ensures forall c :: c in RegisterCalls(input, host, root) <==>
      c.hook == SetEnvironment(host, root) && c.part in input && c.part.enabled
  {
    var en := Enabled(input);
    EnabledMembers(input);
    FanOutCalls(SetEnvironment(host, root), en);
    forall c: PartCall | c.hook == SetEnvironment(host, root) && c.part in input && c.part.enabled
      ensures c in RegisterCalls(input, host, root)
    {
      var i :| 0 <= i < |en| && en[i] == c.part;
      assert RegisterCalls(input, host, root)[i] == c;
    }
  }

  /** Registration only appends: the old registry is a prefix of the new one. */
  lemma {:induction false} RegisterExtends(reg: seq<Part>, input: seq<Part>)
    ensures |Register(reg, input)| >= |reg| && Register(reg, input)[..|reg|] == reg
    decreases |input|
  {
    if input != [] {
      RegisterExtends(reg, input[..|input| - 1]);
    }
  }

  /** Registration keeps one part per name and only enabled parts. */
  lemma {:induction false} RegisterKeepsRegistry(reg: seq<Part>, input: seq<Part>)
    requires Registry(reg)
    ensures Registry(Register(reg, input))
    decreases |input|
  {
    if input != [] {
      var prev := Register(reg, input[..|input| - 1]);
      RegisterKeepsRegistry(reg, input[..|input| - 1]);
      var p := input[|input| - 1];
      if p.enabled && p.className !in Names(prev) {
        var next := prev + [p];
        forall i, j | 0 <= i < j < |next| ensures next[i].className != next[j].className {
          if j == |prev| {
            assert next[i] in prev;
          }
        }
      }
    }
  }

  /** The registry's names after `registPart`: the old names and the names of the enabled input parts. */
  lemma {:induction false} RegisterNames(reg: seq<Part>, input: seq<Part>)
    ensures Names(Register(reg, input)) == Names(reg) + Names(Enabled(input))
    decreases |input|
  {
    if input != [] {
      var pre := input[..|input| - 1];
      var p := input[|input| - 1];
      RegisterNames(reg, pre);
      var prev := Register(reg, pre);
      if p.enabled {
        assert Enabled(input) == Enabled(pre) + [p];
        assert Names(Enabled(input)) == Names(Enabled(pre)) + {p.className};
        if p.className !in Names(prev) {
          assert Names(prev + [p]) == Names(prev) + {p.className};
        }
      } else {
        assert Enabled(input) == Enabled(pre);
      }
    }
  }

  /** The input part at index `i` is the one stored for its name: it is enabled, its name is new, and no earlier enabled part has it. */
  ghost predicate Kept(reg: seq<Part>, input: seq<Part>, i: int)
    requires 0 <= i < |input|
  {
    && input[i].enabled
    && input[i].className !in Names(reg)
    && forall j :: 0 <= j < i && input[j].enabled ==> input[j].className != input[i].className
  }

  /** Whether an input part is kept depends only on the parts before it. */
  lemma KeptPrefix(reg: seq<Part>, input: seq<Part>, i: int)
    requires 0 <= i < |input| - 1
    ensures Kept(reg, input[..|input| - 1], i) <==> Kept(reg, input, i)
  {
    var pre := input[..|input| - 1];
    assert forall j :: 0 <= j <= i ==> pre[j] == input[j];
  }

  /** The registry after `registPart` holds the old parts and, per new name, the first enabled input part with it. */
  lemma {:induction false} RegisterMembers(reg: seq<Part>, input: seq<Part>)
    ensures forall p :: p in Register(reg, input) <==>
      p in reg || exists i :: 0 <= i < |input| && input[i] == p && Kept(reg, input, i)
    decreases |input|
  {
    if input != [] {
      RegisterMembers(reg, input[..|input| - 1]);
      forall q ensures q in Register(reg, input) <==>
        q in reg || exists i :: 0 <= i < |input| && input[i] == q && Kept(reg, input, i)
      {
        RegisterMemberStep(reg, input, q);
      }
    }
  }

  /** One part of the input more: membership of `q` after it follows from membership of `q` before it. */
  lemma RegisterMemberStep(reg: seq<Part>, input: seq<Part>, q: Part)
    requires input != []
    requires var pre := input[..|input| - 1];
      q in Register(reg, pre) <==> q in reg || exists i :: 0 <= i < |pre| && pre[i] == q && Kept(reg, pre, i)
    ensures q in Register(reg, input) <==>
      q in reg || exists i :: 0 <= i < |input| && input[i] == q && Kept(reg, input, i)
  {
    var pre := input[..|input| - 1];
    var n := |input| - 1;
    var p := input[n];
    var prev := Register(reg, pre);
    var added := p.enabled && p.className !in Names(prev);
    assert Register(reg, input) == if added then prev + [p] else prev;
    if q !in reg {
      if q in prev {
        var i :| 0 <= i < |pre| && pre[i] == q && Kept(reg, pre, i);
        KeptPrefix(reg, input, i);
        assert input[i] == q && Kept(reg, input, i);
      } else if added && q == p {
        RegisterNames(reg, pre);
        EnabledMembers(pre);
        forall j | 0 <= j < n && input[j].enabled ensures input[j].className != p.className {
          assert pre[j] in Enabled(pre);
        }
        assert input[n] == q && Kept(reg, input, n);
      } else {
        forall i | 0 <= i < |input| && input[i] == q ensures !Kept(reg, input, i) {
          if i < n {
            KeptPrefix(reg, input, i);
            assert pre[i] == q;
          } else if p.enabled && p.className !in Names(reg) {
            // `p` was dropped: an earlier enabled part took its name.
            RegisterNames(reg, pre);
            assert p.className in Names(Enabled(pre));
            var e :| e in Enabled(pre) && e.className == p.className;
            EnabledMembers(pre);
            var j :| 0 <= j < n && pre[j] == e;
            assert input[j] == e;
          }
        }
      }
    }
  }

  /** The parts `registPart` adds appear in the registry in input order. */
  lemma {:induction false} RegisterKeepsOrder(reg: seq<Part>, input: seq<Part>)
    ensures |Register(reg, input)| >= |reg| && Subsequence(Register(reg, input)[|reg|..], input)
    decreases |input|
  {
    RegisterExtends(reg, input);
    if input == [] {
      assert Register(reg, input)[|reg|..] == [];
    } else {
      var pre := input[..|input| - 1];
      var p := input[|input| - 1];
      var prev := Register(reg, pre);
      RegisterKeepsOrder(reg, pre);
      var added := prev[|reg|..];
      if p.enabled && p.className !in Names(prev) {
        var now := (prev + [p])[|reg|..];
        assert now[..|now| - 1] == added && now[|now| - 1] == p;
      } else {
        assert Register(reg, input)[|reg|..] == added;
        SubsequenceWiden(added, pre, p);
        assert pre + [p] == input;
      }
    }
  }

  lemma SubsequenceWiden(a: seq<Part>, b: seq<Part>, x: Part)
    requires Subsequence(a, b)
    ensures Subsequence(a, b + [x])
  {
    assert (b + [x])[..|b|] == b;
  }

  /** `onBackEvent` calls the parts in order, stops right after the first that returns true, and calls nothing else. */
  lemma BackEventStops(ps: seq<Part>)
    ensures var calls := BackEventCalls(ps);
      && |calls| <= |ps|
      && (forall j :: 0 <= j < |calls| ==> calls[j] == PartCall(BackEvent, ps[j]))
      && (forall j :: 0 <= j < |calls| - 1 ==> !ps[j].backHandled)
      && (|calls| == |ps| || ps[|calls| - 1].backHandled)
      && (calls == [] ==> ps == [])
  {
    var i := FirstBackHandler(ps);
    var k := if i < |ps| then i + 1 else i;
    FanOutCalls(BackEvent, ps[..k]);
  }

  /** Over a registry, parts after the first handler are never consulted. */
  lemma BackEventSkipsLater(ps: seq<Part>, j: int)
    requires DistinctNames(ps) && FirstBackHandler(ps) < j < |ps|
    ensures PartCall(BackEvent, ps[j]) !in BackEventCalls(ps)
  {
    FanOutCalls(BackEvent, ps[..FirstBackHandler(ps) + 1]);
  }

  /** `getMessageFromPart` answers `v` exactly when some part answers `v` and no earlier part answers at all; null when nobody answers. */
  lemma MessageIsFirstAnswer(ps: seq<Part>, action: string, v: nat)
    ensures MessageFromPart(ps, action) == Some(v) <==>
      exists i :: 0 <= i < |ps| && action in ps[i].responses && ps[i].responses[action] == v
                  && forall j :: 0 <= j < i ==> action !in ps[j].responses
    ensures MessageFromPart(ps, action).None? <==> forall p :: p in ps ==> action !in p.responses
  {
    var i := FirstResponder(ps, action);
    if MessageFromPart(ps, action).None? {
      forall p | p in ps ensures action !in p.responses {
        var j :| 0 <= j < |ps| && ps[j] == p;
      }
    }
  }

  /** `getMessageFromPart` asks the parts in order up to and including the one that answers. */
  lemma MessageCallsStop(ps: seq<Part>, action: string)
    ensures var calls := MessageCalls(ps, action);
      && |calls| <= |ps|
      && (forall j :: 0 <= j < |calls| ==> calls[j] == PartCall(DataRequest(action), ps[j]))
      && (MessageFromPart(ps, action).Some? ==> |calls| == FirstResponder(ps, action) + 1)
      && (MessageFromPart(ps, action).None? ==> |calls| == |ps|)
  {
    var i := FirstResponder(ps, action);
    var k := if i < |ps| then i + 1 else i;
    FanOutCalls(DataRequest(action), ps[..k]);
  }

  /** With a root view, every part gets `onPartCreate` and then `onInitView(root)`, in registry order. */
  lemma {:induction false} CreateEachCalls(ps: seq<Part>, root: View)
    ensures |CreateEach(ps, root)| == 2 * |ps|
    ensures forall i :: 0 <= i < |ps| ==>
      CreateEach(ps, root)[2 * i] == PartCall(Create, ps[i]) && CreateEach(ps, root)[2 * i + 1] == PartCall(InitView(root), ps[i])
    decreases |ps|
  {
    if ps != [] {
      CreateEachCalls(ps[..|ps| - 1], root);
    }
  }

  /** Parts as Part.kt defines them: all are registered (first per name), every one is asked on back, and no message is ever answered. */
  lemma DefaultParts(input: seq<Part>, ps: seq<Part>, action: string)
    requires forall p :: p in input ==> p == DefaultPart(p.id, p.className)
    requires forall p :: p in ps ==> p == DefaultPart(p.id, p.className)
    ensures Enabled(input) == input
    ensures BackEventCalls(ps) == FanOut(BackEvent, ps)
    ensures MessageFromPart(ps, action).None?
  {
    AllEnabled(input);
    assert ps[..FirstBackHandler(ps)] == ps;
  }

  lemma {:induction false} AllEnabled(ps: seq<Part>)
    requires forall p :: p in ps ==> p.enabled
    ensures Enabled(ps) == ps
    decreases |ps|
  {
    if ps != [] {
      AllEnabled(ps[..|ps| - 1]);
      assert ps[|ps| - 1] in ps;
      assert ps == ps[..|ps| - 1] + [ps[|ps| - 1]];
    }
  }

  /**
   * As written, `sendMessage` over an empty registry returns at once; over
   * a non-empty one it never returns, however deep the stack: every frame
   * re-enters through the first part, so the run is `fuel + 1` calls of that
   * part's `sendMessage` and nothing else.
   */
  lemma {:induction false} SendMessageNeverReturns(registry: seq<Part>, action: string, fuel: nat)
    ensures registry == [] ==> ManagerSend(registry, registry, action, fuel) == Sent([], true)
    ensures registry != [] ==> var r := ManagerSend(registry, registry, action, fuel);
      && !r.returned
      && |r.calls| == fuel + 1
      && forall i :: 0 <= i < |r.calls| ==> r.calls[i] == PartCall(PartSendMessage(action), registry[0])
    decreases fuel
  {
    if registry != [] && fuel > 0 {
      SendMessageNeverReturns(registry, action, fuel - 1);
      var inner := ManagerSend(registry, registry, action, fuel - 1);
      var r := ManagerSend(registry, registry, action, fuel);
      assert r == PartSend(registry[0], registry, action, fuel);
      assert r.calls == [PartCall(PartSendMessage(action), registry[0])] + inner.calls;
      forall i | 0 <= i < |r.calls|
        ensures r.calls[i] == PartCall(PartSendMessage(action), registry[0])
      {
        if i > 0 {
          assert r.calls[i] == inner.calls[i - 1];
        }
      }
    }
  }

  /**
   * As written, no part ever handles the message, and no registered part
   * other than the first is ever reached.
   */
  lemma SendMessageReachesOnlyFirst(registry: seq<Part>, action: string, fuel: nat, c: PartCall)
    requires DistinctNames(registry)
    requires c in ManagerSend(registry, registry, action, fuel).calls
    ensures !c.hook.HandleMessage?
    ensures forall k :: 1 <= k < |registry| ==> c.part != registry[k]
  {
    SendMessageNeverReturns(registry, action, fuel);
    var r := ManagerSend(registry, registry, action, fuel);
    var i :| 0 <= i < |r.calls| && r.calls[i] == c;
    forall k | 1 <= k < |registry|
      ensures c.part != registry[k]
    {
      assert registry[0].className != registry[k].className;
    }
  }

  /** As intended, `sendMessage` hands the message to every registered part exactly once, in order, and to nobody else. */
  lemma SendMessageOncePerPart(ps: seq<Part>, action: string, c: PartCall)
    requires DistinctNames(ps)
    ensures |SendMessage(ps, action)| == |ps|
    ensures forall i :: 0 <= i < |ps| ==> SendMessage(ps, action)[i] == PartCall(HandleMessage(action), ps[i])
    ensures multiset(SendMessage(ps, action))[c] == if c.hook == HandleMessage(action) && c.part in ps then 1 else 0
  {
    FanOutCalls(HandleMessage(action), ps);
    FanOutOncePerPart(HandleMessage(action), ps, c);
  }

  /** The view-model key always ends with the class's canonical name. */
  lemma ViewModelKeyEndsWithName(keyPrefix: Option<string>, canonicalName: string)
    ensures var k := ViewModelKey(keyPrefix, canonicalName);
      |k| >= |canonicalName| && k[|k| - |canonicalName|..] == canonicalName
  {
    var k := ViewModelKey(keyPrefix, canonicalName);
    if keyPrefix.Some? && keyPrefix.value != [] {
      assert k[|k| - |canonicalName|..] == canonicalName;
    }
  }

  /** With the same prefix, two classes never share a key; a null and an empty prefix give the same key. */
  lemma ViewModelKeyInjective(keyPrefix: Option<string>, a: string, b: string)
    ensures ViewModelKey(keyPrefix, a) == ViewModelKey(keyPrefix, b) ==> a == b
    ensures ViewModelKey(None, a) == ViewModelKey(Some([]), a) == a
  {
    if keyPrefix.Some? && keyPrefix.value != [] && ViewModelKey(keyPrefix, a) == ViewModelKey(keyPrefix, b) {
      var p := keyPrefix.value;
      assert a == (p + a)[|p|..];
      assert b == (p + b)[|p|..];
    }
  }
}
