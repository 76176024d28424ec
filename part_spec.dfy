/**
 * The Part registry of PartManager.kt, as pure functions over the list of
 * registered parts.
 *
 * `partsMap` is a Kotlin `mutableMapOf`, a `LinkedHashMap` keyed by each
 * part's class name, and every operation walks `partsMap.values` in
 * insertion order. Here the registry is that sequence of values; the keys
 * are the parts' `className`s. A `Part` records what the registry can
 * observe of a part object: its identity, its class name, and the answers of
 * `isPartEnable`, `onBackEvent` and `handleDataRequest`.
 */
module PartSpec {
  import opened Wrappers

  /** The host (`IPartHost`) and the root view, as opaque identities. */
  datatype Host = Host(id: nat)
  datatype View = View(id: nat)

  /**
   * A part object. `responses` maps an action to the non-null value
   * `handleDataRequest(action, msg)` returns; an action it does not hold
   * gets `null`.
   */
  datatype Part = Part(id: nat, className: string, enabled: bool, backHandled: bool, responses: map<string, nat>)

  /** A part as Part.kt defines it: the three queries are final there, answering true, false and null. */
  function DefaultPart(id: nat, className: string): Part
  {
    Part(id, className, true, false, map[])
  }

  /** The hooks the registry calls on a part. */
  datatype Hook =
    | SetEnvironment(host: Option<Host>, root: Option<View>)
    | BackEvent
    | DataRequest(action: string)
    | Create
    | InitView(view: View)
    | Start
    | Resume
    | Pause
    | Stop
    | SaveInstanceState
    | Destroy
    | HandleMessage(action: string)
    | PartSendMessage(action: string)

  datatype PartCall = PartCall(hook: Hook, part: Part)

  /** How `onPartCreate` ends: normally, or with the `NullPointerException` of `rootView!!`. */
  datatype Outcome = Completed | ThrewNullPointer

  /** The keys of the registry. */
  function Names(ps: seq<Part>): set<string>
  {
    set p | p in ps :: p.className
  }

  /** No two registered parts share a class name: `partsMap` has one value per key. */
  ghost predicate DistinctNames(ps: seq<Part>)
  {
    forall i, j :: 0 <= i < j < |ps| ==> ps[i].className != ps[j].className
  }

  /** The invariant `registPart` keeps: one part per name, and only enabled parts. */
  ghost predicate Registry(ps: seq<Part>)
  {
    DistinctNames(ps) && forall p :: p in ps ==> p.enabled
  }

  /** `hook` called on every part of `ps`, in order. */
  function FanOut(hook: Hook, ps: seq<Part>): seq<PartCall>
    decreases |ps|
  {
    if ps == [] then [] else FanOut(hook, ps[..|ps| - 1]) + [PartCall(hook, ps[|ps| - 1])]
  }

  // ------------------------------------------------------------ registPart

  /** The enabled parts of `ps`, in order. */
  function Enabled(ps: seq<Part>): seq<Part>
    decreases |ps|
  {
    if ps == [] then []
    else Enabled(ps[..|ps| - 1]) + (if ps[|ps| - 1].enabled then [ps[|ps| - 1]] else [])
  }

  /** The registry after `registPart(input)`: each enabled part is stored unless its name is already a key. */
  function Register(reg: seq<Part>, input: seq<Part>): seq<Part>
    decreases |input|
  {
    if input == [] then reg
    else
      var prev := Register(reg, input[..|input| - 1]);
      var p := input[|input| - 1];
      if !p.enabled || p.className in Names(prev) then prev else prev + [p]
  }

  /** The calls `registPart(input)` makes: `setEnvironment` on each enabled part, stored or not. */
  function RegisterCalls(input: seq<Part>, host: Option<Host>, root: Option<View>): seq<PartCall>
  {
    FanOut(SetEnvironment(host, root), Enabled(input))
  }

  // ------------------------------------------------------ short-circuit queries

  /** The index of the first part whose `onBackEvent` returns true, or `|ps|` when none does. */
  function FirstBackHandler(ps: seq<Part>): (i: nat)
    ensures i <= |ps|
    ensures forall j :: 0 <= j < i ==> !ps[j].backHandled
    ensures i < |ps| ==> ps[i].backHandled
    decreases |ps|
  {
    if ps == [] then 0
    else if ps[0].backHandled then 0
    else 1 + FirstBackHandler(ps[1..])
  }

  /** The parts `onBackEvent` consults: all of them up to and including the first that handles it. */
  function BackEventCalls(ps: seq<Part>): seq<PartCall>
  {
    var i := FirstBackHandler(ps);
    FanOut(BackEvent, ps[..if i < |ps| then i + 1 else i])
  }

  /** The index of the first part with a non-null answer to `action`, or `|ps|` when none has one. */
  function FirstResponder(ps: seq<Part>, action: string): (i: nat)
    ensures i <= |ps|
    ensures forall j :: 0 <= j < i ==> action !in ps[j].responses
    ensures i < |ps| ==> action in ps[i].responses
    decreases |ps|
  {
    if ps == [] then 0
    else if action in ps[0].responses then 0
    else 1 + FirstResponder(ps[1..], action)
  }

  /** What `getMessageFromPart(action, msg)` returns; `None` is `null`. */
  function MessageFromPart(ps: seq<Part>, action: string): Option<nat>
  {
    var i := FirstResponder(ps, action);
    if i < |ps| then Some(ps[i].responses[action]) else None
  }

  /** The parts `getMessageFromPart` asks: all of them up to and including the first that answers. */
  function MessageCalls(ps: seq<Part>, action: string): seq<PartCall>
  {
    var i := FirstResponder(ps, action);
    FanOut(DataRequest(action), ps[..if i < |ps| then i + 1 else i])
  }

  // -------------------------------------------------------------- lifecycle

  /** `onPartCreate` then `onInitView(root)` on every part, in order. */
  function CreateEach(ps: seq<Part>, root: View): seq<PartCall>
    decreases |ps|
  {
    if ps == [] then []
    else CreateEach(ps[..|ps| - 1], root) + [PartCall(Create, ps[|ps| - 1]), PartCall(InitView(root), ps[|ps| - 1])]
  }

  /** The calls `onPartCreate` makes: with no root view, the first part is created and `rootView!!` throws. */
  function CreateCalls(ps: seq<Part>, root: Option<View>): seq<PartCall>
  {
    if root.Some? then CreateEach(ps, root.value)
    else if ps == [] then []
    else [PartCall(Create, ps[0])]
  }

  /** How `onPartCreate` ends. */
  function CreateOutcome(ps: seq<Part>, root: Option<View>): Outcome
  {
    if root.None? && ps != [] then ThrewNullPointer else Completed
  }

  // ----------------------------------------------------------- sendMessage

  /**
   * The calls a run of `sendMessage` as written makes, and whether it
   * returned; `returned == false` is the `StackOverflowError`.
   */
  datatype Sent = Sent(calls: seq<PartCall>, returned: bool)

  /**
   * `PartManager.sendMessage(action, obj)` as written, from the part `ps[0]`
   * on: the manager calls `sendMessage` on each remaining part in order,
   * and stops if one of those calls does not return. `registry` is
   * `partsMap.values`, which every nested call walks again from the start;
   * `fuel` is the room left on the call stack.
   */
  function ManagerSend(ps: seq<Part>, registry: seq<Part>, action: string, fuel: nat): Sent
    decreases fuel, |ps|
  {
    if ps == [] then Sent([], true)
    else
      var first := PartSend(ps[0], registry, action, fuel);
      if !first.returned then first
      else
        var rest := ManagerSend(ps[1..], registry, action, fuel);
        Sent(first.calls + rest.calls, rest.returned)
  }

  /**
   * `Part.sendMessage(action, obj)` of Part.kt: it calls the `sendMessage`
   * of its `partManager`, which `registPart` set to this manager. The nested
   * call needs a stack frame; with none left it overflows.
   */
  function PartSend(p: Part, registry: seq<Part>, action: string, fuel: nat): Sent
    decreases fuel, 0
  {
    if fuel == 0 then Sent([PartCall(PartSendMessage(action), p)], false)
    else
      var inner := ManagerSend(registry, registry, action, fuel - 1);
      Sent([PartCall(PartSendMessage(action), p)] + inner.calls, inner.returned)
  }

  /** `sendMessage(action, obj)` as evidently intended: `handleMessage(action, obj)` on every part, in order. */
  function SendMessage(ps: seq<Part>, action: string): seq<PartCall>
  {
    FanOut(HandleMessage(action), ps)
  }

  // ------------------------------------------------------------ view models

  /** The key `IPartHost.getViewModel` asks the `ViewModelProvider` for. */
  function ViewModelKey(keyPrefix: Option<string>, canonicalName: string): string
  {
    if keyPrefix.None? || keyPrefix.value == [] then canonicalName else keyPrefix.value + canonicalName
  }

  /** A view-model request forwarded to a host: which host, the store key and the class. */
  datatype ViewModelRequest = ViewModelRequest(host: Host, key: string, canonicalName: string)
}
