/** The ONNXIFI entry points: each checks its arguments in a fixed order
    and answers with a status from a closed enumeration.

    A pointer argument is an `Option`: `None` is the null pointer.  The
    backend, graph and event objects are opaque; their own behaviour
    (`initGraph`, `setIO`, `signal`, the model parser) is passed in as the
    result the call site receives.  Each entry point returns the status
    together with what it writes through its out-pointers.
 */
module Onnxifi {
  import opened Optional

  /** The status codes these entry points return, named as in onnxifi.h. */
  datatype Status =
    | Success
    | Fallback
    | InvalidId
    | InvalidSize
    | InvalidPointer
    | InvalidBackend
    | InvalidGraph
    | InvalidEvent
    | InvalidState
    | UnsupportedTag
    | UnsupportedParameter
    | UnsupportedOperator
    | Other(code: nat)

  /** The opaque objects behind the handles. */
  datatype BackendId = BackendId(id: nat)
  datatype Backend = Backend(backendId: BackendId)
  datatype Graph = Graph(backend: Backend)
  datatype Event = Event

  // ---------------------------------------------------------------------------
  // The check cascade

  /** A fixed-order sequence of validity checks ending in a final status:
      each check says whether it fails and which status it then returns. */
  datatype Cascade = Return(final: Status) | Check(fails: bool, code: Status, rest: Cascade)

  /** The status a cascade answers with: the code of the first failing
      check, or the final status when none fails. */
  function Outcome(c: Cascade): Status
  {
    match c
    case Return(s) => s
    case Check(fails, code, rest) => if fails then code else Outcome(rest)
  }

  /** One step of Outcome. */
  lemma OutcomeUnfold(c: Cascade)
    ensures Outcome(c) == if c.Return? then c.final else if c.fails then c.code else Outcome(c.rest)
  {
  }

  /** A single check of a cascade, without its continuation. */
  datatype Step = Step(fails: bool, code: Status)

  /** The checks of a cascade in order, and its final status. */
  function Steps(c: Cascade): seq<Step>
  {
    match c
    case Return(_) => []
    case Check(fails, code, rest) => [Step(fails, code)] + Steps(rest)
  }

  function Final(c: Cascade): Status
  {
    match c
    case Return(s) => s
    case Check(_, _, rest) => Final(rest)
  }

  /** Once the first `i` checks pass, the cascade answers with the code of
      check `i` if it fails, or with the final status when no check is left. */
  lemma {:induction false} OutcomeFirstFailure(c: Cascade, i: nat)
    requires i <= |Steps(c)|
    requires forall j :: 0 <= j < i ==> !Steps(c)[j].fails
    ensures i < |Steps(c)| && Steps(c)[i].fails ==> Outcome(c) == Steps(c)[i].code
    ensures i == |Steps(c)| ==> Outcome(c) == Final(c)
    decreases c
  {
    if i > 0 {
      assert !Steps(c)[0].fails;
      assert forall j :: 0 <= j < i - 1 ==> Steps(c.rest)[j] == Steps(c)[j + 1];
      OutcomeFirstFailure(c.rest, i - 1);
    } else if c.Check? {
      assert Steps(c)[0] == Step(c.fails, c.code);
    }
  }

  // ---------------------------------------------------------------------------
  // Backend identifiers

  /** What onnxGetBackendIDs writes: the new count and the IDs stored in
      the caller's array. */
  datatype IdsReply = IdsReply(status: Status, numBackends: Option<nat>, written: seq<BackendId>)

  /** onnxGetBackendIDs as written: the capacity passed in `numBackends`
      is read by no branch, so one ID is stored even into an array with
      room for none. */
  function GetBackendIDsAsWritten(hasArray: bool, numBackends: Option<nat>): (r: IdsReply)
    ensures numBackends.None? ==> r == IdsReply(InvalidPointer, None, [])
    ensures numBackends.Some? && !hasArray ==> r == IdsReply(Fallback, Some(1), [])
    ensures numBackends.Some? && hasArray ==> r == IdsReply(Success, Some(1), [BackendId(1)])
  {
    if numBackends.None? then IdsReply(InvalidPointer, None, [])
    else if !hasArray then IdsReply(Fallback, Some(1), [])
    else IdsReply(Success, Some(1), [BackendId(1)])
  }

  /** With a non-null array of capacity 0, the as-written entry point
      reports success and stores one ID beyond the array. */
  lemma GetBackendIDsOverrunsCapacity()
    ensures var r := GetBackendIDsAsWritten(true, Some(0));
      r.status == Success && |r.written| > 0
  {
  }

  /** onnxGetBackendIDs with the capacity honoured, as its documentation
      describes `numBackends` on input: a null array or one with room for
      fewer than the single backend reports the count and falls back. */
  function GetBackendIDs(hasArray: bool, numBackends: Option<nat>): (r: IdsReply)
    ensures numBackends.None? <==> r.status == InvalidPointer
    ensures numBackends.None? ==> r.numBackends.None? && r.written == []
    ensures numBackends.Some? ==> r.numBackends == Some(1)
    ensures r.status == Success <==> hasArray && numBackends.Some? && numBackends.value >= 1
    ensures r.status != Success ==> r.written == []
    ensures r.status == Success ==> r.written == [BackendId(1)]
    ensures numBackends.Some? ==> |r.written| <= numBackends.value
  {
    if numBackends.None? then IdsReply(InvalidPointer, None, [])
    else if !hasArray || numBackends.value < 1 then IdsReply(Fallback, Some(1), [])
    else IdsReply(Success, Some(1), [BackendId(1)])
  }

  /** Where the caller's array is large enough, the corrected entry point
      answers as the source does. */
  lemma GetBackendIDsAgrees(hasArray: bool, numBackends: Option<nat>)
    requires hasArray && numBackends.Some? ==> numBackends.value >= 1
    ensures GetBackendIDs(hasArray, numBackends) == GetBackendIDsAsWritten(hasArray, numBackends)
  {
  }

  /** Query first, then call with an array of the reported size: the
      second call succeeds. */
  lemma GetBackendIDsNegotiation(capacity: nat)
    ensures var q := GetBackendIDs(false, Some(capacity));
      q.status == Fallback && q.numBackends.Some? &&
      GetBackendIDs(true, q.numBackends).status == Success
  {
  }

  /** onnxReleaseBackendID. */
  function ReleaseBackendID(id: Option<BackendId>): (s: Status)
    ensures s == Success <==> id.Some?
    ensures s != Success ==> s == InvalidId
  {
    if id.None? then InvalidId else Success
  }

  // ---------------------------------------------------------------------------
  // Backend information

  /** The value an information query stores. */
  datatype InfoValue = Text(chars: seq<char>) | Word(flag: Flag)

  /** The 64-bit flags the backend reports, named as in onnxifi.h. */
  datatype Flag = MemoryTypeCpu | SynchronizationEvent

  /** What a query returns: the status, the value left in `*infoValueSize`
      (None when that pointer is null) and what was stored in the buffer. */
  datatype InfoReply = InfoReply(status: Status, size: Option<nat>, written: Option<InfoValue>)

  /** The size of a 64-bit word. */
  const WordBytes: nat := 8

  /** The bytes a string occupies with its terminating NUL. */
  function CString(str: string): (b: seq<char>)
    ensures |b| == |str| + 1 && b[..|str|] == str && b[|str|] == '\0'
  {
    str + ['\0']
  }

  /** The negotiation shared by setBackendInfoString and
      setBackendInfoUInt64: a value needing `needed` bytes is stored only
      into a non-null buffer whose capacity `*infoValueSize` is at least
      `needed`; either way the size becomes `needed`. */
  function SetInfo(hasBuffer: bool, capacity: nat, needed: nat, value: InfoValue): (r: InfoReply)
    ensures r.size == Some(needed)
    ensures r.status == Success <==> hasBuffer && capacity >= needed
    ensures r.status != Success ==> r.status == Fallback && r.written.None?
    ensures r.status == Success ==> r.written == Some(value)
  {
    if !hasBuffer || capacity < needed then InfoReply(Fallback, Some(needed), None)
    else InfoReply(Success, Some(needed), Some(value))
  }

  /** setBackendInfoString: `strlen + 1` bytes, the NUL included. */
  function SetInfoString(hasBuffer: bool, capacity: nat, str: string): (r: InfoReply)
    ensures r == SetInfo(hasBuffer, capacity, |str| + 1, Text(CString(str)))
  {
    SetInfo(hasBuffer, capacity, |CString(str)|, Text(CString(str)))
  }

  /** setBackendInfoUInt64: one 64-bit word. */
  function SetInfoWord(hasBuffer: bool, capacity: nat, flag: Flag): (r: InfoReply)
    ensures r == SetInfo(hasBuffer, capacity, WordBytes, Word(flag))
  {
    SetInfo(hasBuffer, capacity, 8, Word(flag))
  }

  /** A caller that first asks with a null buffer and then supplies a
      buffer of the size it was told gets the value. */
  lemma SetInfoNegotiation(capacity: nat, needed: nat, value: InfoValue)
    ensures var q := SetInfo(false, capacity, needed, value);
      && q.status == Fallback && q.size == Some(needed)
      && SetInfo(true, q.size.value, needed, value) == InfoReply(Success, Some(needed), Some(value))
  {
  }

  /** The information kinds of onnxifi.h; `OtherInfo` stands for every
      kind this backend does not answer. */
  datatype InfoKind = Name | Vendor | Version | Device | MemoryTypes | SynchronizationTypes | OtherInfo(code: nat)

  /** What the backend reports for each kind it answers. */
  function InfoOf(kind: InfoKind): (v: Option<InfoValue>)
    ensures v.None? <==> kind.OtherInfo?
  {
    match kind
    case Name => Some(Text(CString("Glow")))
    case Vendor => Some(Text(CString("PyTorch")))
    case Version => Some(Text(CString("1.0.0")))
    case Device => Some(Text(CString("Glow")))
    case MemoryTypes => Some(Word(MemoryTypeCpu))
    case SynchronizationTypes => Some(Word(SynchronizationEvent))
    case OtherInfo(_) => None
  }

  /** onnxGetBackendInfo: the size pointer, then the ID, then the kind. */
  function GetBackendInfo(id: Option<BackendId>, kind: InfoKind, hasBuffer: bool, size: Option<nat>)
    : (r: InfoReply)
    ensures size.None? || id.None? <==> r.status == InvalidPointer
    ensures size.None? || id.None? ==> r.size == size && r.written.None?
    ensures size.Some? && id.Some? && kind.OtherInfo? ==> r == InfoReply(UnsupportedParameter, size, None)
    ensures size.Some? && id.Some? && !kind.OtherInfo? ==>
      var v := InfoOf(kind).value;
      var needed := if v.Text? then |v.chars| else WordBytes;
      r == SetInfo(hasBuffer, size.value, needed, v)
  {
    if size.None? then InfoReply(InvalidPointer, size, None)
    else if id.None? then InfoReply(InvalidPointer, size, None)
    else match kind
      case Name => SetInfoString(hasBuffer, size.value, "Glow")
      case Vendor => SetInfoString(hasBuffer, size.value, "PyTorch")
      case Version => SetInfoString(hasBuffer, size.value, "1.0.0")
      case Device => SetInfoString(hasBuffer, size.value, "Glow")
      case MemoryTypes => SetInfoWord(hasBuffer, size.value, MemoryTypeCpu)
      case SynchronizationTypes => SetInfoWord(hasBuffer, size.value, SynchronizationEvent)
      case OtherInfo(_) => InfoReply(UnsupportedParameter, size, None)
  }

  /** The bytes the answer to `kind` occupies. */
  function Needed(kind: InfoKind): nat
  {
    if InfoOf(kind).Some? && InfoOf(kind).value.Text? then |InfoOf(kind).value.chars| else WordBytes
  }

  /** The checks onnxGetBackendInfo makes, in order, ended by the buffer
      negotiation. */
  function GetBackendInfoChecks(id: Option<BackendId>, kind: InfoKind, hasBuffer: bool, size: Option<nat>)
    : Cascade
  {
    Check(size.None?, InvalidPointer,
    Check(id.None?, InvalidPointer,
    Check(kind.OtherInfo?, UnsupportedParameter,
    Check(!(size.Some? && hasBuffer && size.value >= Needed(kind)), Fallback,
    Return(Success)))))
  }

  /** GetBackendInfo answers with the first failing check of GetBackendInfoChecks. */
  lemma GetBackendInfoCascade(id: Option<BackendId>, kind: InfoKind, hasBuffer: bool, size: Option<nat>)
    ensures GetBackendInfo(id, kind, hasBuffer, size).status ==
      Outcome(GetBackendInfoChecks(id, kind, hasBuffer, size))
  {
    var c := GetBackendInfoChecks(id, kind, hasBuffer, size);
    OutcomeUnfold(c);
    OutcomeUnfold(c.rest);
    OutcomeUnfold(c.rest.rest);
    OutcomeUnfold(c.rest.rest.rest);
    OutcomeUnfold(c.rest.rest.rest.rest);
  }

  /** The backend name is "Glow": five bytes with the NUL. */
  lemma BackendNameNeedsFiveBytes()
    ensures GetBackendInfo(Some(BackendId(1)), Name, false, Some(0)) == InfoReply(Fallback, Some(5), None)
    ensures GetBackendInfo(Some(BackendId(1)), Name, true, Some(5)) ==
      InfoReply(Success, Some(5), Some(Text(['G', 'l', 'o', 'w', '\0'])))
  {
    assert CString("Glow") == ['G', 'l', 'o', 'w', '\0'];
  }

  // ---------------------------------------------------------------------------
  // Compatibility

  /** onnxGetBackendCompatibility: the model pointer, then its size, then
      whether the model loader accepted it (`parses`). */
  function GetBackendCompatibility(hasModel: bool, modelSize: nat, parses: bool): (s: Status)
    ensures s == Success <==> hasModel && modelSize > 0 && parses
  {
    if !hasModel then InvalidPointer
    else if modelSize == 0 then InvalidSize
    else if !parses then UnsupportedOperator
    else Success
  }

  /** The checks GetBackendCompatibility makes, in order. */
  function GetBackendCompatibilityChecks(hasModel: bool, modelSize: nat, parses: bool): Cascade
  {
    Check(!hasModel, InvalidPointer,
    Check(modelSize == 0, InvalidSize,
    Check(!parses, UnsupportedOperator,
    Return(Success))))
  }

  /** GetBackendCompatibility answers with the first failing check of GetBackendCompatibilityChecks. */
  lemma GetBackendCompatibilityCascade(hasModel: bool, modelSize: nat, parses: bool)
    ensures GetBackendCompatibility(hasModel, modelSize, parses) ==
      Outcome(GetBackendCompatibilityChecks(hasModel, modelSize, parses))
  {
    var c := GetBackendCompatibilityChecks(hasModel, modelSize, parses);
    OutcomeUnfold(c);
    OutcomeUnfold(c.rest);
    OutcomeUnfold(c.rest.rest);
    OutcomeUnfold(c.rest.rest.rest);
  }

  // ---------------------------------------------------------------------------
  // Backends and events

  /** The status of a creating entry point and the handle it writes. */
  datatype Created<T> = Created(status: Status, handle: Option<T>)

  /** onnxInitBackend: the out-pointer, then the ID. */
  function InitBackend(id: Option<BackendId>, hasOut: bool): (r: Created<Backend>)
    ensures r.handle.Some? <==> r.status == Success
    ensures r.handle.Some? ==> id.Some? && r.handle.value.backendId == id.value
  {
    if !hasOut then Created(InvalidPointer, None)
    else if id.None? then Created(InvalidId, None)
    else Created(Success, Some(Backend(id.value)))
  }

  /** The checks InitBackend makes, in order. */
  function InitBackendChecks(id: Option<BackendId>, hasOut: bool): Cascade
  {
    Check(!hasOut, InvalidPointer,
    Check(id.None?, InvalidId,
    Return(Success)))
  }

  /** InitBackend answers with the first failing check of InitBackendChecks. */
  lemma InitBackendCascade(id: Option<BackendId>, hasOut: bool)
    ensures InitBackend(id, hasOut).status == Outcome(InitBackendChecks(id, hasOut))
  {
    var c := InitBackendChecks(id, hasOut);
    OutcomeUnfold(c);
    OutcomeUnfold(c.rest);
    OutcomeUnfold(c.rest.rest);
  }

  /** onnxReleaseBackend. */
  function ReleaseBackend(backend: Option<Backend>): (s: Status)
    ensures s == Success <==> backend.Some?
    ensures s != Success ==> s == InvalidBackend
  {
    if backend.None? then InvalidBackend else Success
  }

  /** onnxInitEvent: the out-pointer, then the backend. */
  function InitEvent(backend: Option<Backend>, hasOut: bool): (r: Created<Event>)
    ensures r.handle.Some? <==> r.status == Success
  {
    if !hasOut then Created(InvalidPointer, None)
    else if backend.None? then Created(InvalidBackend, None)
    else Created(Success, Some(Event))
  }

  /** The checks InitEvent makes, in order. */
  function InitEventChecks(backend: Option<Backend>, hasOut: bool): Cascade
  {
    Check(!hasOut, InvalidPointer,
    Check(backend.None?, InvalidBackend,
    Return(Success)))
  }

  /** InitEvent answers with the first failing check of InitEventChecks. */
  lemma InitEventCascade(backend: Option<Backend>, hasOut: bool)
    ensures InitEvent(backend, hasOut).status == Outcome(InitEventChecks(backend, hasOut))
  {
    var c := InitEventChecks(backend, hasOut);
    OutcomeUnfold(c);
    OutcomeUnfold(c.rest);
    OutcomeUnfold(c.rest.rest);
  }

  /** onnxSignalEvent: `signalResult` is the value the event's signal()
      returns; the entry point answers INVALID_STATE exactly when it is
      true. */
  function SignalEvent(event: Option<Event>, signalResult: bool): (s: Status)
    ensures s == Success <==> event.Some? && !signalResult
    ensures s == InvalidState <==> event.Some? && signalResult
  {
    if event.None? then InvalidEvent
    else if signalResult then InvalidState
    else Success
  }

  /** The checks SignalEvent makes, in order. */
  function SignalEventChecks(event: Option<Event>, signalResult: bool): Cascade
  {
    Check(event.None?, InvalidEvent,
    Check(signalResult, InvalidState,
    Return(Success)))
  }

  /** SignalEvent answers with the first failing check of SignalEventChecks. */
  lemma SignalEventCascade(event: Option<Event>, signalResult: bool)
    ensures SignalEvent(event, signalResult) ==
      Outcome(SignalEventChecks(event, signalResult))
  {
    var c := SignalEventChecks(event, signalResult);
    OutcomeUnfold(c);
    OutcomeUnfold(c.rest);
    OutcomeUnfold(c.rest.rest);
  }

  /** onnxWaitEvent: the wait itself is left to the event. */
  function WaitEvent(event: Option<Event>): (s: Status)
    ensures s == Success <==> event.Some?
    ensures s != Success ==> s == InvalidEvent
  {
    if event.None? then InvalidEvent else Success
  }

  /** onnxReleaseEvent. */
  function ReleaseEvent(event: Option<Event>): (s: Status)
    ensures s == Success <==> event.Some?
    ensures s != Success ==> s == InvalidEvent
  {
    if event.None? then InvalidEvent else Success
  }

  // ---------------------------------------------------------------------------
  // Graphs

  /** What onnxInitGraph leaves behind: the status, the handle written to
      `*graph`, and the graph objects it created that are still alive. */
  datatype GraphReply = GraphReply(status: Status, handle: Option<Graph>, alive: seq<Graph>)

  /** Whether the arguments of onnxInitGraph pass its checks. */
  predicate InitGraphArgsValid(backend: Option<Backend>, hasModel: bool, modelSize: nat,
                               hasWeights: bool, hasOut: bool)
  {
    hasModel && hasWeights && hasOut && modelSize > 0 && backend.Some?
  }

  /** onnxInitGraph as written: once the checks pass, a graph object is
      created and initialized (`init` is the status initGraph returns); on
      failure that status is returned and the object stays alive with no
      handle to it. */
  function InitGraphAsWritten(backend: Option<Backend>, hasModel: bool, modelSize: nat,
                              hasWeights: bool, hasOut: bool, init: Status): (r: GraphReply)
    ensures r.handle.Some? <==> r.status == Success
    ensures InitGraphArgsValid(backend, hasModel, modelSize, hasWeights, hasOut) ==>
      r.alive == [Graph(backend.value)]
  {
    if !hasModel || !hasWeights || !hasOut then GraphReply(InvalidPointer, None, [])
    else if modelSize == 0 then GraphReply(InvalidSize, None, [])
    else if backend.None? then GraphReply(InvalidBackend, None, [])
    else
      var g := Graph(backend.value);
      if init != Success then GraphReply(init, None, [g])
      else GraphReply(Success, Some(g), [g])
  }

  /** Every graph object the call leaves alive is one the caller holds. */
  predicate NoLeak(r: GraphReply)
  {
    forall i :: 0 <= i < |r.alive| ==> r.handle == Some(r.alive[i])
  }

  /** When initGraph fails, the as-written entry point returns its status
      and leaves one graph object alive that nothing refers to. */
  lemma InitGraphLeaksOnFailure(backend: Backend)
    ensures var r := InitGraphAsWritten(Some(backend), true, 1, true, true, InvalidSize);
      r.status == InvalidSize && r.handle.None? && |r.alive| == 1 && !NoLeak(r)
  {
    var r := InitGraphAsWritten(Some(backend), true, 1, true, true, InvalidSize);
    assert r.handle != Some(r.alive[0]);
  }

  /** onnxInitGraph with the created object released when initGraph fails. */
  function InitGraph(backend: Option<Backend>, hasModel: bool, modelSize: nat,
                     hasWeights: bool, hasOut: bool, init: Status): (r: GraphReply)
    ensures r.handle.Some? <==> r.status == Success
    ensures r.handle.Some? ==> backend.Some? && r.handle.value.backend == backend.value
    ensures NoLeak(r)
  {
    var w := InitGraphAsWritten(backend, hasModel, modelSize, hasWeights, hasOut, init);
    if w.status == Success then w else GraphReply(w.status, None, [])
  }

  /** The checks InitGraph makes, in order. */
  function InitGraphChecks(backend: Option<Backend>, hasModel: bool, modelSize: nat,
                           hasWeights: bool, hasOut: bool, init: Status): Cascade
  {
    Check(!hasModel || !hasWeights || !hasOut, InvalidPointer,
    Check(modelSize == 0, InvalidSize,
    Check(backend.None?, InvalidBackend,
    Check(init != Success, init,
    Return(Success)))))
  }

  /** InitGraph answers with the first failing check of InitGraphChecks. */
  lemma InitGraphCascade(backend: Option<Backend>, hasModel: bool, modelSize: nat,
                         hasWeights: bool, hasOut: bool, init: Status)
    ensures InitGraph(backend, hasModel, modelSize, hasWeights, hasOut, init).status ==
      Outcome(InitGraphChecks(backend, hasModel, modelSize, hasWeights, hasOut, init))
  {
    var c := InitGraphChecks(backend, hasModel, modelSize, hasWeights, hasOut, init);
    OutcomeUnfold(c);
    OutcomeUnfold(c.rest);
    OutcomeUnfold(c.rest.rest);
    OutcomeUnfold(c.rest.rest.rest);
    OutcomeUnfold(c.rest.rest.rest.rest);
  }

  /** The correction changes what is left alive, never the status or the
      handle. */
  lemma InitGraphAgrees(backend: Option<Backend>, hasModel: bool, modelSize: nat,
                        hasWeights: bool, hasOut: bool, init: Status)
    ensures var w := InitGraphAsWritten(backend, hasModel, modelSize, hasWeights, hasOut, init);
      var r := InitGraph(backend, hasModel, modelSize, hasWeights, hasOut, init);
      r.status == w.status && r.handle == w.handle && (w.status == Success ==> r.alive == w.alive)
  {
  }

  /** onnxSetGraphIO: the descriptor arrays, then the graph, then what the
      graph's setIO returns (`setIO`). */
  function SetGraphIO(graph: Option<Graph>, hasInputs: bool, hasOutputs: bool, setIO: Status): (s: Status)
    ensures !hasInputs || !hasOutputs ==> s == InvalidPointer
    ensures hasInputs && hasOutputs && graph.None? ==> s == InvalidGraph
    ensures hasInputs && hasOutputs && graph.Some? ==> s == setIO
    ensures s == Success <==> hasInputs && hasOutputs && graph.Some? && setIO == Success
  {
    if !hasInputs || !hasOutputs then InvalidPointer
    else if graph.None? then InvalidGraph
    else setIO
  }

  /** The checks SetGraphIO makes, in order. */
  function SetGraphIOChecks(graph: Option<Graph>, hasInputs: bool, hasOutputs: bool, setIO: Status): Cascade
  {
    Check(!hasInputs || !hasOutputs, InvalidPointer,
    Check(graph.None?, InvalidGraph,
    Return(setIO)))
  }

  /** SetGraphIO answers with the first failing check of SetGraphIOChecks. */
  lemma SetGraphIOCascade(graph: Option<Graph>, hasInputs: bool, hasOutputs: bool, setIO: Status)
    ensures SetGraphIO(graph, hasInputs, hasOutputs, setIO) ==
      Outcome(SetGraphIOChecks(graph, hasInputs, hasOutputs, setIO))
  {
    var c := SetGraphIOChecks(graph, hasInputs, hasOutputs, setIO);
    OutcomeUnfold(c);
    OutcomeUnfold(c.rest);
    OutcomeUnfold(c.rest.rest);
  }

  /** A memory fence: its synchronization type and its structure tag. */
  datatype Fence = Fence(kind: FenceKind, tag: FenceTag)
  datatype FenceKind = EventFence | OtherFenceKind(code: nat)
  datatype FenceTag = MemoryFenceV1 | OtherTag(code: nat)

  /** A fence this backend accepts. */
  predicate Supported(f: Fence)
  {
    f.kind == EventFence && f.tag == MemoryFenceV1
  }

  /** onnxRunGraph: the fences, then the graph, then the fences' type and
      tag; running itself does nothing further. */
  function RunGraph(graph: Option<Graph>, input: Option<Fence>, output: Option<Fence>): (s: Status)
    ensures s == Success <==>
      graph.Some? && input.Some? && output.Some? && Supported(input.value) && Supported(output.value)
  {
    if input.None? || output.None? then InvalidPointer
    else if graph.None? then InvalidGraph
    else if input.value.kind != EventFence || input.value.tag != MemoryFenceV1
         || output.value.kind != EventFence || output.value.tag != MemoryFenceV1 then UnsupportedTag
    else Success
  }

  /** The checks RunGraph makes, in order. */
  function RunGraphChecks(graph: Option<Graph>, input: Option<Fence>, output: Option<Fence>): Cascade
  {
    Check(input.None? || output.None?, InvalidPointer,
    Check(graph.None?, InvalidGraph,
    Check(input.Some? && output.Some? && !(Supported(input.value) && Supported(output.value)), UnsupportedTag,
    Return(Success))))
  }

  /** RunGraph answers with the first failing check of RunGraphChecks. */
  lemma RunGraphCascade(graph: Option<Graph>, input: Option<Fence>, output: Option<Fence>)
    ensures RunGraph(graph, input, output) == Outcome(RunGraphChecks(graph, input, output))
  {
    var c := RunGraphChecks(graph, input, output);
    OutcomeUnfold(c);
    OutcomeUnfold(c.rest);
    OutcomeUnfold(c.rest.rest);
    OutcomeUnfold(c.rest.rest.rest);
  }

  /** onnxReleaseGraph. */
  function ReleaseGraph(graph: Option<Graph>): (s: Status)
    ensures s == Success <==> graph.Some?
    ensures s != Success ==> s == InvalidGraph
  {
    if graph.None? then InvalidGraph else Success
  }

  // ---------------------------------------------------------------------------
  // Handle lifecycles

  /** Every handle an entry point hands out is accepted by its release, and
      the null handle is rejected with the kind's own code. */
  lemma CreatedHandlesRelease(id: Option<BackendId>, backend: Option<Backend>, hasModel: bool,
                              modelSize: nat, hasWeights: bool, init: Status)
    ensures var ids := GetBackendIDs(true, Some(1));
      ids.status == Success && ReleaseBackendID(Some(ids.written[0])) == Success
    ensures var b := InitBackend(id, true);
      b.status == Success ==> ReleaseBackend(b.handle) == Success
    ensures var e := InitEvent(backend, true);
      e.status == Success ==> ReleaseEvent(e.handle) == Success && WaitEvent(e.handle) == Success
    ensures var g := InitGraph(backend, hasModel, modelSize, hasWeights, true, init);
      g.status == Success ==> ReleaseGraph(g.handle) == Success
    ensures ReleaseBackendID(None) == InvalidId && ReleaseBackend(None) == InvalidBackend
    ensures ReleaseEvent(None) == InvalidEvent && ReleaseGraph(None) == InvalidGraph
  {
  }
}
