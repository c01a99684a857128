/** Frontend requests and the payloads in them that the plaintext check covers: a flattening of
    each request into labelled payload lists, in visiting order. */
module PlaintextRequests {
  import opened Wrappers
  import opened Filtering

  datatype Payload = Payload(metadata: map<string, string>, data: string)

  /** A list of payloads that may be absent. */
  type Payloads = Option<seq<Payload>>

  function EncodingOf(payload: Payload): string {
    if "encoding" in payload.metadata then payload.metadata["encoding"] else ""
  }

  predicate IsUnencrypted(encoding: string) {
    encoding == "json/plain" || encoding == "binary/plain"
  }

  // ---- Requests ----

  datatype FailureInfo =
    | ApplicationFailureInfo(details: Payloads)
    | CanceledFailureInfo(details: Payloads)
    | TimeoutFailureInfo(lastHeartbeatDetails: Payloads)
    | OtherFailureInfo

  datatype Failure = Failure(encodedAttributes: Option<Payload>, info: FailureInfo, cause: Option<Failure>)

  datatype CommandAttributes =
    | ScheduleActivityTask(input: Payloads)
    | CompleteWorkflowExecution(result: Payloads)
    | CancelWorkflowExecution(details: Payloads)
    | SignalExternalWorkflowExecution(input: Payloads)
    | StartChildWorkflowExecution(input: Payloads, workflowType: string, taskQueue: string)
    | ContinueAsNewWorkflowExecution(input: Payloads, workflowType: string)
    | OtherAttributes

  /** `commandType` is the name of the command's type, whatever its attributes are. */
  datatype Command = Command(commandType: string, attributes: CommandAttributes)

  datatype NewWorkflow = NewWorkflow(workflowType: string, taskQueue: string, input: Payloads)

  datatype ScheduleAction = StartWorkflowAction(workflow: Option<NewWorkflow>) | OtherAction

  datatype StartRequest = StartRequest(ns: string, workflowType: string, taskQueue: string, input: Payloads)

  datatype UpdateRequest = UpdateRequest(ns: string, args: Payloads)

  datatype Operation = StartOperation(start: StartRequest) | UpdateOperation(update: UpdateRequest) | UnsetOperation

  datatype Request =
    | StartWorkflow(start: StartRequest)
    | SignalWithStart(start: StartRequest, signalInput: Payloads)
    | SignalWorkflow(ns: string, input: Payloads)
    | QueryWorkflow(ns: string, queryArgs: Payloads)
    | UpdateWorkflow(update: UpdateRequest)
    | RespondActivityTaskCompleted(ns: string, result: Payloads)
    | RespondWorkflowTaskCompleted(ns: string, commands: seq<Command>)
    | CreateSchedule(ns: string, action: Option<ScheduleAction>)
    | UpdateSchedule(ns: string, action: Option<ScheduleAction>)
    | RecordActivityTaskHeartbeat(ns: string, details: Payloads)
    | ExecuteMultiOperation(ns: string, operations: seq<Operation>)
    | RespondWorkflowTaskFailed(ns: string, failure: Option<Failure>)
    | RespondActivityTaskFailed(ns: string, failure: Option<Failure>, lastHeartbeatDetails: Payloads)
    | OtherRequest

  // ---- Flattening ----

  /** The tags of a covered position, apart from the encoding found there. */
  datatype Tags = Tags(ns: string, workflowType: string, taskQueue: string, operation: string, location: string)

  /** A payload list at a labelled position. */
  datatype Labelled = Labelled(tags: Tags, payloads: Payloads)

  function Plainly(ns: string, op: string, location: string, payloads: Payloads): Labelled {
    Labelled(Tags(ns, "", "", op, location), payloads)
  }

  /** The payload list of a command, with the workflow type and task queue it names. */
  function CommandList(ns: string, op: string, command: Command): seq<Labelled> {
    var location := command.commandType;
    match command.attributes
    case ScheduleActivityTask(input) => [Plainly(ns, op, location, input)]
    case CompleteWorkflowExecution(result) => [Plainly(ns, op, location, result)]
    case CancelWorkflowExecution(details) => [Plainly(ns, op, location, details)]
    case SignalExternalWorkflowExecution(input) => [Plainly(ns, op, location, input)]
    case StartChildWorkflowExecution(input, workflowType, taskQueue) =>
      [Labelled(Tags(ns, workflowType, taskQueue, op, location), input)]
    case ContinueAsNewWorkflowExecution(input, workflowType) =>
      [Labelled(Tags(ns, workflowType, "", op, location), input)]
    case OtherAttributes => []
  }

  function CommandLists(ns: string, op: string, commands: seq<Command>): seq<Labelled> {
    if commands == [] then []
    else CommandList(ns, op, commands[0]) + CommandLists(ns, op, commands[1..])
  }

  /** The details that belong to a failure's info. */
  function InfoList(ns: string, op: string, info: FailureInfo): seq<Labelled> {
    match info
    case ApplicationFailureInfo(details) => [Plainly(ns, op, "ApplicationFailureInfo.details", details)]
    case CanceledFailureInfo(details) => [Plainly(ns, op, "CanceledFailureInfo.details", details)]
    case TimeoutFailureInfo(details) => [Plainly(ns, op, "TimeoutFailureInfo.last_heartbeat_details", details)]
    case OtherFailureInfo => []
  }

  /** One failure without its cause: the encoded attributes, then the details. */
  function NodeLists(ns: string, op: string, failure: Failure): seq<Labelled> {
    (match failure.encodedAttributes
     case None => []
     case Some(payload) => [Plainly(ns, op, "encoded_attributes", Some([payload]))])
    + InfoList(ns, op, failure.info)
  }

  /** A failure and its causes, outermost first. */
  function Chain(failure: Option<Failure>): seq<Failure> {
    match failure
    case None => []
    case Some(node) => [node] + Chain(node.cause)
  }

  function ChainLists(ns: string, op: string, chain: seq<Failure>): seq<Labelled> {
    if chain == [] then [] else NodeLists(ns, op, chain[0]) + ChainLists(ns, op, chain[1..])
  }

  function FailureLists(ns: string, op: string, failure: Option<Failure>): seq<Labelled> {
    ChainLists(ns, op, Chain(failure))
  }

  /** Only starting a workflow carries a payload. */
  function ActionLists(ns: string, op: string, action: Option<ScheduleAction>): seq<Labelled> {
    if action.Some? && action.value.StartWorkflowAction? && action.value.workflow.Some? then
      var workflow := action.value.workflow.value;
      [Labelled(Tags(ns, workflow.workflowType, workflow.taskQueue, op, "input"), workflow.input)]
    else []
  }

  function StartList(op: string, start: StartRequest): Labelled {
    Labelled(Tags(start.ns, start.workflowType, start.taskQueue, op, "input"), start.input)
  }

  /** The request inside a multi-operation. */
  function Inner(operation: Operation): Request {
    match operation
    case StartOperation(start) => StartWorkflow(start)
    case UpdateOperation(update) => UpdateWorkflow(update)
    case UnsetOperation => OtherRequest
  }

  /** A multi-operation covers what its inner requests cover, under the outer operation name. */
  function OperationLists(op: string, operations: seq<Operation>): seq<Labelled> {
    if operations == [] then []
    else SimpleLists(op, Inner(operations[0])) + OperationLists(op, operations[1..])
  }

  /** The covered payload lists of a request that is not a multi-operation. */
  function SimpleLists(op: string, request: Request): seq<Labelled> {
    match request
    case StartWorkflow(start) => [StartList(op, start)]
    case SignalWithStart(start, signalInput) =>
      var tags := StartList(op, start).tags;
      [StartList(op, start), Labelled(tags.(location := "signal_input"), signalInput)]
    case SignalWorkflow(ns, input) => [Plainly(ns, op, "input", input)]
    case QueryWorkflow(ns, queryArgs) => [Plainly(ns, op, "query_args", queryArgs)]
    case UpdateWorkflow(update) => [Plainly(update.ns, op, "update_args", update.args)]
    case RespondActivityTaskCompleted(ns, result) => [Plainly(ns, op, "result", result)]
    case RespondWorkflowTaskCompleted(ns, commands) => CommandLists(ns, op, commands)
    case CreateSchedule(ns, action) => ActionLists(ns, op, action)
    case UpdateSchedule(ns, action) => ActionLists(ns, op, action)
    case RecordActivityTaskHeartbeat(ns, details) => [Plainly(ns, op, "details", details)]
    case RespondWorkflowTaskFailed(ns, failure) => FailureLists(ns, op, failure)
    case RespondActivityTaskFailed(ns, failure, details) =>
      FailureLists(ns, op, failure) + [Plainly(ns, op, "last_heartbeat_details", details)]
    case ExecuteMultiOperation(_, _) => []
    case OtherRequest => []
  }

  /** The covered payload lists of a request, in visiting order. */
  function Lists(op: string, request: Request): seq<Labelled> {
    if request.ExecuteMultiOperation? then OperationLists(op, request.operations) else SimpleLists(op, request)
  }

  // ---- What is emitted ----

  /** One detection: a labelled position with the encoding found there. */
  datatype Detection = Detection(tags: Tags, encoding: string)

  /** Every payload position of a list, in order. */
  function Positions(labelled: Labelled): seq<Detection> {
    match labelled.payloads
    case None => []
    case Some(payloads) =>
      seq(|payloads|, i requires 0 <= i < |payloads| => Detection(labelled.tags, EncodingOf(payloads[i])))
  }

  function AllPositions(lists: seq<Labelled>): seq<Detection> {
    if lists == [] then [] else Positions(lists[0]) + AllPositions(lists[1..])
  }

  predicate Reported(d: Detection) {
    IsUnencrypted(d.encoding)
  }

  /** The positions whose encoding is not encrypted. */
  function Unencrypted(positions: seq<Detection>): seq<Detection> {
    Filter(Reported, positions)
  }

  /** What scanning payload lists detects. */
  function Detected(lists: seq<Labelled>): seq<Detection> {
    Unencrypted(AllPositions(lists))
  }

  lemma {:induction false} AllPositionsConcat(a: seq<Labelled>, b: seq<Labelled>)
    ensures AllPositions(a + b) == AllPositions(a) + AllPositions(b)
  {
    if a == [] {
      assert a + b == b;
    } else {
      assert (a + b)[1..] == a[1..] + b;
      AllPositionsConcat(a[1..], b);
    }
  }

  /** Scanning one part after the other detects the concatenation. */
  lemma DetectedConcat(a: seq<Labelled>, b: seq<Labelled>)
    ensures Detected(a + b) == Detected(a) + Detected(b)
  {
    AllPositionsConcat(a, b);
    FilterConcat(Reported, AllPositions(a), AllPositions(b));
  }

  // ---- Composition ----

  /** The detections of consecutive operations of a multi-operation, each as if its inner request
      had come alone under the outer operation name. */
  function DetectedByOperations(op: string, operations: seq<Operation>): seq<Detection> {
    if operations == [] then []
    else Detected(Lists(op, Inner(operations[0]))) + DetectedByOperations(op, operations[1..])
  }

  lemma {:induction false} MultiOperationComposes(ns: string, op: string, operations: seq<Operation>)
    ensures Detected(Lists(op, ExecuteMultiOperation(ns, operations))) == DetectedByOperations(op, operations)
    decreases operations
  {
    if operations != [] {
      MultiOperationComposes(ns, op, operations[1..]);
      DetectedConcat(SimpleLists(op, Inner(operations[0])), OperationLists(op, operations[1..]));
    }
  }

  /** A cause chain of any length detects what its first node detects, then what its cause does. */
  lemma CauseChainComposes(ns: string, op: string, node: Failure)
    ensures Detected(FailureLists(ns, op, Some(node)))
            == Detected(NodeLists(ns, op, node)) + Detected(FailureLists(ns, op, node.cause))
  {
    DetectedConcat(NodeLists(ns, op, node), ChainLists(ns, op, Chain(node.cause)));
    assert Chain(Some(node))[1..] == Chain(node.cause);
  }

  /** Whatever is detected in a request, at any depth, is unencrypted and carries the name of the
      outer operation. */
  lemma DetectedUnderOuterName(op: string, request: Request, d: Detection)
    requires d in Detected(Lists(op, request))
    ensures IsUnencrypted(d.encoding) && d.tags.operation == op
  {
    ListsNameOperation(op, request);
    DetectedAmongLists(Lists(op, request), d);
  }

  ghost predicate AllNamed(op: string, lists: seq<Labelled>) {
    forall labelled | labelled in lists :: labelled.tags.operation == op
  }

  lemma {:induction false} DetectedAmongLists(lists: seq<Labelled>, d: Detection)
    requires d in Detected(lists)
    ensures IsUnencrypted(d.encoding) && exists labelled | labelled in lists :: d.tags == labelled.tags
  {
    var rest := lists[1..];
    FilterConcat(Reported, Positions(lists[0]), AllPositions(rest));
    if d in Detected(rest) {
      DetectedAmongLists(rest, d);
    } else {
      FilterMember(Reported, Positions(lists[0]), d);
      assert lists[0] in lists;
    }
  }

  lemma ListsNameOperation(op: string, request: Request)
    ensures AllNamed(op, Lists(op, request))
  {
    match request
    case RespondWorkflowTaskCompleted(ns, commands) => CommandsNameOperation(ns, op, commands);
    case RespondWorkflowTaskFailed(ns, failure) => ChainNamesOperation(ns, op, Chain(failure));
    case RespondActivityTaskFailed(ns, failure, _) => ChainNamesOperation(ns, op, Chain(failure));
    case ExecuteMultiOperation(_, operations) => OperationsNameOperation(op, operations);
    case _ =>
  }

  lemma {:induction false} CommandsNameOperation(ns: string, op: string, commands: seq<Command>)
    ensures AllNamed(op, CommandLists(ns, op, commands))
  {
    if commands != [] {
      CommandsNameOperation(ns, op, commands[1..]);
    }
  }

  lemma NodeNamesOperation(ns: string, op: string, node: Failure)
    ensures AllNamed(op, NodeLists(ns, op, node))
  {
    assert AllNamed(op, InfoList(ns, op, node.info));
  }

  lemma AllNamedConcat(op: string, a: seq<Labelled>, b: seq<Labelled>)
    requires AllNamed(op, a) && AllNamed(op, b)
    ensures AllNamed(op, a + b)
  {
  }

  lemma {:induction false} ChainNamesOperation(ns: string, op: string, chain: seq<Failure>)
    ensures AllNamed(op, ChainLists(ns, op, chain))
  {
    if chain != [] {
      NodeNamesOperation(ns, op, chain[0]);
      ChainNamesOperation(ns, op, chain[1..]);
      AllNamedConcat(op, NodeLists(ns, op, chain[0]), ChainLists(ns, op, chain[1..]));
    }
  }

  lemma {:induction false} OperationsNameOperation(op: string, operations: seq<Operation>)
    ensures AllNamed(op, OperationLists(op, operations))
  {
    if operations != [] {
      OperationsNameOperation(op, operations[1..]);
    }
  }

  // ---- When nothing is detected ----

  ghost predicate Holds(payloads: Payloads, payload: Payload) {
    payloads.Some? && payload in payloads.value
  }

  ghost predicate CommandCarries(attributes: CommandAttributes, payload: Payload) {
    match attributes
    case ScheduleActivityTask(input) => Holds(input, payload)
    case CompleteWorkflowExecution(result) => Holds(result, payload)
    case CancelWorkflowExecution(details) => Holds(details, payload)
    case SignalExternalWorkflowExecution(input) => Holds(input, payload)
    case StartChildWorkflowExecution(input, _, _) => Holds(input, payload)
    case ContinueAsNewWorkflowExecution(input, _) => Holds(input, payload)
    case OtherAttributes => false
  }

  /** Somewhere in the cause chain there is the payload. */
  ghost predicate FailureCarries(failure: Option<Failure>, payload: Payload) {
    && failure.Some?
    && (failure.value.encodedAttributes == Some(payload)
        || (match failure.value.info
            case ApplicationFailureInfo(details) => Holds(details, payload)
            case CanceledFailureInfo(details) => Holds(details, payload)
            case TimeoutFailureInfo(details) => Holds(details, payload)
            case OtherFailureInfo => false)
        || FailureCarries(failure.value.cause, payload))
  }

  ghost predicate ActionCarries(action: Option<ScheduleAction>, payload: Payload) {
    action.Some? && action.value.StartWorkflowAction? && action.value.workflow.Some?
    && Holds(action.value.workflow.value.input, payload)
  }

  ghost predicate OperationCarries(operation: Operation, payload: Payload) {
    match operation
    case StartOperation(start) => Holds(start.input, payload)
    case UpdateOperation(update) => Holds(update.args, payload)
    case UnsetOperation => false
  }

  /** The payload stands in a covered place of the request, wherever that is. */
  ghost predicate Carries(request: Request, payload: Payload) {
    match request
    case StartWorkflow(start) => Holds(start.input, payload)
    case SignalWithStart(start, signalInput) => Holds(start.input, payload) || Holds(signalInput, payload)
    case SignalWorkflow(_, input) => Holds(input, payload)
    case QueryWorkflow(_, queryArgs) => Holds(queryArgs, payload)
    case UpdateWorkflow(update) => Holds(update.args, payload)
    case RespondActivityTaskCompleted(_, result) => Holds(result, payload)
    case RespondWorkflowTaskCompleted(_, commands) =>
      exists command | command in commands :: CommandCarries(command.attributes, payload)
    case CreateSchedule(_, action) => ActionCarries(action, payload)
    case UpdateSchedule(_, action) => ActionCarries(action, payload)
    case RecordActivityTaskHeartbeat(_, details) => Holds(details, payload)
    case ExecuteMultiOperation(_, operations) =>
      exists operation | operation in operations :: OperationCarries(operation, payload)
    case RespondWorkflowTaskFailed(_, failure) => FailureCarries(failure, payload)
    case RespondActivityTaskFailed(_, failure, details) => FailureCarries(failure, payload) || Holds(details, payload)
    case OtherRequest => false
  }

  /** Some list of the flattening holds the payload. */
  ghost predicate SomeListHolds(lists: seq<Labelled>, payload: Payload) {
    exists i | 0 <= i < |lists| :: Holds(lists[i].payloads, payload)
  }

  lemma SomeListHoldsConcat(a: seq<Labelled>, b: seq<Labelled>, payload: Payload)
    ensures SomeListHolds(a + b, payload) <==> SomeListHolds(a, payload) || SomeListHolds(b, payload)
  {
    if i :| 0 <= i < |a| && Holds(a[i].payloads, payload) {
      assert (a + b)[i] == a[i];
    }
    if i :| 0 <= i < |b| && Holds(b[i].payloads, payload) {
      assert (a + b)[|a| + i] == b[i];
    }
  }

  lemma SomeListHoldsOne(labelled: Labelled, payload: Payload)
    ensures SomeListHolds([labelled], payload) <==> Holds(labelled.payloads, payload)
  {
    assert [labelled][0] == labelled;
  }

  lemma {:induction false} CommandsCovered(ns: string, op: string, commands: seq<Command>, payload: Payload)
    ensures SomeListHolds(CommandLists(ns, op, commands), payload)
            <==> exists command | command in commands :: CommandCarries(command.attributes, payload)
  {
    if commands != [] {
      var first := CommandList(ns, op, commands[0]);
      SomeListHoldsConcat(first, CommandLists(ns, op, commands[1..]), payload);
      CommandsCovered(ns, op, commands[1..], payload);
      assert SomeListHolds(first, payload) <==> CommandCarries(commands[0].attributes, payload) by {
        if first != [] {
          SomeListHoldsOne(first[0], payload);
          assert first == [first[0]];
        }
      }
      assert forall command :: command in commands <==> command == commands[0] || command in commands[1..];
    }
  }

  lemma NodeCovered(ns: string, op: string, node: Failure, payload: Payload)
    ensures SomeListHolds(NodeLists(ns, op, node), payload)
            <==> FailureCarries(Some(node.(cause := None)), payload)
  {
    var info := InfoList(ns, op, node.info);
    var attributes := match node.encodedAttributes
                      case None => []
                      case Some(p) => [Plainly(ns, op, "encoded_attributes", Some([p]))];
    SomeListHoldsConcat(attributes, info, payload);
    if attributes != [] {
      SomeListHoldsOne(attributes[0], payload);
    }
    if info != [] {
      SomeListHoldsOne(info[0], payload);
      assert info == [info[0]];
    }
  }

  lemma {:induction false} FailureCovered(ns: string, op: string, failure: Option<Failure>, payload: Payload)
    ensures SomeListHolds(FailureLists(ns, op, failure), payload) <==> FailureCarries(failure, payload)
    decreases failure
  {
    if failure.Some? {
      var node := failure.value;
      NodeCovered(ns, op, node, payload);
      FailureCovered(ns, op, node.cause, payload);
      assert Chain(failure)[1..] == Chain(node.cause);
      SomeListHoldsConcat(NodeLists(ns, op, node), FailureLists(ns, op, node.cause), payload);
    }
  }

  lemma ActionCovered(ns: string, op: string, action: Option<ScheduleAction>, payload: Payload)
    ensures SomeListHolds(ActionLists(ns, op, action), payload) <==> ActionCarries(action, payload)
  {
    var lists := ActionLists(ns, op, action);
    if lists != [] {
      SomeListHoldsOne(lists[0], payload);
    }
  }

  lemma SimpleCovered(op: string, request: Request, payload: Payload)
    requires !request.ExecuteMultiOperation?
    ensures SomeListHolds(SimpleLists(op, request), payload) <==> Carries(request, payload)
  {
    var lists := SimpleLists(op, request);
    if |lists| == 1 {
      SomeListHoldsOne(lists[0], payload);
      assert lists == [lists[0]];
    }
    match request
    case SignalWithStart(start, signalInput) =>
      SomeListHoldsConcat([lists[0]], [lists[1]], payload);
      SomeListHoldsOne(lists[0], payload);
      SomeListHoldsOne(lists[1], payload);
      assert lists == [lists[0]] + [lists[1]];
    case RespondWorkflowTaskCompleted(ns, commands) => CommandsCovered(ns, op, commands, payload);
    case CreateSchedule(ns, action) => ActionCovered(ns, op, action, payload);
    case UpdateSchedule(ns, action) => ActionCovered(ns, op, action, payload);
    case RespondWorkflowTaskFailed(ns, failure) => FailureCovered(ns, op, failure, payload);
    case RespondActivityTaskFailed(ns, failure, details) =>
      var last := Plainly(ns, op, "last_heartbeat_details", details);
      FailureCovered(ns, op, failure, payload);
      SomeListHoldsConcat(FailureLists(ns, op, failure), [last], payload);
      SomeListHoldsOne(last, payload);
    case _ =>
  }

  lemma {:induction false} OperationsCovered(op: string, operations: seq<Operation>, payload: Payload)
    ensures SomeListHolds(OperationLists(op, operations), payload)
            <==> exists operation | operation in operations :: OperationCarries(operation, payload)
  {
    if operations != [] {
      SimpleCovered(op, Inner(operations[0]), payload);
      SomeListHoldsConcat(SimpleLists(op, Inner(operations[0])), OperationLists(op, operations[1..]), payload);
      OperationsCovered(op, operations[1..], payload);
      assert Carries(Inner(operations[0]), payload) <==> OperationCarries(operations[0], payload);
      assert operations[0] in operations;
      assert forall operation ::
        operation in operations <==> operation == operations[0] || operation in operations[1..];
    }
  }

  /** The flattening covers exactly the payloads that stand in covered places. */
  lemma FlatteningCovers(op: string, request: Request, payload: Payload)
    ensures SomeListHolds(Lists(op, request), payload) <==> Carries(request, payload)
  {
    if request.ExecuteMultiOperation? {
      OperationsCovered(op, request.operations, payload);
    } else {
      SimpleCovered(op, request, payload);
    }
  }

  lemma {:induction false} NothingDetected(lists: seq<Labelled>)
    ensures Detected(lists) == [] <==>
            forall payload | SomeListHolds(lists, payload) :: !IsUnencrypted(EncodingOf(payload))
  {
    if lists != [] {
      var rest := lists[1..];
      assert lists == [lists[0]] + rest;
      FilterConcat(Reported, Positions(lists[0]), AllPositions(rest));
      FilterEmptyExactly(Reported, Positions(lists[0]));
      NothingDetected(rest);
      forall payload: Payload
        ensures SomeListHolds(lists, payload) <==> Holds(lists[0].payloads, payload) || SomeListHolds(rest, payload)
      {
        SomeListHoldsConcat([lists[0]], rest, payload);
        SomeListHoldsOne(lists[0], payload);
      }
      FirstListSilent(lists[0]);
    }
  }

  lemma FirstListSilent(labelled: Labelled)
    ensures (forall d | d in Positions(labelled) :: !Reported(d))
            <==> forall payload | Holds(labelled.payloads, payload) :: !IsUnencrypted(EncodingOf(payload))
  {
    if labelled.payloads.Some? {
      var payloads := labelled.payloads.value;
      forall i | 0 <= i < |payloads|
        ensures Holds(labelled.payloads, payloads[i]) && Positions(labelled)[i].encoding == EncodingOf(payloads[i])
        ensures Positions(labelled)[i] in Positions(labelled)
      {
      }
    }
  }

  /** A request is passed in silence exactly when no payload in any covered place of it, however
      deeply nested, has an unencrypted encoding. */
  lemma SilentExactly(op: string, request: Request)
    ensures Detected(Lists(op, request)) == [] <==>
            forall payload | Carries(request, payload) ::
              EncodingOf(payload) != "json/plain" && EncodingOf(payload) != "binary/plain"
  {
    NothingDetected(Lists(op, request));
    forall payload: Payload
      ensures SomeListHolds(Lists(op, request), payload) <==> Carries(request, payload)
    {
      FlatteningCovers(op, request, payload);
    }
  }
}
