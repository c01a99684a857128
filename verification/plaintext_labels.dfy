/** Under which labels, how often and in which order the unencrypted payloads of a request are
    reported, told from the request alone. */
module PlaintextLabels {
  import opened Wrappers
  import opened Filtering
  import opened PlaintextRequests

  // ---- Where a payload stands ----

  /** The labels of a place that names no workflow type and no task queue. */
  predicate PlainAt(tags: Tags, ns: string, op: string, location: string) {
    && tags.ns == ns && tags.operation == op && tags.location == location
    && tags.workflowType == "" && tags.taskQueue == ""
  }

  /** The labels of the input of a workflow to start, or of its signal. */
  predicate StartAt(tags: Tags, start: StartRequest, op: string, location: string) {
    && tags.ns == start.ns && tags.operation == op && tags.location == location
    && tags.workflowType == start.workflowType && tags.taskQueue == start.taskQueue
  }

  /** A command is labelled with its type; only starting a child names a task queue, and only that
      and continuing as new name a workflow type. */
  ghost predicate CommandCarriesAt(ns: string, op: string, command: Command, payload: Payload, tags: Tags) {
    && tags.ns == ns && tags.operation == op && tags.location == command.commandType
    && match command.attributes
       case ScheduleActivityTask(input) => Holds(input, payload) && tags.workflowType == tags.taskQueue == ""
       case CompleteWorkflowExecution(result) => Holds(result, payload) && tags.workflowType == tags.taskQueue == ""
       case CancelWorkflowExecution(details) => Holds(details, payload) && tags.workflowType == tags.taskQueue == ""
       case SignalExternalWorkflowExecution(input) =>
         Holds(input, payload) && tags.workflowType == tags.taskQueue == ""
       case StartChildWorkflowExecution(input, workflowType, taskQueue) =>
         Holds(input, payload) && tags.workflowType == workflowType && tags.taskQueue == taskQueue
       case ContinueAsNewWorkflowExecution(input, workflowType) =>
         Holds(input, payload) && tags.workflowType == workflowType && tags.taskQueue == ""
       case OtherAttributes => false
  }

  ghost predicate InfoCarriesAt(ns: string, op: string, info: FailureInfo, payload: Payload, tags: Tags) {
    match info
    case ApplicationFailureInfo(details) =>
      Holds(details, payload) && PlainAt(tags, ns, op, "ApplicationFailureInfo.details")
    case CanceledFailureInfo(details) =>
      Holds(details, payload) && PlainAt(tags, ns, op, "CanceledFailureInfo.details")
    case TimeoutFailureInfo(details) =>
      Holds(details, payload) && PlainAt(tags, ns, op, "TimeoutFailureInfo.last_heartbeat_details")
    case OtherFailureInfo => false
  }

  /** Some failure of the cause chain holds the payload there. */
  ghost predicate FailureCarriesAt(ns: string, op: string, failure: Option<Failure>, payload: Payload, tags: Tags) {
    && failure.Some?
    && ((failure.value.encodedAttributes == Some(payload) && PlainAt(tags, ns, op, "encoded_attributes"))
        || InfoCarriesAt(ns, op, failure.value.info, payload, tags)
        || FailureCarriesAt(ns, op, failure.value.cause, payload, tags))
  }

  ghost predicate ActionCarriesAt(ns: string, op: string, action: Option<ScheduleAction>, payload: Payload, tags: Tags)
  {
    && action.Some? && action.value.StartWorkflowAction? && action.value.workflow.Some?
    && var workflow := action.value.workflow.value;
       && Holds(workflow.input, payload)
       && tags.ns == ns && tags.operation == op && tags.location == "input"
       && tags.workflowType == workflow.workflowType && tags.taskQueue == workflow.taskQueue
  }

  ghost predicate OperationCarriesAt(op: string, operation: Operation, payload: Payload, tags: Tags) {
    match operation
    case StartOperation(start) => Holds(start.input, payload) && StartAt(tags, start, op, "input")
    case UpdateOperation(update) => Holds(update.args, payload) && PlainAt(tags, update.ns, op, "update_args")
    case UnsetOperation => false
  }

  /** The payload stands in a covered place of the request, and these are the labels of the place. */
  ghost predicate CarriesAt(op: string, request: Request, payload: Payload, tags: Tags) {
    match request
    case StartWorkflow(start) => Holds(start.input, payload) && StartAt(tags, start, op, "input")
    case SignalWithStart(start, signalInput) =>
      || (Holds(start.input, payload) && StartAt(tags, start, op, "input"))
      || (Holds(signalInput, payload) && StartAt(tags, start, op, "signal_input"))
    case SignalWorkflow(ns, input) => Holds(input, payload) && PlainAt(tags, ns, op, "input")
    case QueryWorkflow(ns, queryArgs) => Holds(queryArgs, payload) && PlainAt(tags, ns, op, "query_args")
    case UpdateWorkflow(update) => Holds(update.args, payload) && PlainAt(tags, update.ns, op, "update_args")
    case RespondActivityTaskCompleted(ns, result) => Holds(result, payload) && PlainAt(tags, ns, op, "result")
    case RespondWorkflowTaskCompleted(ns, commands) =>
      exists command | command in commands :: CommandCarriesAt(ns, op, command, payload, tags)
    case CreateSchedule(ns, action) => ActionCarriesAt(ns, op, action, payload, tags)
    case UpdateSchedule(ns, action) => ActionCarriesAt(ns, op, action, payload, tags)
    case RecordActivityTaskHeartbeat(ns, details) => Holds(details, payload) && PlainAt(tags, ns, op, "details")
    case ExecuteMultiOperation(_, operations) =>
      exists operation | operation in operations :: OperationCarriesAt(op, operation, payload, tags)
    case RespondWorkflowTaskFailed(ns, failure) => FailureCarriesAt(ns, op, failure, payload, tags)
    case RespondActivityTaskFailed(ns, failure, details) =>
      || FailureCarriesAt(ns, op, failure, payload, tags)
      || (Holds(details, payload) && PlainAt(tags, ns, op, "last_heartbeat_details"))
    case OtherRequest => false
  }

  predicate HasEncoding(payload: Payload, encoding: string) {
    "encoding" in payload.metadata && payload.metadata["encoding"] == encoding
  }

  // ---- How often ----

  /** How many payloads of a list have the encoding. */
  function CountOf(payloads: seq<Payload>, encoding: string): nat {
    if payloads == [] then 0
    else (if HasEncoding(payloads[0], encoding) then 1 else 0) + CountOf(payloads[1..], encoding)
  }

  /** The count of a list that stands at the place asked for, which is what `here` says. */
  function CountAt(here: bool, payloads: Payloads, encoding: string): nat {
    if here && payloads.Some? then CountOf(payloads.value, encoding) else 0
  }

  function CommandCount(ns: string, op: string, command: Command, tags: Tags, encoding: string): nat {
    var plain := PlainAt(tags, ns, op, command.commandType);
    match command.attributes
    case ScheduleActivityTask(input) => CountAt(plain, input, encoding)
    case CompleteWorkflowExecution(result) => CountAt(plain, result, encoding)
    case CancelWorkflowExecution(details) => CountAt(plain, details, encoding)
    case SignalExternalWorkflowExecution(input) => CountAt(plain, input, encoding)
    case StartChildWorkflowExecution(input, workflowType, taskQueue) =>
      CountAt(tags == Tags(ns, workflowType, taskQueue, op, command.commandType), input, encoding)
    case ContinueAsNewWorkflowExecution(input, workflowType) =>
      CountAt(tags == Tags(ns, workflowType, "", op, command.commandType), input, encoding)
    case OtherAttributes => 0
  }

  function CommandsCount(ns: string, op: string, commands: seq<Command>, tags: Tags, encoding: string): nat {
    if commands == [] then 0
    else CommandCount(ns, op, commands[0], tags, encoding) + CommandsCount(ns, op, commands[1..], tags, encoding)
  }

  function InfoCount(ns: string, op: string, info: FailureInfo, tags: Tags, encoding: string): nat {
    match info
    case ApplicationFailureInfo(details) =>
      CountAt(PlainAt(tags, ns, op, "ApplicationFailureInfo.details"), details, encoding)
    case CanceledFailureInfo(details) =>
      CountAt(PlainAt(tags, ns, op, "CanceledFailureInfo.details"), details, encoding)
    case TimeoutFailureInfo(details) =>
      CountAt(PlainAt(tags, ns, op, "TimeoutFailureInfo.last_heartbeat_details"), details, encoding)
    case OtherFailureInfo => 0
  }

  function NodeCount(ns: string, op: string, node: Failure, tags: Tags, encoding: string): nat {
    (if node.encodedAttributes.Some? && HasEncoding(node.encodedAttributes.value, encoding)
        && PlainAt(tags, ns, op, "encoded_attributes") then 1 else 0)
    + InfoCount(ns, op, node.info, tags, encoding)
  }

  function FailureCount(ns: string, op: string, failure: Option<Failure>, tags: Tags, encoding: string): nat {
    if failure.None? then 0
    else NodeCount(ns, op, failure.value, tags, encoding) + FailureCount(ns, op, failure.value.cause, tags, encoding)
  }

  function ActionCount(ns: string, op: string, action: Option<ScheduleAction>, tags: Tags, encoding: string): nat {
    if action.Some? && action.value.StartWorkflowAction? && action.value.workflow.Some? then
      var workflow := action.value.workflow.value;
      CountAt(tags == Tags(ns, workflow.workflowType, workflow.taskQueue, op, "input"), workflow.input, encoding)
    else 0
  }

  function OperationCount(op: string, operation: Operation, tags: Tags, encoding: string): nat {
    match operation
    case StartOperation(start) => CountAt(StartAt(tags, start, op, "input"), start.input, encoding)
    case UpdateOperation(update) => CountAt(PlainAt(tags, update.ns, op, "update_args"), update.args, encoding)
    case UnsetOperation => 0
  }

  function OperationsCount(op: string, operations: seq<Operation>, tags: Tags, encoding: string): nat {
    if operations == [] then 0
    else OperationCount(op, operations[0], tags, encoding) + OperationsCount(op, operations[1..], tags, encoding)
  }

  /** How many payloads with the encoding stand in covered places with these labels. */
  function Count(op: string, request: Request, tags: Tags, encoding: string): nat {
    match request
    case StartWorkflow(start) => CountAt(StartAt(tags, start, op, "input"), start.input, encoding)
    case SignalWithStart(start, signalInput) =>
      CountAt(StartAt(tags, start, op, "input"), start.input, encoding)
      + CountAt(StartAt(tags, start, op, "signal_input"), signalInput, encoding)
    case SignalWorkflow(ns, input) => CountAt(PlainAt(tags, ns, op, "input"), input, encoding)
    case QueryWorkflow(ns, queryArgs) => CountAt(PlainAt(tags, ns, op, "query_args"), queryArgs, encoding)
    case UpdateWorkflow(update) => CountAt(PlainAt(tags, update.ns, op, "update_args"), update.args, encoding)
    case RespondActivityTaskCompleted(ns, result) => CountAt(PlainAt(tags, ns, op, "result"), result, encoding)
    case RespondWorkflowTaskCompleted(ns, commands) => CommandsCount(ns, op, commands, tags, encoding)
    case CreateSchedule(ns, action) => ActionCount(ns, op, action, tags, encoding)
    case UpdateSchedule(ns, action) => ActionCount(ns, op, action, tags, encoding)
    case RecordActivityTaskHeartbeat(ns, details) => CountAt(PlainAt(tags, ns, op, "details"), details, encoding)
    case ExecuteMultiOperation(_, operations) => OperationsCount(op, operations, tags, encoding)
    case RespondWorkflowTaskFailed(ns, failure) => FailureCount(ns, op, failure, tags, encoding)
    case RespondActivityTaskFailed(ns, failure, details) =>
      FailureCount(ns, op, failure, tags, encoding)
      + CountAt(PlainAt(tags, ns, op, "last_heartbeat_details"), details, encoding)
    case OtherRequest => 0
  }

  // ---- The flattening counts the same ----

  /** The count in payload lists. */
  function ListsCount(lists: seq<Labelled>, tags: Tags, encoding: string): nat {
    if lists == [] then 0
    else CountAt(lists[0].tags == tags, lists[0].payloads, encoding) + ListsCount(lists[1..], tags, encoding)
  }

  lemma {:induction false} ListsCountConcat(a: seq<Labelled>, b: seq<Labelled>, tags: Tags, encoding: string)
    ensures ListsCount(a + b, tags, encoding) == ListsCount(a, tags, encoding) + ListsCount(b, tags, encoding)
  {
    if a == [] {
      assert a + b == b;
    } else {
      assert (a + b)[1..] == a[1..] + b;
      ListsCountConcat(a[1..], b, tags, encoding);
    }
  }

  lemma ListsCountOne(labelled: Labelled, tags: Tags, encoding: string)
    ensures ListsCount([labelled], tags, encoding) == CountAt(labelled.tags == tags, labelled.payloads, encoding)
  {
    assert ListsCount([labelled][1..], tags, encoding) == 0;
  }

  lemma CommandListCount(ns: string, op: string, command: Command, tags: Tags, encoding: string)
    ensures ListsCount(CommandList(ns, op, command), tags, encoding) == CommandCount(ns, op, command, tags, encoding)
  {
    var lists := CommandList(ns, op, command);
    if lists != [] {
      ListsCountOne(lists[0], tags, encoding);
      assert lists == [lists[0]];
    }
  }

  lemma {:induction false} CommandListsCount(ns: string, op: string, commands: seq<Command>, tags: Tags,
                                             encoding: string)
    ensures ListsCount(CommandLists(ns, op, commands), tags, encoding)
            == CommandsCount(ns, op, commands, tags, encoding)
  {
    if commands != [] {
      CommandListCount(ns, op, commands[0], tags, encoding);
      CommandListsCount(ns, op, commands[1..], tags, encoding);
      ListsCountConcat(CommandList(ns, op, commands[0]), CommandLists(ns, op, commands[1..]), tags, encoding);
    }
  }

  /** The payload lists of one failure: at most one for its attributes, and at most one for its info. */
  lemma NodeListsCount(ns: string, op: string, node: Failure, tags: Tags, encoding: string)
    ensures ListsCount(NodeLists(ns, op, node), tags, encoding) == NodeCount(ns, op, node, tags, encoding)
  {
    var info := InfoList(ns, op, node.info);
    if info != [] {
      ListsCountOne(info[0], tags, encoding);
      assert info == [info[0]];
    }
    match node.encodedAttributes
    case None =>
      assert NodeLists(ns, op, node) == info;
    case Some(payload) =>
      var first := Plainly(ns, op, "encoded_attributes", Some([payload]));
      ListsCountOne(first, tags, encoding);
      ListsCountConcat([first], info, tags, encoding);
      assert CountOf([payload][1..], encoding) == 0;
  }

  lemma {:induction false} FailureListsCount(ns: string, op: string, failure: Option<Failure>, tags: Tags,
                                             encoding: string)
    ensures ListsCount(FailureLists(ns, op, failure), tags, encoding)
            == FailureCount(ns, op, failure, tags, encoding)
    decreases failure
  {
    if failure.Some? {
      var node := failure.value;
      NodeListsCount(ns, op, node, tags, encoding);
      FailureListsCount(ns, op, node.cause, tags, encoding);
      assert Chain(failure)[1..] == Chain(node.cause);
      ListsCountConcat(NodeLists(ns, op, node), FailureLists(ns, op, node.cause), tags, encoding);
    }
  }

  lemma SimpleListsCount(op: string, request: Request, tags: Tags, encoding: string)
    requires !request.ExecuteMultiOperation?
    ensures ListsCount(SimpleLists(op, request), tags, encoding) == Count(op, request, tags, encoding)
  {
    var lists := SimpleLists(op, request);
    if |lists| == 1 {
      ListsCountOne(lists[0], tags, encoding);
      assert lists == [lists[0]];
    }
    match request
    case SignalWithStart(start, signalInput) =>
      ListsCountConcat([lists[0]], [lists[1]], tags, encoding);
      ListsCountOne(lists[0], tags, encoding);
      ListsCountOne(lists[1], tags, encoding);
      assert lists == [lists[0]] + [lists[1]];
    case RespondWorkflowTaskCompleted(ns, commands) => CommandListsCount(ns, op, commands, tags, encoding);
    case RespondWorkflowTaskFailed(ns, failure) => FailureListsCount(ns, op, failure, tags, encoding);
    case RespondActivityTaskFailed(ns, failure, details) =>
      var last := Plainly(ns, op, "last_heartbeat_details", details);
      FailureListsCount(ns, op, failure, tags, encoding);
      ListsCountConcat(FailureLists(ns, op, failure), [last], tags, encoding);
      ListsCountOne(last, tags, encoding);
    case _ =>
  }

  lemma {:induction false} OperationListsCount(op: string, operations: seq<Operation>, tags: Tags, encoding: string)
    ensures ListsCount(OperationLists(op, operations), tags, encoding)
            == OperationsCount(op, operations, tags, encoding)
  {
    if operations != [] {
      SimpleListsCount(op, Inner(operations[0]), tags, encoding);
      OperationListsCount(op, operations[1..], tags, encoding);
      ListsCountConcat(SimpleLists(op, Inner(operations[0])), OperationLists(op, operations[1..]), tags, encoding);
    }
  }

  lemma FlatteningCounts(op: string, request: Request, tags: Tags, encoding: string)
    ensures ListsCount(Lists(op, request), tags, encoding) == Count(op, request, tags, encoding)
  {
    if request.ExecuteMultiOperation? {
      OperationListsCount(op, request.operations, tags, encoding);
    } else {
      SimpleListsCount(op, request, tags, encoding);
    }
  }

  // ---- What is detected ----

  lemma {:induction false} FilterCount<T>(p: T -> bool, s: seq<T>, x: T)
    ensures multiset(Filter(p, s))[x] == if p(x) then multiset(s)[x] else 0
  {
    if s != [] {
      FilterCount(p, s[1..], x);
      assert s == [s[0]] + s[1..];
    }
  }

  lemma {:induction false} PositionsCount(tags: Tags, payloads: seq<Payload>, d: Detection)
    requires IsUnencrypted(d.encoding)
    ensures multiset(Positions(Labelled(tags, Some(payloads))))[d]
            == if tags == d.tags then CountOf(payloads, d.encoding) else 0
  {
    var positions := Positions(Labelled(tags, Some(payloads)));
    if payloads != [] {
      PositionsCount(tags, payloads[1..], d);
      assert positions == [positions[0]] + Positions(Labelled(tags, Some(payloads[1..])));
    }
  }

  lemma {:induction false} AllPositionsCount(lists: seq<Labelled>, d: Detection)
    requires IsUnencrypted(d.encoding)
    ensures multiset(AllPositions(lists))[d] == ListsCount(lists, d.tags, d.encoding)
  {
    if lists != [] {
      AllPositionsCount(lists[1..], d);
      if lists[0].payloads.Some? {
        PositionsCount(lists[0].tags, lists[0].payloads.value, d);
        assert lists[0] == Labelled(lists[0].tags, Some(lists[0].payloads.value));
      }
    }
  }

  /** How often a detection is reported: as often as there are payloads with its encoding in covered
      places with its labels, and never for another encoding. */
  lemma ReportedExactly(op: string, request: Request, d: Detection)
    ensures multiset(Detected(Lists(op, request)))[d]
            == if d.encoding == "json/plain" || d.encoding == "binary/plain"
               then Count(op, request, d.tags, d.encoding) else 0
  {
    FilterCount(Reported, AllPositions(Lists(op, request)), d);
    if IsUnencrypted(d.encoding) {
      AllPositionsCount(Lists(op, request), d);
      FlatteningCounts(op, request, d.tags, d.encoding);
    }
  }

  // ---- Counting and carrying agree ----

  ghost predicate SomeHolds(payloads: Payloads, encoding: string) {
    exists payload | Holds(payloads, payload) :: HasEncoding(payload, encoding)
  }

  lemma {:induction false} CountOfPositive(payloads: seq<Payload>, encoding: string)
    ensures CountOf(payloads, encoding) > 0 <==> exists payload | payload in payloads :: HasEncoding(payload, encoding)
  {
    if payloads != [] {
      CountOfPositive(payloads[1..], encoding);
      assert forall payload :: payload in payloads <==> payload == payloads[0] || payload in payloads[1..];
      assert payloads[0] in payloads;
    }
  }

  lemma CountAtPositive(here: bool, payloads: Payloads, encoding: string)
    ensures CountAt(here, payloads, encoding) > 0 <==> here && SomeHolds(payloads, encoding)
  {
    if payloads.Some? {
      CountOfPositive(payloads.value, encoding);
      assert forall payload :: Holds(payloads, payload) <==> payload in payloads.value;
    }
  }

  lemma CommandPositive(ns: string, op: string, command: Command, tags: Tags, encoding: string)
    ensures CommandCount(ns, op, command, tags, encoding) > 0
            <==> exists payload :: CommandCarriesAt(ns, op, command, payload, tags) && HasEncoding(payload, encoding)
  {
    var here := tags == Tags(ns, tags.workflowType, tags.taskQueue, op, command.commandType);
    var plain := PlainAt(tags, ns, op, command.commandType);
    match command.attributes
    case ScheduleActivityTask(input) => CountAtPositive(plain, input, encoding);
    case CompleteWorkflowExecution(result) => CountAtPositive(plain, result, encoding);
    case CancelWorkflowExecution(details) => CountAtPositive(plain, details, encoding);
    case SignalExternalWorkflowExecution(input) => CountAtPositive(plain, input, encoding);
    case StartChildWorkflowExecution(input, workflowType, taskQueue) =>
      CountAtPositive(here && tags.workflowType == workflowType && tags.taskQueue == taskQueue, input, encoding);
    case ContinueAsNewWorkflowExecution(input, workflowType) =>
      CountAtPositive(here && tags.workflowType == workflowType && tags.taskQueue == "", input, encoding);
    case OtherAttributes =>
  }

  lemma {:induction false} CommandsPositive(ns: string, op: string, commands: seq<Command>, tags: Tags,
                                            encoding: string)
    ensures CommandsCount(ns, op, commands, tags, encoding) > 0
            <==> exists command | command in commands :: CommandCount(ns, op, command, tags, encoding) > 0
  {
    if commands != [] {
      CommandsPositive(ns, op, commands[1..], tags, encoding);
      assert forall command :: command in commands <==> command == commands[0] || command in commands[1..];
      assert commands[0] in commands;
    }
  }

  lemma CommandsCarry(ns: string, op: string, commands: seq<Command>, tags: Tags, encoding: string)
    ensures CommandsCount(ns, op, commands, tags, encoding) > 0
            <==> exists payload ::
                   (exists command | command in commands :: CommandCarriesAt(ns, op, command, payload, tags))
                   && HasEncoding(payload, encoding)
  {
    CommandsPositive(ns, op, commands, tags, encoding);
    forall command
      ensures CommandCount(ns, op, command, tags, encoding) > 0
              <==> exists payload :: CommandCarriesAt(ns, op, command, payload, tags) && HasEncoding(payload, encoding)
    {
      CommandPositive(ns, op, command, tags, encoding);
    }
  }

  ghost predicate NodeCarriesAt(ns: string, op: string, node: Failure, payload: Payload, tags: Tags) {
    || (node.encodedAttributes == Some(payload) && PlainAt(tags, ns, op, "encoded_attributes"))
    || InfoCarriesAt(ns, op, node.info, payload, tags)
  }

  lemma InfoPositive(ns: string, op: string, info: FailureInfo, tags: Tags, encoding: string)
    ensures InfoCount(ns, op, info, tags, encoding) > 0
            <==> exists payload :: InfoCarriesAt(ns, op, info, payload, tags) && HasEncoding(payload, encoding)
  {
    match info
    case ApplicationFailureInfo(details) =>
      CountAtPositive(PlainAt(tags, ns, op, "ApplicationFailureInfo.details"), details, encoding);
    case CanceledFailureInfo(details) =>
      CountAtPositive(PlainAt(tags, ns, op, "CanceledFailureInfo.details"), details, encoding);
    case TimeoutFailureInfo(details) =>
      CountAtPositive(PlainAt(tags, ns, op, "TimeoutFailureInfo.last_heartbeat_details"), details, encoding);
    case OtherFailureInfo =>
  }

  lemma NodePositive(ns: string, op: string, node: Failure, tags: Tags, encoding: string)
    ensures NodeCount(ns, op, node, tags, encoding) > 0
            <==> exists payload :: NodeCarriesAt(ns, op, node, payload, tags) && HasEncoding(payload, encoding)
  {
    InfoPositive(ns, op, node.info, tags, encoding);
    if node.encodedAttributes.Some? {
      var payload := node.encodedAttributes.value;
      if HasEncoding(payload, encoding) && PlainAt(tags, ns, op, "encoded_attributes") {
        assert NodeCarriesAt(ns, op, node, payload, tags);
      }
    }
    if InfoCount(ns, op, node.info, tags, encoding) > 0 {
      var payload :| InfoCarriesAt(ns, op, node.info, payload, tags) && HasEncoding(payload, encoding);
      assert NodeCarriesAt(ns, op, node, payload, tags);
    }
  }

  lemma {:induction false} FailureCarry(ns: string, op: string, failure: Option<Failure>, tags: Tags, encoding: string)
    ensures FailureCount(ns, op, failure, tags, encoding) > 0
            <==> exists payload :: FailureCarriesAt(ns, op, failure, payload, tags) && HasEncoding(payload, encoding)
    decreases failure
  {
    if failure.Some? {
      var node := failure.value;
      NodePositive(ns, op, node, tags, encoding);
      FailureCarry(ns, op, node.cause, tags, encoding);
      assert forall payload :: FailureCarriesAt(ns, op, failure, payload, tags)
                               <==> NodeCarriesAt(ns, op, node, payload, tags)
                                    || FailureCarriesAt(ns, op, node.cause, payload, tags);
    }
  }

  lemma ActionCarry(ns: string, op: string, action: Option<ScheduleAction>, tags: Tags, encoding: string)
    ensures ActionCount(ns, op, action, tags, encoding) > 0
            <==> exists payload :: ActionCarriesAt(ns, op, action, payload, tags) && HasEncoding(payload, encoding)
  {
    if action.Some? && action.value.StartWorkflowAction? && action.value.workflow.Some? {
      var workflow := action.value.workflow.value;
      var here := tags == Tags(ns, workflow.workflowType, workflow.taskQueue, op, "input");
      CountAtPositive(here, workflow.input, encoding);
    }
  }

  lemma OperationPositive(op: string, operation: Operation, tags: Tags, encoding: string)
    ensures OperationCount(op, operation, tags, encoding) > 0
            <==> exists payload :: OperationCarriesAt(op, operation, payload, tags) && HasEncoding(payload, encoding)
  {
    match operation
    case StartOperation(start) => CountAtPositive(StartAt(tags, start, op, "input"), start.input, encoding);
    case UpdateOperation(update) => CountAtPositive(PlainAt(tags, update.ns, op, "update_args"), update.args, encoding);
    case UnsetOperation =>
  }

  lemma {:induction false} OperationsPositive(op: string, operations: seq<Operation>, tags: Tags, encoding: string)
    ensures OperationsCount(op, operations, tags, encoding) > 0
            <==> exists operation | operation in operations :: OperationCount(op, operation, tags, encoding) > 0
  {
    if operations != [] {
      OperationsPositive(op, operations[1..], tags, encoding);
      assert forall operation ::
        operation in operations <==> operation == operations[0] || operation in operations[1..];
      assert operations[0] in operations;
    }
  }

  lemma OperationsCarry(op: string, operations: seq<Operation>, tags: Tags, encoding: string)
    ensures OperationsCount(op, operations, tags, encoding) > 0
            <==> exists payload ::
                   (exists operation | operation in operations :: OperationCarriesAt(op, operation, payload, tags))
                   && HasEncoding(payload, encoding)
  {
    OperationsPositive(op, operations, tags, encoding);
    forall operation
      ensures OperationCount(op, operation, tags, encoding) > 0
              <==> exists payload :: OperationCarriesAt(op, operation, payload, tags) && HasEncoding(payload, encoding)
    {
      OperationPositive(op, operation, tags, encoding);
    }
  }

  /** Something is counted exactly where a payload with the encoding stands. */
  ghost predicate Carried(op: string, request: Request, tags: Tags, encoding: string) {
    exists payload :: CarriesAt(op, request, payload, tags) && HasEncoding(payload, encoding)
  }

  lemma CarriedExactly(op: string, request: Request, tags: Tags, encoding: string)
    ensures Count(op, request, tags, encoding) > 0 <==> Carried(op, request, tags, encoding)
  {
    match request
    case StartWorkflow(start) => CountAtPositive(StartAt(tags, start, op, "input"), start.input, encoding);
    case SignalWithStart(start, signalInput) =>
      CountAtPositive(StartAt(tags, start, op, "input"), start.input, encoding);
      CountAtPositive(StartAt(tags, start, op, "signal_input"), signalInput, encoding);
    case SignalWorkflow(ns, input) => CountAtPositive(PlainAt(tags, ns, op, "input"), input, encoding);
    case QueryWorkflow(ns, queryArgs) => CountAtPositive(PlainAt(tags, ns, op, "query_args"), queryArgs, encoding);
    case UpdateWorkflow(update) => CountAtPositive(PlainAt(tags, update.ns, op, "update_args"), update.args, encoding);
    case RespondActivityTaskCompleted(ns, result) => CountAtPositive(PlainAt(tags, ns, op, "result"), result, encoding);
    case RespondWorkflowTaskCompleted(ns, commands) => CommandsCarry(ns, op, commands, tags, encoding);
    case CreateSchedule(ns, action) => ActionCarry(ns, op, action, tags, encoding);
    case UpdateSchedule(ns, action) => ActionCarry(ns, op, action, tags, encoding);
    case RecordActivityTaskHeartbeat(ns, details) =>
      CountAtPositive(PlainAt(tags, ns, op, "details"), details, encoding);
    case ExecuteMultiOperation(_, operations) => OperationsCarry(op, operations, tags, encoding);
    case RespondWorkflowTaskFailed(ns, failure) => FailureCarry(ns, op, failure, tags, encoding);
    case RespondActivityTaskFailed(ns, failure, details) =>
      FailureCarry(ns, op, failure, tags, encoding);
      CountAtPositive(PlainAt(tags, ns, op, "last_heartbeat_details"), details, encoding);
    case OtherRequest =>
  }

  /** A detection is reported exactly when a payload with its encoding, which is unencrypted, stands
      in a covered place of the request, at any depth, with its labels. */
  lemma DetectedExactly(op: string, request: Request, d: Detection)
    ensures d in Detected(Lists(op, request)) <==>
              && (d.encoding == "json/plain" || d.encoding == "binary/plain")
              && exists payload :: CarriesAt(op, request, payload, d.tags) && HasEncoding(payload, d.encoding)
  {
    ReportedExactly(op, request, d);
    CarriedExactly(op, request, d.tags, d.encoding);
    assert d in Detected(Lists(op, request)) <==> multiset(Detected(Lists(op, request)))[d] > 0;
  }

  // ---- In which order ----

  /** What one payload list at a place reports. */
  function Reports(tags: Tags, payloads: Payloads): seq<Detection> {
    Detected([Labelled(tags, payloads)])
  }

  /** A list is reported payload after payload. */
  lemma ListOrder(tags: Tags, a: seq<Payload>, b: seq<Payload>)
    ensures Reports(tags, Some(a + b)) == Reports(tags, Some(a)) + Reports(tags, Some(b))
  {
    ReportsOne(tags, Some(a));
    ReportsOne(tags, Some(b));
    ReportsOne(tags, Some(a + b));
    PositionsConcat(tags, a, b);
    FilterConcat(Reported, Positions(Labelled(tags, Some(a))), Positions(Labelled(tags, Some(b))));
  }

  lemma PositionsConcat(tags: Tags, a: seq<Payload>, b: seq<Payload>)
    ensures Positions(Labelled(tags, Some(a + b)))
            == Positions(Labelled(tags, Some(a))) + Positions(Labelled(tags, Some(b)))
  {
  }

  lemma PayloadReport(tags: Tags, payload: Payload)
    ensures Reports(tags, Some([payload])) ==
              if HasEncoding(payload, "json/plain") then [Detection(tags, "json/plain")]
              else if HasEncoding(payload, "binary/plain") then [Detection(tags, "binary/plain")]
              else []
    ensures Reports(tags, None) == []
  {
    ReportsOne(tags, Some([payload]));
    ReportsOne(tags, None);
    var one := Positions(Labelled(tags, Some([payload])));
    assert one == [Detection(tags, EncodingOf(payload))];
    assert Filter(Reported, one[1..]) == [];
  }

  lemma ReportsOne(tags: Tags, payloads: Payloads)
    ensures Reports(tags, payloads) == Filter(Reported, Positions(Labelled(tags, payloads)))
  {
    var lists := [Labelled(tags, payloads)];
    assert AllPositions(lists[1..]) == [];
    assert Positions(lists[0]) + [] == Positions(lists[0]);
  }

  /** Commands are reported one after the other. */
  lemma CommandOrder(op: string, ns: string, a: seq<Command>, b: seq<Command>)
    ensures Detected(Lists(op, RespondWorkflowTaskCompleted(ns, a + b)))
            == Detected(Lists(op, RespondWorkflowTaskCompleted(ns, a)))
               + Detected(Lists(op, RespondWorkflowTaskCompleted(ns, b)))
  {
    CommandListsConcat(ns, op, a, b);
    DetectedConcat(CommandLists(ns, op, a), CommandLists(ns, op, b));
  }

  /** The input of a workflow is reported before the signal that comes with it. */
  lemma SignalOrder(op: string, start: StartRequest, signalInput: Payloads)
    ensures Detected(Lists(op, SignalWithStart(start, signalInput)))
            == Detected(Lists(op, StartWorkflow(start)))
               + Reports(Tags(start.ns, start.workflowType, start.taskQueue, op, "signal_input"), signalInput)
  {
    var tags := Tags(start.ns, start.workflowType, start.taskQueue, op, "signal_input");
    DetectedConcat([StartList(op, start)], [Labelled(tags, signalInput)]);
  }

  /** The failure of an activity is reported before its last heartbeat. */
  lemma HeartbeatOrder(op: string, ns: string, failure: Option<Failure>, details: Payloads)
    ensures Detected(Lists(op, RespondActivityTaskFailed(ns, failure, details)))
            == Detected(Lists(op, RespondWorkflowTaskFailed(ns, failure)))
               + Reports(Tags(ns, "", "", op, "last_heartbeat_details"), details)
  {
    DetectedConcat(FailureLists(ns, op, failure), [Plainly(ns, op, "last_heartbeat_details", details)]);
  }

  lemma {:induction false} CommandListsConcat(ns: string, op: string, a: seq<Command>, b: seq<Command>)
    ensures CommandLists(ns, op, a + b) == CommandLists(ns, op, a) + CommandLists(ns, op, b)
  {
    if a == [] {
      assert a + b == b;
    } else {
      assert (a + b)[1..] == a[1..] + b;
      CommandListsConcat(ns, op, a[1..], b);
    }
  }

  /** A failure is reported with its encoded attributes first, then the details of its info, then
      its cause. */
  lemma FailureOrder(op: string, ns: string, node: Failure)
    ensures Detected(Lists(op, RespondWorkflowTaskFailed(ns, Some(node))))
            == (if node.encodedAttributes.Some?
                then Reports(Tags(ns, "", "", op, "encoded_attributes"), Some([node.encodedAttributes.value])) else [])
               + (match node.info
                  case ApplicationFailureInfo(details) =>
                    Reports(Tags(ns, "", "", op, "ApplicationFailureInfo.details"), details)
                  case CanceledFailureInfo(details) =>
                    Reports(Tags(ns, "", "", op, "CanceledFailureInfo.details"), details)
                  case TimeoutFailureInfo(details) =>
                    Reports(Tags(ns, "", "", op, "TimeoutFailureInfo.last_heartbeat_details"), details)
                  case OtherFailureInfo => [])
               + Detected(Lists(op, RespondWorkflowTaskFailed(ns, node.cause)))
  {
    CauseChainComposes(ns, op, node);
    var info := InfoList(ns, op, node.info);
    var attributes := match node.encodedAttributes
                      case None => []
                      case Some(payload) => [Plainly(ns, op, "encoded_attributes", Some([payload]))];
    DetectedConcat(attributes, info);
    assert Detected([]) == [];
  }
}
