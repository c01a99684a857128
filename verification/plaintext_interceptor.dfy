/** The interceptor: it walks a request, counts and logs every unencrypted payload it covers,
    and lets the request through. */
module PlaintextInterception {
  import opened Wrappers
  import opened Filtering
  import opened PlaintextRequests

  /** A log entry names the workflow type and the task queue only where there is one. */
  datatype Warning = Warning(
    ns: string, operation: string, location: string, encoding: string,
    workflowType: Option<string>, taskQueue: Option<string>)

  function Named(name: string): Option<string> {
    if name == "" then None else Some(name)
  }

  function WarningOf(d: Detection): Warning {
    Warning(d.tags.ns, d.tags.operation, d.tags.location, d.encoding,
            Named(d.tags.workflowType), Named(d.tags.taskQueue))
  }

  function Warnings(detections: seq<Detection>): (warnings: seq<Warning>)
    ensures |warnings| == |detections|
    ensures forall i | 0 <= i < |warnings| ::
              var warning, d := warnings[i], detections[i];
              && warning.ns == d.tags.ns && warning.operation == d.tags.operation
              && warning.location == d.tags.location && warning.encoding == d.encoding
              && warning.workflowType == (if d.tags.workflowType == "" then None else Some(d.tags.workflowType))
              && warning.taskQueue == (if d.tags.taskQueue == "" then None else Some(d.tags.taskQueue))
  {
    seq(|detections|, i requires 0 <= i < |detections| => WarningOf(detections[i]))
  }

  lemma WarningsConcat(a: seq<Detection>, b: seq<Detection>)
    ensures Warnings(a + b) == Warnings(a) + Warnings(b)
  {
  }

  /** Emitting first one part and then another is emitting the concatenation. */
  lemma Joins(records: seq<Detection>, warnings: seq<Warning>,
              a: seq<Detection>, b: seq<Detection>, both: seq<Detection>)
    requires both == a + b
    ensures records + a + b == records + both
    ensures warnings + Warnings(a) + Warnings(b) == warnings + Warnings(both)
  {
    WarningsConcat(a, b);
  }

  lemma Appended(records: seq<Detection>, warnings: seq<Warning>, a: seq<Labelled>, b: seq<Labelled>)
    ensures records + Detected(a) + Detected(b) == records + Detected(a + b)
    ensures warnings + Warnings(Detected(a)) + Warnings(Detected(b)) == warnings + Warnings(Detected(a + b))
  {
    DetectedConcat(a, b);
    Joins(records, warnings, Detected(a), Detected(b), Detected(a + b));
  }

  /** The counter of detections. Every record carries all six tags, empty or not. */
  class MetricsHandler {
    var records: seq<Detection>

    constructor ()
      ensures records == []
    {
      records := [];
    }

    method Record(detection: Detection)
      modifies this
      ensures records == old(records) + [detection]
    {
      records := records + [detection];
    }
  }

  class Logger {
    var warnings: seq<Warning>

    constructor ()
      ensures warnings == []
    {
      warnings := [];
    }

    method Warn(warning: Warning)
      modifies this
      ensures warnings == old(warnings) + [warning]
    {
      warnings := warnings + [warning];
    }
  }

  class PlaintextInterceptor {
    const metrics: MetricsHandler
    const logger: Logger

    constructor (metrics: MetricsHandler, logger: Logger)
      ensures this.metrics == metrics && this.logger == logger
    {
      this.metrics := metrics;
      this.logger := logger;
    }

    /** Since the old state, exactly these detections were counted, and logged one to one. */
    twostate predicate Emitted(detections: seq<Detection>)
      reads metrics, logger
    {
      && metrics.records == old(metrics.records) + detections
      && logger.warnings == old(logger.warnings) + Warnings(detections)
    }

    /** The check never changes or stops a request: the handler's result is the answer. */
    method Intercept<R>(request: Request, op: string, handler: Request -> R) returns (response: R)
      modifies metrics, logger
      ensures response == handler(request)
      ensures Emitted(Detected(Lists(op, request)))
    {
      Check(request, op);
      response := handler(request);
    }

    method Check(request: Request, op: string)
      modifies metrics, logger
      ensures Emitted(Detected(Lists(op, request)))
      decreases if request.ExecuteMultiOperation? then 2 else 0
    {
      ghost var lists := Lists(op, request);
      match request
      case StartWorkflow(r) => ScanAt(StartList(op, r).tags, r.input, lists);
      case SignalWithStart(r, signalInput) => CheckSignalWithStart(op, r, signalInput);
      case SignalWorkflow(ns, input) => ScanAt(Tags(ns, "", "", op, "input"), input, lists);
      case QueryWorkflow(ns, queryArgs) => ScanAt(Tags(ns, "", "", op, "query_args"), queryArgs, lists);
      case UpdateWorkflow(r) => ScanAt(Tags(r.ns, "", "", op, "update_args"), r.args, lists);
      case RespondActivityTaskCompleted(ns, result) => ScanAt(Tags(ns, "", "", op, "result"), result, lists);
      case RespondWorkflowTaskCompleted(ns, commands) => ScanCommands(ns, op, commands);
      case CreateSchedule(ns, action) => ScanScheduleAction(ns, op, action);
      case UpdateSchedule(ns, action) => ScanScheduleAction(ns, op, action);
      case RecordActivityTaskHeartbeat(ns, details) => ScanAt(Tags(ns, "", "", op, "details"), details, lists);
      case ExecuteMultiOperation(_, operations) => CheckOperations(operations, op);
      case RespondWorkflowTaskFailed(ns, failure) => ScanFailure(ns, op, failure);
      case RespondActivityTaskFailed(ns, failure, details) => CheckActivityFailure(ns, op, failure, details);
      case OtherRequest =>
    }

    /** The input of the workflow, then the signal. */
    method CheckSignalWithStart(op: string, start: StartRequest, signalInput: Payloads)
      modifies metrics, logger
      ensures Emitted(Detected(SimpleLists(op, SignalWithStart(start, signalInput))))
    {
      var tags := StartList(op, start).tags;
      ghost var first, second := [StartList(op, start)], [Labelled(tags.(location := "signal_input"), signalInput)];
      ScanPayloads(tags, start.input);
      ScanPayloads(tags.(location := "signal_input"), signalInput);
      assert SimpleLists(op, SignalWithStart(start, signalInput)) == first + second;
      Appended(old(metrics.records), old(logger.warnings), first, second);
    }

    /** The failure, then the details of the last heartbeat. */
    method CheckActivityFailure(ns: string, op: string, failure: Option<Failure>, details: Payloads)
      modifies metrics, logger
      ensures Emitted(Detected(SimpleLists(op, RespondActivityTaskFailed(ns, failure, details))))
    {
      ScanFailure(ns, op, failure);
      ScanPayloads(Tags(ns, "", "", op, "last_heartbeat_details"), details);
      Appended(old(metrics.records), old(logger.warnings),
               FailureLists(ns, op, failure), [Plainly(ns, op, "last_heartbeat_details", details)]);
    }

    /** Delegates each operation to the check of its inner request, under the outer name. */
    method CheckOperations(operations: seq<Operation>, op: string)
      modifies metrics, logger
      ensures Emitted(Detected(OperationLists(op, operations)))
      decreases 1, 1
    {
      for i := 0 to |operations|
        invariant Emitted(Detected(OperationLists(op, operations[..i])))
      {
        CheckOperation(operations[i], op);
        OperationListsStep(op, operations, i);
        Appended(old(metrics.records), old(logger.warnings),
                 OperationLists(op, operations[..i]), SimpleLists(op, Inner(operations[i])));
      }
      assert operations[..|operations|] == operations;
    }

    /** The body of the operation loop. */
    method CheckOperation(operation: Operation, op: string)
      modifies metrics, logger
      ensures Emitted(Detected(SimpleLists(op, Inner(operation))))
      decreases 1, 0
    {
      match operation
      case StartOperation(start) => Check(StartWorkflow(start), op);
      case UpdateOperation(update) => Check(UpdateWorkflow(update), op);
      case UnsetOperation =>
    }

    method ScanCommands(ns: string, op: string, commands: seq<Command>)
      modifies metrics, logger
      ensures Emitted(Detected(CommandLists(ns, op, commands)))
    {
      for i := 0 to |commands|
        invariant Emitted(Detected(CommandLists(ns, op, commands[..i])))
      {
        ScanCommand(ns, op, commands[i]);
        CommandListsStep(ns, op, commands, i);
        Appended(old(metrics.records), old(logger.warnings),
                 CommandLists(ns, op, commands[..i]), CommandList(ns, op, commands[i]));
      }
      assert commands[..|commands|] == commands;
    }

    /** The body of the command loop. */
    method ScanCommand(ns: string, op: string, command: Command)
      modifies metrics, logger
      ensures Emitted(Detected(CommandList(ns, op, command)))
    {
      var workflowType, taskQueue := "", "";
      var payloads: Payloads;
      match command.attributes {
        case ScheduleActivityTask(input) => payloads := input;
        case CompleteWorkflowExecution(result) => payloads := result;
        case CancelWorkflowExecution(details) => payloads := details;
        case SignalExternalWorkflowExecution(input) => payloads := input;
        case StartChildWorkflowExecution(input, wfType, queue) =>
          payloads, workflowType, taskQueue := input, wfType, queue;
        case ContinueAsNewWorkflowExecution(input, wfType) => payloads, workflowType := input, wfType;
        case OtherAttributes => return;
      }
      ScanPayloads(Tags(ns, workflowType, taskQueue, op, command.commandType), payloads);
    }

    method ScanScheduleAction(ns: string, op: string, action: Option<ScheduleAction>)
      modifies metrics, logger
      ensures Emitted(Detected(ActionLists(ns, op, action)))
    {
      if action.None? {
        return;
      }
      if !action.value.StartWorkflowAction? || action.value.workflow.None? {
        return;
      }
      var workflow := action.value.workflow.value;
      ScanPayloads(Tags(ns, workflow.workflowType, workflow.taskQueue, op, "input"), workflow.input);
    }

    /** Walks a failure and its cause chain. */
    method ScanFailure(ns: string, op: string, failure: Option<Failure>)
      modifies metrics, logger
      ensures Emitted(Detected(FailureLists(ns, op, failure)))
      decreases failure
    {
      if failure.None? {
        return;
      }
      var node := failure.value;
      ScanNode(ns, op, node);
      ScanFailure(ns, op, node.cause);
      CauseChainComposes(ns, op, node);
      Joins(old(metrics.records), old(logger.warnings), Detected(NodeLists(ns, op, node)),
            Detected(FailureLists(ns, op, node.cause)), Detected(FailureLists(ns, op, failure)));
    }

    /** One failure: its encoded attributes, then the details of its info. */
    method ScanNode(ns: string, op: string, node: Failure)
      modifies metrics, logger
      ensures Emitted(Detected(NodeLists(ns, op, node)))
    {
      ghost var attributes := match node.encodedAttributes
                              case None => []
                              case Some(payload) => [Plainly(ns, op, "encoded_attributes", Some([payload]))];
      if node.encodedAttributes.Some? {
        ScanPayloads(Tags(ns, "", "", op, "encoded_attributes"), Some([node.encodedAttributes.value]));
      }
      assert Emitted(Detected(attributes));
      match node.info {
        case ApplicationFailureInfo(details) =>
          ScanPayloads(Tags(ns, "", "", op, "ApplicationFailureInfo.details"), details);
        case CanceledFailureInfo(details) =>
          ScanPayloads(Tags(ns, "", "", op, "CanceledFailureInfo.details"), details);
        case TimeoutFailureInfo(details) =>
          ScanPayloads(Tags(ns, "", "", op, "TimeoutFailureInfo.last_heartbeat_details"), details);
        case OtherFailureInfo =>
      }
      Appended(old(metrics.records), old(logger.warnings), attributes, InfoList(ns, op, node.info));
    }

    /** Scans the only payload list of a request. */
    method ScanAt(tags: Tags, payloads: Payloads, ghost lists: seq<Labelled>)
      requires lists == [Labelled(tags, payloads)]
      modifies metrics, logger
      ensures Emitted(Detected(lists))
    {
      ScanPayloads(tags, payloads);
    }

    /** Counts and logs every unencrypted payload of a list. */
    method ScanPayloads(tags: Tags, payloads: Payloads)
      modifies metrics, logger
      ensures Emitted(Detected([Labelled(tags, payloads)]))
    {
      DetectedInOne(tags, payloads);
      if payloads.None? {
        return;
      }
      var list := payloads.value;
      ghost var positions := Positions(Labelled(tags, payloads));
      for i := 0 to |list|
        invariant Emitted(Unencrypted(positions[..i]))
      {
        var encoding := EncodingOf(list[i]);
        FilterStep(Reported, positions, i);
        if !IsUnencrypted(encoding) {
          continue;
        }
        var detection := Detection(tags, encoding);
        WarningsConcat(Unencrypted(positions[..i]), [detection]);
        metrics.Record(detection);
        logger.Warn(WarningOf(detection));
      }
      assert positions[..|list|] == positions;
    }
  }

  // ---- One step of each loop ----

  lemma DetectedInOne(tags: Tags, payloads: Payloads)
    ensures Detected([Labelled(tags, payloads)]) == Unencrypted(Positions(Labelled(tags, payloads)))
  {
    var lists := [Labelled(tags, payloads)];
    assert AllPositions(lists[1..]) == [];
    assert Positions(lists[0]) + [] == Positions(lists[0]);
  }

  lemma {:induction false} CommandListsStep(ns: string, op: string, commands: seq<Command>, i: nat)
    requires i < |commands|
    ensures CommandLists(ns, op, commands[..i + 1])
            == CommandLists(ns, op, commands[..i]) + CommandList(ns, op, commands[i])
  {
    if i == 0 {
      assert commands[..1] == [commands[0]] && commands[..0] == [];
      assert CommandLists(ns, op, [commands[0]][1..]) == [];
    } else {
      assert commands[..i + 1][1..] == commands[1..][..i] && commands[..i][1..] == commands[1..][..i - 1];
      CommandListsStep(ns, op, commands[1..], i - 1);
    }
  }

  lemma {:induction false} OperationListsStep(op: string, operations: seq<Operation>, i: nat)
    requires i < |operations|
    ensures OperationLists(op, operations[..i + 1])
            == OperationLists(op, operations[..i]) + SimpleLists(op, Inner(operations[i]))
  {
    if i == 0 {
      assert operations[..1] == [operations[0]] && operations[..0] == [];
      assert OperationLists(op, [operations[0]][1..]) == [];
    } else {
      assert operations[..i + 1][1..] == operations[1..][..i] && operations[..i][1..] == operations[1..][..i - 1];
      OperationListsStep(op, operations[1..], i - 1);
    }
  }
}
