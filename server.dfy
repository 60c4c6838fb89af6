/**
  The diagnostics-only language server (`crates/flir-lsp/src/server.rs`)
  as a single-threaded state machine. The session owns the open documents
  and the shutdown latch; the server owns the task channel (to the
  workers), the event channel (from the workers), and the outbox of
  messages sent to the client. Each handler is proved to have exactly the
  effect of a pure step function, and the protocol's promises are lemmas
  about those functions. What `select!` would pick from the two channels
  comes in as a schedule of inputs; parsing of params is abstracted to
  whether the params have the shape the method expects.
*/
module Server {
  import opened Wrappers
  import opened Positions
  import opened Lint
  import Messages

  // ----- Protocol values -------------------------------------------------------------

  datatype RequestId = NumberId(number: int) | StringId(name: string)

  /** One entry of `contentChanges`: a range to replace (or none, for the whole text) and its text. */
  datatype ContentChange = ContentChange(range: Option<LspRange>, text: string)

  /** The params of a message, by the shape they parse into. */
  datatype Params =
    | TextDocumentParams(uri: string)
    | DidOpenParams(uri: string, languageId: string, version: int, text: string)
    | DidChangeParams(uri: string, version: int, changes: seq<ContentChange>)
    | OtherParams

  /** A message from the client: a request, a notification, or a response to a server request. */
  datatype Message =
    | Request(id: RequestId, methodName: string, params: Params)
    | Notification(methodName: string, params: Params)
    | ClientResponse(id: RequestId)

  const SHUTDOWN: string := "shutdown"
  const DOCUMENT_DIAGNOSTIC: string := "textDocument/diagnostic"
  const EXIT: string := "exit"
  const DID_OPEN: string := "textDocument/didOpen"
  const DID_CHANGE: string := "textDocument/didChange"
  const DID_CLOSE: string := "textDocument/didClose"

  /** JSON-RPC 2.0 "Method not found" (section 5.1 of the JSON-RPC 2.0 specification). */
  const METHOD_NOT_FOUND: int := -32601

  datatype RequestKind = ShutdownRequest | DiagnosticRequest | OtherRequest
  datatype NotificationKind = ExitNotification | DidOpen | DidChange | DidClose | OtherNotification

  function RequestKindOf(methodName: string): RequestKind
  {
    if methodName == SHUTDOWN then ShutdownRequest
    else if methodName == DOCUMENT_DIAGNOSTIC then DiagnosticRequest
    else OtherRequest
  }

  function NotificationKindOf(methodName: string): NotificationKind
  {
    if methodName == EXIT then ExitNotification
    else if methodName == DID_OPEN then DidOpen
    else if methodName == DID_CHANGE then DidChange
    else if methodName == DID_CLOSE then DidClose
    else OtherNotification
  }

  /** The two error texts the server replies with. */
  datatype ErrorText = DocumentNotFound | MethodNotSupported

  function Text(e: ErrorText): string
  {
    match e
    case DocumentNotFound => "Document not found"
    case MethodNotSupported => "Method not supported - this is a diagnostics-only LSP server"
  }

  datatype ResponseError = ResponseError(code: int, message: ErrorText)

  /** A full document diagnostic report: no `result_id`, the items, no related documents. */
  datatype Report = FullReport(resultId: Option<string>, items: seq<LspDiagnostic>, relatedDocuments: Option<seq<string>>)

  datatype ResponseResult = NullResult | DiagnosticReport(report: Report)

  datatype Response = Response(id: RequestId, result: Option<ResponseResult>, error: Option<ResponseError>)

  /** What goes out to the client. */
  datatype Outgoing =
    | Sent(response: Response)
    | PublishDiagnostics(uri: string, diagnostics: seq<LspDiagnostic>, version: Option<int>)

  datatype Task =
    | LintTask(snapshot: DocumentSnapshot)
    | DiagnosticRequestTask(snapshot: DocumentSnapshot, requestId: RequestId)

  datatype Event = MessageEvent(message: Message) | SendResponse(response: Response) | ShutdownEvent

  /** An open document: its text, version and language. */
  datatype TextDocument = TextDocument(content: string, version: int, languageId: Option<string>)

  /** Why a handler failed; the main loop only logs it. */
  datatype HandlerError = ParamsError | SessionError(reason: string)

  /**
    What the session and the workers draw on without this model seeing how:
    push or pull mode, the negotiated encoding, the code `to_lsp_error`
    gives, the file path of a URI, the document update, and the lint engine.
  */
  datatype Config = Config(
    supportsPull: bool,
    encoding: PositionEncoding,
    defaultErrorCode: int,
    filePathOf: string -> Option<string>,
    update: (Option<TextDocument>, seq<ContentChange>, int) -> Result<TextDocument, string>,
    engine: string -> Result<seq<Messages.Diagnostic>, string>)

  // ----- The state machine as values -------------------------------------------------

  datatype SessionState = SessionState(documents: map<string, TextDocument>, shutdownRequested: bool)

  datatype Channels = Channels(
    tasks: seq<Task>,
    events: seq<Event>,
    outbox: seq<Outgoing>,
    clientResponses: seq<RequestId>,
    exited: bool)

  datatype Outcome = Outcome(session: SessionState, channels: Channels, result: Result<(), HandlerError>)

  /** `take_snapshot`: the document's current state with the session's context, if it is open. */
  function Snapshot(cfg: Config, documents: map<string, TextDocument>, uri: string): (r: Option<DocumentSnapshot>)
    ensures r.Some? <==> uri in documents
    ensures r.Some? ==> && r.value.uri == uri && r.value.content == documents[uri].content
                        && r.value.version == documents[uri].version
                        && r.value.languageId == documents[uri].languageId
                        && r.value.encoding == cfg.encoding && r.value.filePath == cfg.filePathOf(uri)
  {
    if uri in documents then
      var d := documents[uri];
      Some(DocumentSnapshot(uri, d.content, d.version, d.languageId, cfg.encoding, cfg.filePathOf(uri)))
    else None
  }

  function ErrorResponse(id: RequestId, code: int, text: ErrorText): Response
  {
    Response(id, None, Some(ResponseError(code, text)))
  }

  /** In push mode, a lint task for the document at `uri`. */
  function PushLint(cfg: Config, documents: map<string, TextDocument>, uri: string, ch: Channels): Channels
    requires uri in documents
  {
    if !cfg.supportsPull then ch.(tasks := ch.tasks + [LintTask(Snapshot(cfg, documents, uri).value)]) else ch
  }

  /** `handle_request`. */
  function RequestStep(cfg: Config, s: SessionState, ch: Channels, id: RequestId, methodName: string, params: Params): Outcome
  {
    match RequestKindOf(methodName)
    case ShutdownRequest =>
      Outcome(s.(shutdownRequested := true), ch.(outbox := ch.outbox + [Sent(Response(id, Some(NullResult), None))]), Ok(()))
    case DiagnosticRequest =>
      if !params.TextDocumentParams? then Outcome(s, ch, Err(ParamsError))
      else
        var snapshot := Snapshot(cfg, s.documents, params.uri);
        if snapshot.Some? then
          Outcome(s, ch.(tasks := ch.tasks + [DiagnosticRequestTask(snapshot.value, id)]), Ok(()))
        else
          Outcome(s, ch.(outbox := ch.outbox + [Sent(ErrorResponse(id, cfg.defaultErrorCode, DocumentNotFound))]), Ok(()))
    case OtherRequest =>
      Outcome(s, ch.(outbox := ch.outbox + [Sent(ErrorResponse(id, METHOD_NOT_FOUND, MethodNotSupported))]), Ok(()))
  }

  /** `handle_notification`; `exit` ends the process, which is the terminal state `exited`. */
  function NotificationStep(cfg: Config, s: SessionState, ch: Channels, methodName: string, params: Params): Outcome
  {
    match NotificationKindOf(methodName)
    case ExitNotification => Outcome(s, ch.(exited := true), Ok(()))
    case DidOpen =>
      if !params.DidOpenParams? then Outcome(s, ch, Err(ParamsError))
      else
        var documents := s.documents[params.uri := TextDocument(params.text, params.version, Some(params.languageId))];
        Outcome(s.(documents := documents), PushLint(cfg, documents, params.uri, ch), Ok(()))
    case DidChange =>
      if !params.DidChangeParams? then Outcome(s, ch, Err(ParamsError))
      else
        var current := if params.uri in s.documents then Some(s.documents[params.uri]) else None;
        var updated := cfg.update(current, params.changes, params.version);
        if updated.Err? then Outcome(s, ch, Err(SessionError(updated.error)))
        else
          var documents := s.documents[params.uri := updated.value];
          Outcome(s.(documents := documents), PushLint(cfg, documents, params.uri, ch), Ok(()))
    case DidClose =>
      if !params.TextDocumentParams? then Outcome(s, ch, Err(ParamsError))
      else if params.uri !in s.documents then Outcome(s, ch, Err(SessionError(params.uri)))
      else
        Outcome(s.(documents := s.documents - {params.uri}),
                ch.(outbox := ch.outbox + [PublishDiagnostics(params.uri, [], None)]), Ok(()))
    case OtherNotification => Outcome(s, ch, Ok(()))
  }

  /** `handle_message`: a response from the client goes to the client handle. */
  function MessageStep(cfg: Config, s: SessionState, ch: Channels, m: Message): Outcome
  {
    match m
    case Request(id, methodName, params) => RequestStep(cfg, s, ch, id, methodName, params)
    case Notification(methodName, params) => NotificationStep(cfg, s, ch, methodName, params)
    case ClientResponse(id) => Outcome(s, ch.(clientResponses := ch.clientResponses + [id]), Ok(()))
  }

  // ----- The main loop ------------------------------------------------------------

  /** What `select!` hands the main loop next. */
  datatype Input = FromClient(message: Message) | ClientClosed | FromWorkers(event: Event) | WorkersClosed

  /** The state after one input, and whether the loop stops there. */
  datatype After = After(session: SessionState, channels: Channels, stop: bool)

  /**
    One turn of `main_loop`: a closed channel or a shutdown event stops it
    at once; otherwise the input is handled (errors are only logged) and the
    loop stops when shutdown has been requested or the process has exited.
  */
  function Turn(cfg: Config, s: SessionState, ch: Channels, input: Input): After
  {
    match input
    case ClientClosed => After(s, ch, true)
    case WorkersClosed => After(s, ch, true)
    case FromWorkers(ShutdownEvent) => After(s, ch, true)
    case FromWorkers(SendResponse(response)) =>
      After(s, ch.(outbox := ch.outbox + [Sent(response)]), s.shutdownRequested || ch.exited)
    case FromWorkers(MessageEvent(m)) =>
      var o := MessageStep(cfg, s, ch, m);
      After(o.session, o.channels, o.session.shutdownRequested || o.channels.exited)
    case FromClient(m) =>
      var o := MessageStep(cfg, s, ch, m);
      After(o.session, o.channels, o.session.shutdownRequested || o.channels.exited)
  }

  /** The loop's final state and how many inputs it took; all of them when it never stopped. */
  datatype Finished = Finished(session: SessionState, channels: Channels, taken: nat)

  function Loop(cfg: Config, s: SessionState, ch: Channels, inputs: seq<Input>): (r: Finished)
    ensures r.taken <= |inputs|
    decreases |inputs|
  {
    if inputs == [] then Finished(s, ch, 0)
    else
      var a := Turn(cfg, s, ch, inputs[0]);
      if a.stop then Finished(a.session, a.channels, 1)
      else
        var rest := Loop(cfg, a.session, a.channels, inputs[1..]);
        Finished(rest.session, rest.channels, 1 + rest.taken)
  }

  // ----- The workers ----------------------------------------------------------------

  /** Linting a snapshot converts every diagnostic without a panic. */
  predicate TaskDefined(cfg: Config, t: Task)
  {
    LintDefined(t.snapshot, cfg.engine)
  }

  predicate AllTasksDefined(cfg: Config, tasks: seq<Task>)
  {
    forall k :: 0 <= k < |tasks| ==> TaskDefined(cfg, tasks[k])
  }

  /**
    One task: a lint task publishes for the snapshot's URI and version; a
    diagnostic request emits its full report as a response event. When
    linting fails the error is only logged and nothing is sent.
  */
  function TaskStep(cfg: Config, ch: Channels, t: Task): Channels
    requires TaskDefined(cfg, t)
  {
    var diagnostics := LintResult(t.snapshot, cfg.engine);
    if diagnostics.Err? then ch
    else
      match t
      case LintTask(snapshot) =>
        ch.(outbox := ch.outbox + [PublishDiagnostics(snapshot.uri, diagnostics.value, Some(snapshot.version))])
      case DiagnosticRequestTask(_, id) =>
        ch.(events := ch.events + [SendResponse(Response(id, Some(DiagnosticReport(FullReport(None, diagnostics.value, None))), None))])
  }

  /** The workers take the tasks in order until the channel is empty. */
  function Drain(cfg: Config, ch: Channels): (r: Channels)
    requires AllTasksDefined(cfg, ch.tasks)
    ensures r.tasks == []
    decreases |ch.tasks|
  {
    if ch.tasks == [] then ch
    else
      var t := ch.tasks[0];
      var rest := ch.tasks[1..];
      assert forall k :: 0 <= k < |rest| ==> rest[k] == ch.tasks[k + 1];
      Drain(cfg, TaskStep(cfg, ch.(tasks := rest), t))
  }

  // ----- The session as an object ------------------------------------------------------

  class Session {
    var documents: map<string, TextDocument>
    var shutdownRequested: bool
    const config: Config

    function Value(): SessionState
      reads this
    {
      SessionState(documents, shutdownRequested)
    }

    /** A new session: no documents and no shutdown requested yet. */
    constructor(config: Config)
      ensures this.config == config && documents == map[] && !shutdownRequested
    {
      this.config := config;
      documents := map[];
      shutdownRequested := false;
    }

    /** `open_document`: insert or overwrite. */
    method OpenDocument(uri: string, document: TextDocument)
      modifies this
      ensures documents == old(documents)[uri := document] && shutdownRequested == old(shutdownRequested)
    {
      documents := documents[uri := document];
    }

    /** `update_document`: the update decides; on failure nothing changes. */
    method UpdateDocument(uri: string, changes: seq<ContentChange>, version: int) returns (r: Result<(), HandlerError>)
      modifies this
      ensures var current := if uri in old(documents) then Some(old(documents)[uri]) else None;
              var updated := config.update(current, changes, version);
              && (updated.Err? ==> r == Err(SessionError(updated.error)) && documents == old(documents))
              && (updated.Ok? ==> r == Ok(()) && documents == old(documents)[uri := updated.value])
      ensures shutdownRequested == old(shutdownRequested)
    {
      var current := if uri in documents then Some(documents[uri]) else None;
      var updated := config.update(current, changes, version);
      if updated.Err? {
        return Err(SessionError(updated.error));
      }
      documents := documents[uri := updated.value];
      return Ok(());
    }

    /** `close_document`: fails for a document that is not open. */
    method CloseDocument(uri: string) returns (r: Result<(), HandlerError>)
      modifies this
      ensures uri in old(documents) ==> r == Ok(()) && documents == old(documents) - {uri}
      ensures uri !in old(documents) ==> r == Err(SessionError(uri)) && documents == old(documents)
      ensures shutdownRequested == old(shutdownRequested)
    {
      if uri !in documents {
        return Err(SessionError(uri));
      }
      documents := documents - {uri};
      return Ok(());
    }

    function TakeSnapshot(uri: string): (r: Option<DocumentSnapshot>)
      reads this
      ensures r == Snapshot(config, documents, uri)
    {
      Snapshot(config, documents, uri)
    }

    /** `request_shutdown`: set the latch. */
    method RequestShutdown()
      modifies this
      ensures shutdownRequested && documents == old(documents)
    {
      shutdownRequested := true;
    }
  }

  // ----- The server as an object -------------------------------------------------------

  class Server {
    var tasks: seq<Task>
    var events: seq<Event>
    var outbox: seq<Outgoing>
    var clientResponses: seq<RequestId>
    var exited: bool

    function Value(): Channels
      reads this
    {
      Channels(tasks, events, outbox, clientResponses, exited)
    }

    /** Empty channels and outbox; the process is running. */
    constructor()
      ensures Value() == Channels([], [], [], [], false)
    {
      tasks := [];
      events := [];
      outbox := [];
      clientResponses := [];
      exited := false;
    }

    /** `client.send_response` / `send_error_response`: the reply goes out in order. */
    method Send(response: Response)
      modifies this
      ensures Value() == old(Value()).(outbox := old(outbox) + [Sent(response)])
    {
      outbox := outbox + [Sent(response)];
    }

    /** `task_sender.send`. */
    method Enqueue(t: Task)
      modifies this
      ensures Value() == old(Value()).(tasks := old(tasks) + [t])
    {
      tasks := tasks + [t];
    }

    /** In push mode, enqueue a lint task for the document at `uri`. */
    method LintIfPush(session: Session, uri: string)
      requires uri in session.documents
      modifies this
      ensures Value() == PushLint(session.config, session.documents, uri, old(Value()))
    {
      if !session.config.supportsPull {
        var snapshot := session.TakeSnapshot(uri);
        Enqueue(LintTask(snapshot.value));
      }
    }

    method HandleRequest(session: Session, id: RequestId, methodName: string, params: Params)
      returns (r: Result<(), HandlerError>)
      modifies this, session
      ensures Outcome(session.Value(), Value(), r)
              == RequestStep(session.config, old(session.Value()), old(Value()), id, methodName, params)
    {
      match RequestKindOf(methodName)
      case ShutdownRequest =>
        session.RequestShutdown();
        Send(Response(id, Some(NullResult), None));
        return Ok(());
      case DiagnosticRequest =>
        if !params.TextDocumentParams? {
          return Err(ParamsError);
        }
        var snapshot := session.TakeSnapshot(params.uri);
        if snapshot.Some? {
          Enqueue(DiagnosticRequestTask(snapshot.value, id));
        } else {
          Send(ErrorResponse(id, session.config.defaultErrorCode, DocumentNotFound));
        }
        return Ok(());
      case OtherRequest =>
        Send(ErrorResponse(id, METHOD_NOT_FOUND, MethodNotSupported));
        return Ok(());
    }

    method HandleNotification(session: Session, methodName: string, params: Params)
      returns (r: Result<(), HandlerError>)
      modifies this, session
      ensures Outcome(session.Value(), Value(), r)
              == NotificationStep(session.config, old(session.Value()), old(Value()), methodName, params)
    {
      match NotificationKindOf(methodName)
      case ExitNotification =>
        exited := true;
        return Ok(());
      case DidOpen =>
        if !params.DidOpenParams? {
          return Err(ParamsError);
        }
        session.OpenDocument(params.uri, TextDocument(params.text, params.version, Some(params.languageId)));
        LintIfPush(session, params.uri);
        return Ok(());
      case DidChange =>
        if !params.DidChangeParams? {
          return Err(ParamsError);
        }
        r := session.UpdateDocument(params.uri, params.changes, params.version);
        if r.Err? {
          return r;
        }
        LintIfPush(session, params.uri);
      case DidClose =>
        if !params.TextDocumentParams? {
          return Err(ParamsError);
        }
        r := session.CloseDocument(params.uri);
        if r.Err? {
          return r;
        }
        outbox := outbox + [PublishDiagnostics(params.uri, [], None)];
      case OtherNotification =>
        return Ok(());
    }

    method HandleMessage(session: Session, m: Message) returns (r: Result<(), HandlerError>)
      modifies this, session
      ensures Outcome(session.Value(), Value(), r) == MessageStep(session.config, old(session.Value()), old(Value()), m)
    {
      match m
      case Request(id, methodName, params) =>
        r := HandleRequest(session, id, methodName, params);
      case Notification(methodName, params) =>
        r := HandleNotification(session, methodName, params);
      case ClientResponse(id) =>
        clientResponses := clientResponses + [id];
        r := Ok(());
    }

    /** One turn of the loop; `stop` says whether it breaks out. */
    method HandleInput(session: Session, input: Input) returns (stop: bool)
      modifies this, session
      ensures After(session.Value(), Value(), stop) == Turn(session.config, old(session.Value()), old(Value()), input)
    {
      match input {
        case ClientClosed =>
          return true;
        case WorkersClosed =>
          return true;
        case FromWorkers(ShutdownEvent) =>
          return true;
        case FromWorkers(SendResponse(response)) =>
          Send(response);
        case FromWorkers(MessageEvent(m)) =>
          var _ := HandleMessage(session, m);
        case FromClient(m) =>
          var _ := HandleMessage(session, m);
      }
      stop := session.shutdownRequested || exited;
    }

    /** `main_loop` over a schedule of inputs; returns how many it took before it stopped. */
    method MainLoop(session: Session, inputs: seq<Input>) returns (taken: nat)
      modifies this, session
      ensures Finished(session.Value(), Value(), taken) == Loop(session.config, old(session.Value()), old(Value()), inputs)
    {
      ghost var expected := Loop(session.config, session.Value(), Value(), inputs);
      var i := 0;
      while i < |inputs|
        invariant 0 <= i <= |inputs|
        invariant var rest := Loop(session.config, session.Value(), Value(), inputs[i..]);
                  expected == Finished(rest.session, rest.channels, i + rest.taken)
        decreases |inputs| - i
      {
        assert inputs[i..][1..] == inputs[i + 1..];
        var stop := HandleInput(session, inputs[i]);
        if stop {
          return i + 1;
        }
        i := i + 1;
      }
      return i;
    }

    /** `handle_lint_task`: publish the document's diagnostics with its version. */
    method HandleLintTask(config: Config, snapshot: DocumentSnapshot)
      requires LintDefined(snapshot, config.engine)
      modifies this
      ensures Value() == TaskStep(config, old(Value()), LintTask(snapshot))
    {
      var diagnostics := LintDocument(snapshot, config.engine);
      if diagnostics.Err? {
        return;
      }
      outbox := outbox + [PublishDiagnostics(snapshot.uri, diagnostics.value, Some(snapshot.version))];
    }

    /** `handle_diagnostic_request`: hand the full report to the main loop as a response event. */
    method HandleDiagnosticRequest(config: Config, snapshot: DocumentSnapshot, id: RequestId)
      requires LintDefined(snapshot, config.engine)
      modifies this
      ensures Value() == TaskStep(config, old(Value()), DiagnosticRequestTask(snapshot, id))
    {
      var diagnostics := LintDocument(snapshot, config.engine);
      if diagnostics.Err? {
        return;
      }
      var report := FullReport(None, diagnostics.value, None);
      events := events + [SendResponse(Response(id, Some(DiagnosticReport(report)), None))];
    }

    /** `worker_thread`: take tasks in order until none is left. */
    method WorkerThread(config: Config)
      requires AllTasksDefined(config, tasks)
      modifies this
      ensures Value() == Drain(config, old(Value()))
    {
      ghost var expected := Drain(config, Value());
      while tasks != []
        invariant AllTasksDefined(config, tasks)
        invariant Drain(config, Value()) == expected
        decreases |tasks|
      {
        var task := tasks[0];
        assert TaskDefined(config, task);
        tasks := tasks[1..];
        match task
        case LintTask(snapshot) =>
          HandleLintTask(config, snapshot);
        case DiagnosticRequestTask(snapshot, id) =>
          HandleDiagnosticRequest(config, snapshot, id);
      }
    }
  }

  // ----- Protocol properties ----------------------------------------------------------

  /** `shutdown` sets the latch and answers the same id with an empty success; nothing else changes. */
  lemma ShutdownLatches(cfg: Config, s: SessionState, ch: Channels, id: RequestId, methodName: string, params: Params)
    requires methodName == SHUTDOWN
    ensures var o := RequestStep(cfg, s, ch, id, methodName, params);
            && o.result == Ok(()) && o.session == s.(shutdownRequested := true)
            && o.channels == ch.(outbox := ch.outbox + [Sent(Response(id, Some(NullResult), None))])
  {
  }

  /**
    A diagnostic request for an open document enqueues exactly one task,
    carrying the request id and the document's snapshot, and sends nothing;
    for a document that is not open it sends "Document not found" to that
    id and enqueues nothing. The session is unchanged either way.
  */
  lemma DiagnosticRequestRouted(cfg: Config, s: SessionState, ch: Channels, id: RequestId, methodName: string, uri: string)
    requires methodName == DOCUMENT_DIAGNOSTIC
    ensures var o := RequestStep(cfg, s, ch, id, methodName, TextDocumentParams(uri));
            && o.result == Ok(()) && o.session == s
            && (uri in s.documents ==>
                  o.channels == ch.(tasks := ch.tasks + [DiagnosticRequestTask(Snapshot(cfg, s.documents, uri).value, id)]))
            && (uri !in s.documents ==>
                  o.channels == ch.(outbox := ch.outbox + [Sent(ErrorResponse(id, cfg.defaultErrorCode, DocumentNotFound))]))
  {
  }

  /** A diagnostic request whose params do not parse fails and changes nothing. */
  lemma MalformedDiagnosticRequest(cfg: Config, s: SessionState, ch: Channels, id: RequestId, methodName: string, params: Params)
    requires methodName == DOCUMENT_DIAGNOSTIC && !params.TextDocumentParams?
    ensures RequestStep(cfg, s, ch, id, methodName, params) == Outcome(s, ch, Err(ParamsError))
  {
  }

  /** Any other request gets a -32601 error for its id; session and tasks are unchanged. */
  lemma UnknownRequestRejected(cfg: Config, s: SessionState, ch: Channels, id: RequestId, methodName: string, params: Params)
    requires methodName != SHUTDOWN && methodName != DOCUMENT_DIAGNOSTIC
    ensures var o := RequestStep(cfg, s, ch, id, methodName, params);
            && o.result == Ok(()) && o.session == s
            && o.channels == ch.(outbox := ch.outbox + [Sent(Response(id, None, Some(ResponseError(METHOD_NOT_FOUND, MethodNotSupported))))])
  {
  }

  /**
    `didOpen` stores the text, version and language id under the URI and,
    only in push mode, enqueues one lint task for exactly that document.
  */
  lemma DidOpenStores(cfg: Config, s: SessionState, ch: Channels, methodName: string,
                      uri: string, languageId: string, version: int, text: string)
    requires methodName == DID_OPEN
    ensures var o := NotificationStep(cfg, s, ch, methodName, DidOpenParams(uri, languageId, version, text));
            && o.result == Ok(())
            && o.session.documents == s.documents[uri := TextDocument(text, version, Some(languageId))]
            && o.session.shutdownRequested == s.shutdownRequested
            && o.channels.outbox == ch.outbox && o.channels.events == ch.events
            && (cfg.supportsPull ==> o.channels.tasks == ch.tasks)
            && (!cfg.supportsPull ==>
                  && |o.channels.tasks| == |ch.tasks| + 1 && o.channels.tasks[..|ch.tasks|] == ch.tasks
                  && o.channels.tasks[|ch.tasks|].LintTask?
                  && o.channels.tasks[|ch.tasks|].snapshot.uri == uri
                  && o.channels.tasks[|ch.tasks|].snapshot.content == text
                  && o.channels.tasks[|ch.tasks|].snapshot.version == version)
  {
    var documents := s.documents[uri := TextDocument(text, version, Some(languageId))];
    var snapshot := Snapshot(cfg, documents, uri);
    assert (ch.tasks + [LintTask(snapshot.value)])[..|ch.tasks|] == ch.tasks;
  }

  /** A failed `update_document` is propagated: no document changes and nothing is enqueued or sent. */
  lemma DidChangeFailureChangesNothing(cfg: Config, s: SessionState, ch: Channels, methodName: string,
                                       uri: string, version: int, changes: seq<ContentChange>)
    requires methodName == DID_CHANGE
    requires cfg.update(if uri in s.documents then Some(s.documents[uri]) else None, changes, version).Err?
    ensures var o := NotificationStep(cfg, s, ch, methodName, DidChangeParams(uri, version, changes));
            o.result.Err? && o.session == s && o.channels == ch
  {
  }

  /** A successful change stores the updated document and, in push mode, enqueues one lint task for it. */
  lemma DidChangeRelints(cfg: Config, s: SessionState, ch: Channels, methodName: string,
                         uri: string, version: int, changes: seq<ContentChange>)
    requires methodName == DID_CHANGE
    requires cfg.update(if uri in s.documents then Some(s.documents[uri]) else None, changes, version).Ok?
    ensures var updated := cfg.update(if uri in s.documents then Some(s.documents[uri]) else None, changes, version).value;
            var o := NotificationStep(cfg, s, ch, methodName, DidChangeParams(uri, version, changes));
            && o.result == Ok(())
            && o.session == s.(documents := s.documents[uri := updated])
            && o.channels.outbox == ch.outbox
            && (cfg.supportsPull ==> o.channels.tasks == ch.tasks)
            && (!cfg.supportsPull ==>
                  o.channels.tasks == ch.tasks + [LintTask(Snapshot(cfg, s.documents[uri := updated], uri).value)])
  {
  }

  /**
    `didClose` of an open document removes it and then publishes an empty
    list with no version; closing a document that is not open fails and
    publishes nothing.
  */
  lemma DidCloseClears(cfg: Config, s: SessionState, ch: Channels, methodName: string, uri: string)
    requires methodName == DID_CLOSE
    ensures var o := NotificationStep(cfg, s, ch, methodName, TextDocumentParams(uri));
            && (uri in s.documents ==>
                  && o.result == Ok(()) && o.session == s.(documents := s.documents - {uri})
                  && o.channels == ch.(outbox := ch.outbox + [PublishDiagnostics(uri, [], None)]))
            && (uri !in s.documents ==> o.result.Err? && o.session == s && o.channels == ch)
  {
  }

  /** `exit` ends the process and changes nothing else. */
  lemma ExitEnds(cfg: Config, s: SessionState, ch: Channels, methodName: string, params: Params)
    requires methodName == EXIT
    ensures NotificationStep(cfg, s, ch, methodName, params) == Outcome(s, ch.(exited := true), Ok(()))
  {
  }

  /** A notification the server does not handle changes nothing. */
  lemma UnknownNotificationIgnored(cfg: Config, s: SessionState, ch: Channels, methodName: string, params: Params)
    requires methodName !in {EXIT, DID_OPEN, DID_CHANGE, DID_CLOSE}
    ensures NotificationStep(cfg, s, ch, methodName, params) == Outcome(s, ch, Ok(()))
  {
  }

  /**
    What every message does to the channels: tasks and outgoing messages
    are only ever appended to, at most one at a time, and the events
    channel is the workers' alone.
  */
  predicate Grows(ch: Channels, next: Channels)
  {
    && ch.tasks <= next.tasks && |next.tasks| <= |ch.tasks| + 1
    && ch.outbox <= next.outbox && |next.outbox| <= |ch.outbox| + 1
    && ch.clientResponses <= next.clientResponses
    && next.events == ch.events
    && (ch.exited ==> next.exited)
  }

  /** Handling a message keeps the latch once set and only appends to the channels. */
  lemma MessageStepMonotone(cfg: Config, s: SessionState, ch: Channels, m: Message)
    ensures var o := MessageStep(cfg, s, ch, m);
            (s.shutdownRequested ==> o.session.shutdownRequested) && Grows(ch, o.channels)
  {
    var o := MessageStep(cfg, s, ch, m);
    if m.Notification? && NotificationKindOf(m.methodName).DidChange? && m.params.DidChangeParams? {
      var current := if m.params.uri in s.documents then Some(s.documents[m.params.uri]) else None;
      if cfg.update(current, m.params.changes, m.params.version).Ok? {
        assert ch.tasks <= o.channels.tasks;
      }
    }
  }

  /** Once shutdown has been requested it stays requested, whatever the loop goes on to handle. */
  lemma {:induction false} LoopKeepsLatch(cfg: Config, s: SessionState, ch: Channels, inputs: seq<Input>)
    requires s.shutdownRequested
    ensures Loop(cfg, s, ch, inputs).session.shutdownRequested
    decreases |inputs|
  {
    if inputs != [] {
      var a := Turn(cfg, s, ch, inputs[0]);
      if inputs[0].FromClient? {
        MessageStepMonotone(cfg, s, ch, inputs[0].message);
      } else if inputs[0].FromWorkers? && inputs[0].event.MessageEvent? {
        MessageStepMonotone(cfg, s, ch, inputs[0].event.message);
      }
      if !a.stop {
        LoopKeepsLatch(cfg, a.session, a.channels, inputs[1..]);
      }
    }
  }

  /** A shutdown request from the client is the last input the loop takes, unless it stopped earlier. */
  lemma {:induction false} LoopStopsAtShutdown(cfg: Config, s: SessionState, ch: Channels, inputs: seq<Input>,
                                               k: nat, id: RequestId, params: Params)
    requires k < |inputs| && inputs[k] == FromClient(Request(id, SHUTDOWN, params))
    ensures Loop(cfg, s, ch, inputs).taken <= k + 1
    decreases k
  {
    var a := Turn(cfg, s, ch, inputs[0]);
    if k > 0 && !a.stop {
      LoopStopsAtShutdown(cfg, a.session, a.channels, inputs[1..], k - 1, id, params);
    }
  }

  /**
    The loop takes every input unless it stops, and it stops only on a
    closed channel, a shutdown event, or once shutdown has been requested
    or the process has exited.
  */
  lemma {:induction false} LoopStopsOnlyForCause(cfg: Config, s: SessionState, ch: Channels, inputs: seq<Input>)
    ensures var r := Loop(cfg, s, ch, inputs);
            r.taken < |inputs| ==>
              var last := inputs[r.taken - 1];
              r.taken >= 1 &&
              (last.ClientClosed? || last.WorkersClosed? || last == FromWorkers(ShutdownEvent)
               || r.session.shutdownRequested || r.channels.exited)
    decreases |inputs|
  {
    if inputs != [] {
      var a := Turn(cfg, s, ch, inputs[0]);
      if !a.stop {
        LoopStopsOnlyForCause(cfg, a.session, a.channels, inputs[1..]);
        var rest := Loop(cfg, a.session, a.channels, inputs[1..]);
        if rest.taken < |inputs[1..]| {
          assert inputs[1..][rest.taken - 1] == inputs[rest.taken];
        }
      }
    }
  }

  // ----- Worker properties ------------------------------------------------------------

  /** A lint task whose lint succeeds publishes its diagnostics for the snapshot's URI and version. */
  lemma LintTaskPublishes(cfg: Config, ch: Channels, snapshot: DocumentSnapshot)
    requires LintDefined(snapshot, cfg.engine)
    ensures var r := LintResult(snapshot, cfg.engine);
            var next := TaskStep(cfg, ch, LintTask(snapshot));
            && next.events == ch.events && next.tasks == ch.tasks
            && (r.Ok? ==> next.outbox == ch.outbox + [PublishDiagnostics(snapshot.uri, r.value, Some(snapshot.version))])
            && (r.Err? ==> next.outbox == ch.outbox)
  {
  }

  /**
    A diagnostic request task whose lint succeeds emits exactly one response
    event: the same id, a full report of the diagnostics with no result id,
    and no error.
  */
  lemma DiagnosticTaskResponds(cfg: Config, ch: Channels, snapshot: DocumentSnapshot, id: RequestId)
    requires LintDefined(snapshot, cfg.engine)
    ensures var r := LintResult(snapshot, cfg.engine);
            var next := TaskStep(cfg, ch, DiagnosticRequestTask(snapshot, id));
            && next.outbox == ch.outbox && next.tasks == ch.tasks
            && (r.Ok? ==> && |next.events| == |ch.events| + 1 && next.events[..|ch.events|] == ch.events
                          && next.events[|ch.events|].SendResponse?
                          && next.events[|ch.events|].response.id == id
                          && next.events[|ch.events|].response.error.None?
                          && next.events[|ch.events|].response.result == Some(DiagnosticReport(FullReport(None, r.value, None))))
            && (r.Err? ==> next.events == ch.events)
  {
    if LintResult(snapshot, cfg.engine).Ok? {
      var next := TaskStep(cfg, ch, DiagnosticRequestTask(snapshot, id));
      assert next.events[..|ch.events|] == ch.events;
    }
  }

  /** The number of diagnostic request tasks among `tasks` whose lint succeeds. */
  function Answered(cfg: Config, tasks: seq<Task>): nat
    requires AllTasksDefined(cfg, tasks)
  {
    if tasks == [] then 0
    else
      assert TaskDefined(cfg, tasks[0]);
      assert AllTasksDefined(cfg, tasks[1..]) by {
        assert forall k :: 0 <= k < |tasks[1..]| ==> tasks[1..][k] == tasks[k + 1];
      }
      (if tasks[0].DiagnosticRequestTask? && LintResult(tasks[0].snapshot, cfg.engine).Ok? then 1 else 0)
        + Answered(cfg, tasks[1..])
  }

  /**
    Draining the tasks emits one response event per answered diagnostic
    request, keeps the events already there, and never touches the client
    responses or the exit flag.
  */
  lemma {:induction false} DrainAnswersEach(cfg: Config, ch: Channels)
    requires AllTasksDefined(cfg, ch.tasks)
    ensures var r := Drain(cfg, ch);
            && |r.events| == |ch.events| + Answered(cfg, ch.tasks)
            && ch.events <= r.events && ch.outbox <= r.outbox
            && r.clientResponses == ch.clientResponses && r.exited == ch.exited
    decreases |ch.tasks|
  {
    if ch.tasks != [] {
      var t := ch.tasks[0];
      var rest := ch.tasks[1..];
      assert forall k :: 0 <= k < |rest| ==> rest[k] == ch.tasks[k + 1];
      var next := TaskStep(cfg, ch.(tasks := rest), t);
      if t.LintTask? {
        LintTaskPublishes(cfg, ch.(tasks := rest), t.snapshot);
      } else {
        DiagnosticTaskResponds(cfg, ch.(tasks := rest), t.snapshot, t.requestId);
      }
      DrainAnswersEach(cfg, next);
    }
  }
}
