/**
 * The Lambda request handler: it splits the request path on '/', takes the
 * second segment as the action verb and the segments after it, joined back
 * with '/', as the item name, makes at most one store round trip, and
 * answers with a status code, a `{"message": ...}` body and fixed headers.
 */
module TodoHandler {
  import opened Results
  import opened Strings
  import opened TodoStore

  /** The JSON document `{"message": message}` that forms the response body. */
  datatype Body = MessageEnvelope(message: string)

  /** The API Gateway proxy response. */
  datatype Response = Response(statusCode: int, isBase64Encoded: bool, body: Body, headers: map<string, string>)

  /**
   * What an invocation ends in: a response, or the run-time panic that
   * indexing the second segment of a path without '/' raises.
   */
  datatype HandlerResult = Reply(response: Response) | Panicked

  /** What the verb selects. */
  datatype Route = ListItems | AddItem(item: string) | CompleteItem(item: string) | Unrecognised

  const FixedHeaders: map<string, string> :=
    map["Content-Type" := "application/json", "X-MyCompany-Func-Reply" := "hello-handler"]

  /** The response for a given status code and message. */
  function Respond(statusCode: int, message: string): Response
  {
    Response(statusCode, false, MessageEnvelope(message), FixedHeaders)
  }

  /** The item name: every segment after the verb, joined with '/'; empty when there are none. */
  function Identifier(segments: seq<string>): string
  {
    if |segments| > 1 then Join(segments[2..], '/') else ""
  }

  /** The route a path selects, or None when it has no second segment to dispatch on. */
  function Dispatch(path: string): Option<Route>
  {
    var segments := Split(path, '/');
    if |segments| < 2 then None
    else if segments[1] == "list" then Some(ListItems)
    else if segments[1] == "add" then Some(AddItem(Identifier(segments)))
    else if segments[1] == "complete" then Some(CompleteItem(Identifier(segments)))
    else Some(Unrecognised)
  }

  /** The store round trips a path triggers. */
  function CallsFor(path: string): seq<StoreCall>
  {
    match Dispatch(path)
    case Some(ListItems) => [Scan]
    case Some(AddItem(x)) => [Put(x)]
    case Some(CompleteItem(x)) => [Delete(x)]
    case _ => []
  }

  /**
   * The outcome of one invocation on path `path` against a store holding
   * `before`, when the store round trip reports `fault` and a scan would
   * visit the names in the order `scan`: the result and the names held afterwards.
   */
  function Handle(path: string, before: set<string>, fault: Option<string>, scan: seq<string>): (HandlerResult, set<string>)
  {
    match Dispatch(path)
    case None => (Panicked, before)
    case Some(Unrecognised) => (Reply(Respond(200, path)), before)
    case Some(route) =>
      if fault.Some? then (Reply(Respond(500, fault.value)), before)
      else match route
        case ListItems => (Reply(Respond(200, Join(scan, '\n'))), before)
        case AddItem(x) => (Reply(Respond(200, "Added")), before + {x})
        case CompleteItem(x) => (Reply(Respond(200, "Completed")), before - {x})
  }

  /** `Handler`: serve one request against `store`. */
  method Handler(store: TodoTable, path: string, fault: Option<string>) returns (r: HandlerResult)
    modifies store
    ensures store.calls == old(store.calls) + CallsFor(path)
    ensures exists scan :: IsListing(scan, old(store.names)) && Handle(path, old(store.names), fault, scan) == (r, store.names)
  {
    ghost var before := store.names;
    ListingExists(before);
    ghost var scan :| IsListing(scan, before);

    var message := path;
    var statusCode := 200;

    var segments := Split(path, '/');
    var item := "";
    if |segments| > 1 {
      item := Join(segments[2..], '/');
    }

    if |segments| >= 1 {
      if |segments| < 2 {
        r := Panicked;
        assert Handle(path, before, fault, scan) == (r, store.names);
        return;
      }
      if segments[1] == "list" {
        var listed := store.List(fault);
        if listed.Failure? {
          statusCode := 500;
          message := listed.error;
        } else {
          message := Join(listed.value, '\n');
          scan := listed.value;
        }
      } else if segments[1] == "add" {
        var err := store.Add(item, fault);
        if err.Some? {
          statusCode := 500;
          message := err.value;
        } else {
          message := "Added";
        }
      } else if segments[1] == "complete" {
        var err := store.Complete(item, fault);
        if err.Some? {
          statusCode := 500;
          message := err.value;
        } else {
          message := "Completed";
        }
      }
    }

    var body := MessageEnvelope(message);
    r := Reply(Response(statusCode, false, body, FixedHeaders));
    assert IsListing(scan, before) && Handle(path, before, fault, scan) == (r, store.names);
  }
}
