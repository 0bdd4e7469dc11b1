/** The request dispatcher of `index.js`: `process` runs an API Gateway
    event down a fixed ladder of checks and ends either in a status/body
    response or in a call of a controller function with an argument map;
    `cors` fills in the default CORS headers and `parseBody` decodes a
    request body. */
module Dispatch {
  import opened Optional
  import opened JsStrings
  import opened JsValues
  import opened Router
  import opened Params
  import opened Envelope

  // ---------------------------------------------------------------------
  // inputs
  // ---------------------------------------------------------------------

  /** An operation of the loaded document: `x-swagger-router-controller`,
      `operationId` (`None` when absent, any JSON value otherwise) and the
      declared parameters (`[]` when absent). */
  datatype Operation = Operation(
    controller: Option<Json>,
    operationId: Option<Json>,
    parameters: seq<Param>)

  /** A path item: operations by lower-case method name. */
  type PathItem = map<string, Operation>

  /** The fields of an API Gateway proxy event the dispatcher reads. For
      `path`, `httpMethod` and the two maps `None` is `undefined` or `null`,
      which the code treats alike; for `body` `None` is only `undefined`, and
      a `null` body is `Some(JNull)`, which `parseBody` does not skip. */
  datatype Event = Event(
    path: Option<string>,
    httpMethod: Option<string>,
    queryStringParameters: Option<map<string, Json>>,
    headers: Option<map<string, Json>>,
    body: Option<Json>)

  /** A loaded router: the prefix it was built with (`None` when it was built
      without one), the loaded document, and the compiled route table. */
  datatype Service = Service(
    basePath: Option<string>,
    spec: Value,
    routes: seq<RoutePath<PathItem>>)

  /** What loading a controller module gives: nothing from either location,
      or a module exposing these function names. */
  datatype Controller = NotFound | Found(functions: set<string>)

  /** The host behind the dispatcher: date parsing, `JSON.parse`,
      `JSON.stringify`, and controller loading by name. */
  datatype Host = Host(
    parseDate: DateParser,
    parseJson: string -> Option<Json>,
    stringify: Stringify,
    controllers: string -> Controller)

  /** How the promise returned by the request interceptor behaves: it
      fulfils, it rejects or never settles, or the interceptor throws or
      returns no promise at all. The interceptor is handed the very `args`
      object the controller function is later called with, so `Proceed`
      carries that object as it stands once the promise fulfils, after any
      change the interceptor made to it in place; the value the promise
      fulfils with is never read. */
  datatype Interception = Proceed(args: map<string, Value>) | Stall | Fail

  /** How a controller function's call behaves: its promise fulfils with a
      response, it rejects, or it never settles usefully (it throws, returns
      no promise, or hangs). */
  datatype Completion = Fulfils(response: Value) | Rejects | Stalls

  /** The request interceptor and the controller functions, by controller
      name and operation id. */
  datatype Hooks = Hooks(
    requestInterceptor: (Event, map<string, Value>) -> Interception,
    handler: (string, string, map<string, Value>) -> Completion)

  /** Where the ladder ends: a response through `respondWith`, a handler
      call, or an exception thrown inside the promise executor. */
  datatype Decision =
    | Reply(code: int, body: Value)
    | Invoke(controller: string, operationId: string, args: map<string, Value>)
    | Throw

  /** What becomes of the promise `process` returns. */
  datatype Outcome = Resolved(response: Value) | Rejected | Pending

  /** The `{code, message}` error body. */
  function ErrorBody(code: int, message: string): Value {
    Obj(map["code" := Num(code), "message" := Str(message)])
  }

  const SpecPath: string := "/swagger.json"

  // ---------------------------------------------------------------------
  // cors
  // ---------------------------------------------------------------------

  const AllowOrigin: string := "Access-Control-Allow-Origin"
  const AllowMethods: string := "Access-Control-Allow-Methods"
  const AllowHeaders: string := "Access-Control-Allow-Headers"

  /** The default value of each CORS header `cors` fills in. */
  function CorsDefault(k: string): Value {
    if k == AllowOrigin then Str("*")
    else if k == AllowMethods then Str("GET, POST, DELETE, PUT, OPTIONS")
    else Str("Content-Type, Authorization")
  }

  /** `h[k]` is truthy. */
  predicate Filled(h: map<string, Value>, k: string) {
    k in h && Truthy(h[k])
  }

  /** Sets `h[k]` to its default unless it is already truthy. */
  function FillIn(h: map<string, Value>, k: string): map<string, Value> {
    if Filled(h, k) then h else h[k := CorsDefault(k)]
  }

  /** `cors(extra)`: the extra headers (or none), with each of the three
      Access-Control headers set to its default where the caller left it
      falsy; every other header is the caller's. */
  function Cors(extra: Option<map<string, Value>>): (h: map<string, Value>)
    ensures var given := extra.GetOr(map[]);
      forall k :: k in h <==> k in given || k in {AllowOrigin, AllowMethods, AllowHeaders}
    ensures var given := extra.GetOr(map[]);
      forall k :: k in h && k !in {AllowOrigin, AllowMethods, AllowHeaders} ==> h[k] == given[k]
    ensures var given := extra.GetOr(map[]);
      forall k :: k in {AllowOrigin, AllowMethods, AllowHeaders} ==>
        h[k] == if Filled(given, k) then given[k] else CorsDefault(k)
  {
    FillIn(FillIn(FillIn(extra.GetOr(map[]), AllowOrigin), AllowMethods), AllowHeaders)
  }

  /** Without extra headers, `cors` gives exactly the three defaults. */
  lemma CorsWithoutExtra()
    ensures Cors(None) == map[
      AllowOrigin := Str("*"),
      AllowMethods := Str("GET, POST, DELETE, PUT, OPTIONS"),
      AllowHeaders := Str("Content-Type, Authorization")]
  {
    var h := Cors(None);
    assert h.Keys == {AllowOrigin, AllowMethods, AllowHeaders};
  }

  /** Filling in the defaults a second time changes nothing. */
  lemma CorsIdempotent(extra: Option<map<string, Value>>)
    ensures Cors(Some(Cors(extra))) == Cors(extra)
  {
    var h := Cors(extra);
    var h2 := Cors(Some(h));
    assert forall k :: k in {AllowOrigin, AllowMethods, AllowHeaders} ==> Truthy(CorsDefault(k));
    assert h2.Keys == h.Keys;
  }

  // ---------------------------------------------------------------------
  // parseBody
  // ---------------------------------------------------------------------

  /** `parseBody(headers, body)`: nothing for a missing body or a request
      without a truthy `content-type` header; otherwise the body decoded by
      `JSON.parse` from its string form, or the body itself when that
      fails. */
  function ParseBody(headers: Option<map<string, Json>>, body: Option<Json>,
                     parseJson: string -> Option<Json>): (v: Value)
    ensures v.Undefined? <==>
      body.None? || headers.None? || "content-type" !in headers.value ||
      !JsonTruthy(headers.value["content-type"])
    ensures !v.Undefined? ==>
      var text := ToString(body.value);
      (text.Some? && parseJson(text.value).Some? && v == Embed(parseJson(text.value).value)) ||
      ((text.None? || parseJson(text.value).None?) && v == Embed(body.value))
  {
    if body.None? then Undefined
    else if headers.Some? && "content-type" in headers.value && JsonTruthy(headers.value["content-type"]) then
      match ToString(body.value)
      case None => Embed(body.value)
      case Some(text) =>
        match parseJson(text)
        case None => Embed(body.value)
        case Some(j) => Embed(j)
    else Undefined
  }

  /** A JSON text body with a content type decodes to what `JSON.parse`
      gives, whatever else the headers hold. */
  lemma ParseBodyDecodes(headers: map<string, Json>, text: string, parseJson: string -> Option<Json>)
    requires "content-type" in headers && JsonTruthy(headers["content-type"])
    requires parseJson(text).Some?
    ensures ParseBody(Some(headers), Some(JStr(text)), parseJson) == Embed(parseJson(text).value)
  {
  }

  /** A `null` body is not skipped: with a content type it goes through
      `JSON.parse("null")`, and a body parameter then receives `null`. */
  lemma NullBodyIsParsed(p: Param, bindings: map<string, string>, e: Event, host: Host)
    requires p.location == "body" && e.body == Some(JNull)
    requires e.headers.Some? && "content-type" in e.headers.value && JsonTruthy(e.headers.value["content-type"])
    requires host.parseJson("null") == Some(JNull)
    ensures ParseBody(e.headers, e.body, host.parseJson) == Null
    ensures ParamValue(p, bindings, e, host) == Some(Null) && Defined(ParamValue(p, bindings, e, host))
  {
  }

  // ---------------------------------------------------------------------
  // arguments
  // ---------------------------------------------------------------------

  /** The path bindings as an extraction source. */
  function PathSource(bindings: map<string, string>): (source: map<string, Json>)
    ensures source.Keys == bindings.Keys
    ensures forall k :: k in bindings ==> source[k] == JStr(bindings[k])
  {
    map k | k in bindings :: JStr(bindings[k])
  }

  /** The value one parameter contributes, read from where its `in` says;
      `None` when reading it throws, which is when its query or header map
      is missing. Any other `in` contributes nothing. */
  function ParamValue(p: Param, bindings: map<string, string>, e: Event, host: Host): Option<Value> {
    if p.location == "path" then Some(Extract(p, PathSource(bindings), host.parseDate))
    else if p.location == "body" then Some(ParseBody(e.headers, e.body, host.parseJson))
    else if p.location == "query" then
      if e.queryStringParameters.None? then None
      else Some(Extract(p, e.queryStringParameters.value, host.parseDate))
    else if p.location == "header" then
      if e.headers.None? then None
      else Some(Extract(p, e.headers.value, host.parseDate))
    else Some(Undefined)
  }

  /** How each parameter's value is read: `None` when reading it throws. */
  type Reader = Param -> Option<Value>

  /** The reader of a request: `ParamValue` with the route's bindings, the
      event and the host. */
  function Reads(bindings: map<string, string>, e: Event, host: Host): Reader {
    p => ParamValue(p, bindings, e, host)
  }

  /** The `args` object built from the parameters in order: each defined
      value is stored under the parameter's name, a later one overwriting an
      earlier one. `None` when some parameter's read throws. */
  function BuildArgs(ps: seq<Param>, read: Reader): Option<map<string, Value>>
    decreases |ps|
  {
    if |ps| == 0 then Some(map[])
    else
      var last := ps[|ps| - 1];
      match BuildArgs(ps[..|ps| - 1], read)
      case None => None
      case Some(args) =>
        match read(last)
        case None => None
        case Some(v) => Some(if v.Undefined? then args else args[last.name := v])
  }

  /** Some parameter's read throws. */
  ghost predicate SomeReadThrows(ps: seq<Param>, read: Reader) {
    exists i :: 0 <= i < |ps| && read(ps[i]).None?
  }

  /** Some parameter named `k` has a defined value. */
  ghost predicate Supplies(ps: seq<Param>, k: string, read: Reader) {
    exists i :: 0 <= i < |ps| && ps[i].name == k && Defined(read(ps[i]))
  }

  /** A read that succeeds with a defined value. */
  predicate Defined(v: Option<Value>) {
    v.Some? && !v.value.Undefined?
  }

  /** No later parameter of the same name has a defined value. */
  ghost predicate LastSupplier(ps: seq<Param>, i: int, read: Reader)
    requires 0 <= i < |ps|
  {
    forall j :: i < j < |ps| && ps[j].name == ps[i].name ==> !Defined(read(ps[j]))
  }

  /** Building the arguments throws exactly when some parameter's read
      throws. */
  lemma {:induction false} ArgsThrowIff(ps: seq<Param>, read: Reader)
    ensures BuildArgs(ps, read).None? <==> SomeReadThrows(ps, read)
  {
    if |ps| > 0 {
      var ps' := ps[..|ps| - 1];
      ArgsThrowIff(ps', read);
      if SomeReadThrows(ps', read) {
        var i :| 0 <= i < |ps'| && read(ps'[i]).None?;
        assert ps[i] == ps'[i];
      }
      if SomeReadThrows(ps, read) {
        var i :| 0 <= i < |ps| && read(ps[i]).None?;
        if i < |ps'| {
          assert ps'[i] == ps[i];
        }
      }
    }
  }

  /** `args` holds a name exactly when some parameter of that name has a
      defined value. */
  lemma {:induction false} ArgsKeys(ps: seq<Param>, read: Reader)
    requires BuildArgs(ps, read).Some?
    ensures forall k :: k in BuildArgs(ps, read).value <==> Supplies(ps, k, read)
  {
    if |ps| > 0 {
      var ps' := ps[..|ps| - 1];
      ArgsKeys(ps', read);
      forall k
        ensures k in BuildArgs(ps, read).value <==> Supplies(ps, k, read)
      {
        if Supplies(ps', k, read) {
          var i :| 0 <= i < |ps'| && ps'[i].name == k && Defined(read(ps'[i]));
          assert ps[i] == ps'[i];
        }
        if Supplies(ps, k, read) {
          var i :| 0 <= i < |ps| && ps[i].name == k && Defined(read(ps[i]));
          if i < |ps'| {
            assert ps'[i] == ps[i];
          }
        }
      }
    }
  }

  /** The value under a name is that of the last parameter of that name
      with a defined value. */
  lemma {:induction false} ArgsValues(ps: seq<Param>, read: Reader, i: int)
    requires BuildArgs(ps, read).Some?
    requires 0 <= i < |ps| && Defined(read(ps[i]))
    requires LastSupplier(ps, i, read)
    ensures ps[i].name in BuildArgs(ps, read).value
    ensures BuildArgs(ps, read).value[ps[i].name] == read(ps[i]).value
  {
    var n := |ps| - 1;
    if i < n {
      var ps' := ps[..n];
      assert ps'[i] == ps[i];
      assert LastSupplier(ps', i, read) by {
        forall j | i < j < |ps'| && ps'[j].name == ps'[i].name
          ensures !Defined(read(ps'[j]))
        {
          assert ps'[j] == ps[j];
        }
      }
      ArgsValues(ps', read, i);
    }
  }

  /** Without query and header parameters, building the arguments never
      throws, whatever the event lacks. */
  lemma NoQueryOrHeaderNeverThrows(ps: seq<Param>, bindings: map<string, string>, e: Event, host: Host)
    requires forall i :: 0 <= i < |ps| ==> ps[i].location != "query" && ps[i].location != "header"
    ensures BuildArgs(ps, Reads(bindings, e, host)).Some?
  {
    ArgsThrowIff(ps, Reads(bindings, e, host));
  }

  // ---------------------------------------------------------------------
  // the decision ladder
  // ---------------------------------------------------------------------

  /** `path.substring(path.indexOf(base) + base.length)`. */
  function Remainder(path: string, base: string): (rest: string)
    ensures |rest| <= |path|
  {
    Substring(path, IndexOf(path, base) + |base|)
  }

  /** A path that starts with the base path loses exactly that prefix. */
  lemma RemainderAfterBase(base: string, rest: string)
    ensures Remainder(base + rest, base) == rest
  {
    SubstringAfterPrefix(base, rest);
  }

  /** A path that does not contain the base path at all still loses its
      first `|base| - 1` characters, since `indexOf` gives -1. */
  lemma RemainderWithoutBase(path: string, base: string)
    requires |base| >= 1 && |base| - 1 <= |path|
    requires forall j :: 0 <= j ==> !OccursAt(path, base, j)
    ensures Remainder(path, base) == path[|base| - 1..]
  {
  }

  /** A value's string form where the ladder quotes it in a message:
      `undefined` when absent. */
  function Quote(v: Option<Json>): (text: Option<string>)
    ensures v.None? ==> text == Some("undefined")
    ensures v.Some? && v.value.JStr? ==> text == Some(v.value.s)
    ensures v == Some(JNull) ==> text == Some("null")
    ensures v == Some(JBool(false)) ==> text == Some("false")
    ensures v == Some(JNum(0)) ==> text == Some("0")
  {
    match v
    case None => Some("undefined")
    case Some(j) => ToString(j)
  }

  /** The value is set and truthy. */
  predicate Present(v: Option<Json>) {
    v.Some? && JsonTruthy(v.value)
  }

  /** The 404 for a falsy controller or operation id. */
  function Missing(field: string, v: Option<Json>): Decision {
    match Quote(v)
    case Some(text) => Reply(404, ErrorBody(404, field + " `" + text + "` not found"))
    case None => Throw
  }

  /** Controller resolution: the controller is loaded by its string form; a
      module that cannot be loaded gives 400, a module without a function
      named by the operation id gives 404. */
  function Resolve(controller: Json, operationId: Json, args: map<string, Value>,
                   controllers: string -> Controller): Decision {
    match ToString(controller)
    case None => Throw
    case Some(name) =>
      match controllers(name)
      case NotFound => Reply(400, ErrorBody(400, "class " + name + " not found"))
      case Found(functions) =>
        match ToString(operationId)
        case None => Throw
        case Some(id) =>
          if id in functions then Invoke(name, id, args)
          else Reply(404, ErrorBody(404, "operation not found"))
  }

  /** The ladder from route lookup on, for a remainder that is neither empty
      nor the document path. */
  function Route(service: Service, e: Event, path: string, verb: string, host: Host): Decision {
    match Lookup(service.routes, path)
    case None => Reply(404, ErrorBody(404, "path " + path + " not found"))
    case Some(m) =>
      if verb !in m.value then Reply(404, ErrorBody(404, "operation `" + verb + "` not found"))
      else
        var op := m.value[verb];
        if !Present(op.controller) then Missing("controller", op.controller)
        else if !Present(op.operationId) then Missing("operationId", op.operationId)
        else
          match BuildArgs(op.parameters, Reads(m.params, e, host))
          case None => Throw
          case Some(args) => Resolve(op.controller.value, op.operationId.value, args, host.controllers)
  }

  /** The decision `process(event)` takes, up to the handler call. */
  function Decide(service: Service, event: Option<Event>, host: Host): (d: Decision)
    ensures d.Invoke? ==> event.Some?
  {
    if event.None? || event.value.path.None? || event.value.path.value == "" then
      Reply(500, Str("invalid request sent"))
    else if service.basePath.None? || event.value.httpMethod.None? then
      // `undefined.length` and `undefined.toLowerCase()` throw
      Throw
    else
      var e := event.value;
      var path := Remainder(e.path.value, service.basePath.value);
      var verb := ToLowerCase(e.httpMethod.value);
      if verb == "options" then Reply(200, Str(""))
      else if path == "" then Reply(404, ErrorBody(404, "invalid path"))
      else if path == SpecPath then Reply(200, service.spec)
      else Route(service, e, path, verb, host)
  }

  /** What the promise of `process` does once the response callback has or
      has not been called. */
  function Settle(d: Delivery): (o: Outcome)
    ensures o.Resolved? <==> d.Delivered?
    ensures d.Delivered? ==> o.response == d.v
  {
    match d
    case Delivered(v) => Resolved(v)
    case Undelivered => Pending
  }

  /** What becomes of the promise once the ladder has decided: a reply goes
      through `respondWith` with the response container of `src/utils.js`; a
      handler call first waits for the request interceptor, then settles
      with the handler's response, or with a 500 `bad operation` reply when
      the handler's promise rejects. */
  function Conclude(d: Decision, event: Option<Event>, responder: Container, hooks: Hooks,
                    stringify: Stringify): Outcome
    requires d.Invoke? ==> event.Some?
  {
    match d
    case Throw => Rejected
    case Reply(code, body) => Settle(Respond(responder, code, body, stringify))
    case Invoke(controller, operationId, args) =>
      match hooks.requestInterceptor(event.value, args)
      case Fail => Rejected
      case Stall => Pending
      case Proceed(after) =>
        match hooks.handler(controller, operationId, after)
        case Fulfils(response) => Resolved(response)
        case Stalls => Pending
        case Rejects => Settle(Respond(responder, 500, ErrorBody(500, "bad operation"), stringify))
  }

  /** `process(event)`. */
  function Process(service: Service, responder: Container, hooks: Hooks, host: Host,
                   event: Option<Event>): Outcome {
    Conclude(Decide(service, event, host), event, responder, hooks, host.stringify)
  }

  // ---------------------------------------------------------------------
  // properties of the ladder
  // ---------------------------------------------------------------------

  /** An event with a path, for a router built with a prefix: the ladder's
      later steps apply. */
  predicate Routable(service: Service, e: Event) {
    e.path.Some? && e.path.value != "" && service.basePath.Some? && e.httpMethod.Some?
  }

  /** A missing event or path is answered 500 `invalid request sent` before
      anything else is looked at: the router, the hooks and the host play no
      part beyond the response container. */
  lemma InvalidRequestAnswered(s1: Service, s2: Service, responder: Container, k1: Hooks, k2: Hooks,
                               h1: Host, h2: Host, event: Option<Event>)
    requires event.None? || event.value.path.None? || event.value.path.value == ""
    requires h1.stringify == h2.stringify
    ensures Decide(s1, event, h1) == Reply(500, Str("invalid request sent"))
    ensures Process(s1, responder, k1, h1, event) == Process(s2, responder, k2, h2, event)
  {
  }

  /** A missing `httpMethod` rejects the promise once the path is there. */
  lemma MissingMethodRejects(service: Service, responder: Container, hooks: Hooks, host: Host, e: Event)
    requires e.path.Some? && e.path.value != "" && e.httpMethod.None?
    ensures Process(service, responder, hooks, host, Some(e)) == Rejected
  {
  }

  /** `OPTIONS` in any letter case is answered 200 with an empty body, before
      the remainder, the document path or the routes are looked at. */
  lemma OptionsAnswered(s1: Service, s2: Service, e1: Event, e2: Event, h1: Host, h2: Host)
    requires Routable(s1, e1) && Routable(s2, e2)
    requires ToLowerCase(e1.httpMethod.value) == "options"
    requires ToLowerCase(e2.httpMethod.value) == "options"
    ensures Decide(s1, Some(e1), h1) == Reply(200, Str(""))
    ensures Decide(s1, Some(e1), h1) == Decide(s2, Some(e2), h2)
  {
  }

  /** The upper-case `OPTIONS` of a CORS preflight lower-cases to `options`. */
  lemma PreflightMethod()
    ensures ToLowerCase("OPTIONS") == "options"
  {
    var r := ToLowerCase("OPTIONS");
    assert r[0] == 'o' && r[1] == 'p' && r[2] == 't' && r[3] == 'i';
    assert r[4] == 'o' && r[5] == 'n' && r[6] == 's';
  }

  /** A path that is exactly the prefix leaves nothing to route: 404
      `invalid path`. */
  lemma BarePrefixIsInvalidPath(service: Service, e: Event, host: Host)
    requires Routable(service, e) && e.path.value == service.basePath.value
    requires ToLowerCase(e.httpMethod.value) != "options"
    ensures Decide(service, Some(e), host) == Reply(404, ErrorBody(404, "invalid path"))
  {
    RemainderAfterBase(service.basePath.value, "");
    assert service.basePath.value + "" == service.basePath.value;
  }

  /** `/swagger.json` under the prefix serves the loaded document, whatever
      the route table holds: lookup is never consulted. */
  lemma DocumentServedBeforeRouting(s1: Service, s2: Service, e: Event, host: Host)
    requires Routable(s1, e) && s1.basePath == s2.basePath && s1.spec == s2.spec
    requires e.path.value == s1.basePath.value + SpecPath
    requires ToLowerCase(e.httpMethod.value) != "options"
    ensures Decide(s1, Some(e), host) == Reply(200, s1.spec)
    ensures Decide(s2, Some(e), host) == Decide(s1, Some(e), host)
  {
    RemainderAfterBase(s1.basePath.value, SpecPath);
  }

  /** A remainder no route selects is answered 404 `path <p> not found`,
      whether or not the path starts with the prefix: the remainder is
      whatever the cut leaves. */
  lemma UnknownPath(service: Service, e: Event, host: Host)
    requires Routable(service, e)
    requires ToLowerCase(e.httpMethod.value) != "options"
    requires Remainder(e.path.value, service.basePath.value) != ""
    requires Remainder(e.path.value, service.basePath.value) != SpecPath
    requires forall j :: 0 <= j < |service.routes| ==>
      service.routes[j].path != Remainder(e.path.value, service.basePath.value) &&
      |ExtractFromPath(service.routes[j].path, Remainder(e.path.value, service.basePath.value))| == 0
    ensures Decide(service, Some(e), host) ==
      Reply(404, ErrorBody(404, "path " + Remainder(e.path.value, service.basePath.value) + " not found"))
  {
    LookupMissIff(service.routes, Remainder(e.path.value, service.basePath.value));
  }

  /** The pieces of the ladder after the prefix is stripped: the remainder,
      the lower-cased method, and the route `lookup` selects. */
  function RouteOf(service: Service, e: Event): Option<Match<PathItem>>
    requires Routable(service, e)
  {
    Lookup(service.routes, Remainder(e.path.value, service.basePath.value))
  }

  /** Past the early checks: not a preflight, a remainder that is neither
      empty nor the document path, and a route whose path item has the
      method. */
  predicate ReachesOperation(service: Service, e: Event) {
    Routable(service, e) &&
    var rest := Remainder(e.path.value, service.basePath.value);
    ToLowerCase(e.httpMethod.value) != "options" && rest != "" && rest != SpecPath &&
    RouteOf(service, e).Some? && ToLowerCase(e.httpMethod.value) in RouteOf(service, e).value.value
  }

  /** The operation the method selects in the route's path item. */
  function OperationOf(service: Service, e: Event): Operation
    requires ReachesOperation(service, e)
  {
    RouteOf(service, e).value.value[ToLowerCase(e.httpMethod.value)]
  }

  /** A route whose path item lacks the method is answered 404 `operation
      `<m>` not found`. */
  lemma UnknownMethod(service: Service, e: Event, host: Host)
    requires Routable(service, e)
    requires var rest := Remainder(e.path.value, service.basePath.value);
      ToLowerCase(e.httpMethod.value) != "options" && rest != "" && rest != SpecPath
    requires RouteOf(service, e).Some?
    requires ToLowerCase(e.httpMethod.value) !in RouteOf(service, e).value.value
    ensures Decide(service, Some(e), host) ==
      Reply(404, ErrorBody(404, "operation `" + ToLowerCase(e.httpMethod.value) + "` not found"))
  {
  }

  /** A falsy value always has a string form to quote. */
  lemma QuoteFalsy(v: Option<Json>)
    requires !Present(v)
    ensures Quote(v).Some?
  {
  }

  /** A falsy controller is answered 404 before the operation id or any
      parameter is looked at: events that differ only in what the parameters
      would read get the same answer, and it is never an exception. */
  lemma MissingControllerFirst(service: Service, e1: Event, e2: Event, host: Host)
    requires ReachesOperation(service, e1)
    requires e1.path == e2.path && e1.httpMethod == e2.httpMethod
    requires !Present(OperationOf(service, e1).controller)
    ensures Decide(service, Some(e1), host) == Decide(service, Some(e2), host)
    ensures Decide(service, Some(e1), host) ==
      Reply(404, ErrorBody(404, "controller `" + Quote(OperationOf(service, e1).controller).value + "` not found"))
  {
    var rest := Remainder(e1.path.value, service.basePath.value);
    var verb := ToLowerCase(e1.httpMethod.value);
    var op := OperationOf(service, e1);
    QuoteFalsy(op.controller);
    var answer := Reply(404, ErrorBody(404, "controller `" + Quote(op.controller).value + "` not found"));
    assert "controller" + " `" == "controller `";
    assert Missing("controller", op.controller) == answer;
    assert Route(service, e1, rest, verb, host) == answer;
    assert Route(service, e2, rest, verb, host) == answer;
  }

  /** With a controller named, a falsy operation id is answered 404, again
      before any parameter is read. */
  lemma MissingOperationIdNext(service: Service, e1: Event, e2: Event, host: Host)
    requires ReachesOperation(service, e1)
    requires e1.path == e2.path && e1.httpMethod == e2.httpMethod
    requires Present(OperationOf(service, e1).controller)
    requires !Present(OperationOf(service, e1).operationId)
    ensures Decide(service, Some(e1), host) == Decide(service, Some(e2), host)
    ensures Decide(service, Some(e1), host) ==
      Reply(404, ErrorBody(404, "operationId `" + Quote(OperationOf(service, e1).operationId).value + "` not found"))
  {
    var rest := Remainder(e1.path.value, service.basePath.value);
    var verb := ToLowerCase(e1.httpMethod.value);
    var op := OperationOf(service, e1);
    QuoteFalsy(op.operationId);
    var answer := Reply(404, ErrorBody(404, "operationId `" + Quote(op.operationId).value + "` not found"));
    assert "operationId" + " `" == "operationId `";
    assert Missing("operationId", op.operationId) == answer;
    assert Route(service, e1, rest, verb, host) == answer;
    assert Route(service, e2, rest, verb, host) == answer;
  }

  /** Controller resolution for string names: a module that cannot be loaded
      gives 400 `class <c> not found`, a module without the function gives
      404 `operation not found`, and otherwise the function is called with
      the arguments. */
  lemma ControllerResolution(c: string, id: string, args: map<string, Value>, controllers: string -> Controller)
    ensures controllers(c).NotFound? ==>
      Resolve(JStr(c), JStr(id), args, controllers) == Reply(400, ErrorBody(400, "class " + c + " not found"))
    ensures controllers(c).Found? && id !in controllers(c).functions ==>
      Resolve(JStr(c), JStr(id), args, controllers) == Reply(404, ErrorBody(404, "operation not found"))
    ensures controllers(c).Found? && id in controllers(c).functions ==>
      Resolve(JStr(c), JStr(id), args, controllers) == Invoke(c, id, args)
  {
  }

  /** Past the controller and operation id checks, with the arguments built,
      the ladder ends in controller resolution: a controller module that
      cannot be loaded gives 400 `class <c> not found`, a module without the
      function gives 404 `operation not found`, and otherwise the function
      is called with the arguments. The two replies reach the caller through
      `respondWith`. */
  lemma ResolutionRungs(service: Service, responder: Container, hooks: Hooks, host: Host, e: Event,
                        c: string, id: string)
    requires ReachesOperation(service, e)
    requires var op := OperationOf(service, e);
      Present(op.controller) && Present(op.operationId) &&
      ToString(op.controller.value) == Some(c) && ToString(op.operationId.value) == Some(id)
    requires BuildArgs(OperationOf(service, e).parameters, Reads(RouteOf(service, e).value.params, e, host)).Some?
    ensures var args := BuildArgs(OperationOf(service, e).parameters, Reads(RouteOf(service, e).value.params, e, host)).value;
      Decide(service, Some(e), host) ==
        Resolve(OperationOf(service, e).controller.value, OperationOf(service, e).operationId.value, args, host.controllers)
    ensures host.controllers(c).NotFound? ==>
      Decide(service, Some(e), host) == Reply(400, ErrorBody(400, "class " + c + " not found")) &&
      Process(service, responder, hooks, host, Some(e)) ==
        Settle(Respond(responder, 400, ErrorBody(400, "class " + c + " not found"), host.stringify))
    ensures host.controllers(c).Found? && id !in host.controllers(c).functions ==>
      Decide(service, Some(e), host) == Reply(404, ErrorBody(404, "operation not found")) &&
      Process(service, responder, hooks, host, Some(e)) ==
        Settle(Respond(responder, 404, ErrorBody(404, "operation not found"), host.stringify))
    ensures var args := BuildArgs(OperationOf(service, e).parameters, Reads(RouteOf(service, e).value.params, e, host)).value;
      host.controllers(c).Found? && id in host.controllers(c).functions ==>
        Decide(service, Some(e), host) == Invoke(c, id, args)
  {
  }

  /** A handler call carries exactly the arguments of the selected
      operation's parameters: a name is present iff some parameter of that
      name reads a defined value, and the value is the last such one. */
  lemma InvokedArguments(service: Service, e: Event, host: Host)
    requires Decide(service, Some(e), host).Invoke?
    ensures ReachesOperation(service, e)
    ensures var op := OperationOf(service, e);
      var read := Reads(RouteOf(service, e).value.params, e, host);
      var args := Decide(service, Some(e), host).args;
      (forall k :: k in args <==> Supplies(op.parameters, k, read)) &&
      (forall i :: (0 <= i < |op.parameters| && Defined(read(op.parameters[i])) &&
                    LastSupplier(op.parameters, i, read)) ==>
         op.parameters[i].name in args && args[op.parameters[i].name] == read(op.parameters[i]).value)
  {
    var op := OperationOf(service, e);
    var read := Reads(RouteOf(service, e).value.params, e, host);
    assert BuildArgs(op.parameters, read).Some?;
    ArgsKeys(op.parameters, read);
    forall i | 0 <= i < |op.parameters| && Defined(read(op.parameters[i])) &&
         LastSupplier(op.parameters, i, read)
      ensures op.parameters[i].name in Decide(service, Some(e), host).args
      ensures Decide(service, Some(e), host).args[op.parameters[i].name] == read(op.parameters[i]).value
    {
      ArgsValues(op.parameters, read, i);
    }
  }

  /** A query or header parameter with the event's map missing rejects the
      promise once the ladder reaches the parameters. */
  lemma MissingSourceRejects(service: Service, responder: Container, hooks: Hooks, host: Host, e: Event, i: int)
    requires ReachesOperation(service, e)
    requires Present(OperationOf(service, e).controller) && Present(OperationOf(service, e).operationId)
    requires 0 <= i < |OperationOf(service, e).parameters|
    requires var p := OperationOf(service, e).parameters[i];
      (p.location == "query" && e.queryStringParameters.None?) ||
      (p.location == "header" && e.headers.None?)
    ensures Process(service, responder, hooks, host, Some(e)) == Rejected
  {
    var op := OperationOf(service, e);
    var read := Reads(RouteOf(service, e).value.params, e, host);
    ArgsThrowIff(op.parameters, read);
  }

  // ---------------------------------------------------------------------
  // properties of process
  // ---------------------------------------------------------------------

  /** The promise rejects exactly when the ladder throws or the request
      interceptor fails outright. */
  lemma RejectedIff(service: Service, responder: Container, hooks: Hooks, host: Host, event: Option<Event>)
    ensures Process(service, responder, hooks, host, event).Rejected? <==>
      Decide(service, event, host).Throw? ||
      (Decide(service, event, host).Invoke? &&
       hooks.requestInterceptor(event.value, Decide(service, event, host).args) == Fail)
  {
  }

  /** The response interceptor the `Swambda` constructor installs: it
      resolves with the response it is given. */
  const DefaultResponseInterceptor: Hook := Callable(v => Some(v))

  /** The container's response interceptor hands every envelope on as it is:
      it is unset, not a function, or resolves with its argument. */
  ghost predicate PassesThrough(h: Hook) {
    h.Callable? ==> forall v :: h.f(v) == Some(v)
  }

  /** The constructor's response interceptor passes envelopes through. */
  lemma DefaultPassesThrough()
    ensures PassesThrough(DefaultResponseInterceptor)
    ensures DefaultResponseInterceptor.Callable?
  {
  }

  /** A handler's response is the result as it is: it does not pass through
      the response interceptor or the extra headers. The handler is called
      with the argument object as the request interceptor left it, which is
      the ladder's when the interceptor does not touch it, as the
      constructor's default does. */
  lemma HandlerResponseAsIs(d: Decision, e: Event, r1: Container, r2: Container, hooks: Hooks, stringify: Stringify)
    requires d.Invoke? && hooks.requestInterceptor(e, d.args).Proceed?
    requires hooks.handler(d.controller, d.operationId, hooks.requestInterceptor(e, d.args).args).Fulfils?
    ensures Conclude(d, Some(e), r1, hooks, stringify) ==
      Resolved(hooks.handler(d.controller, d.operationId, hooks.requestInterceptor(e, d.args).args).response)
    ensures Conclude(d, Some(e), r1, hooks, stringify) == Conclude(d, Some(e), r2, hooks, stringify)
    ensures hooks.requestInterceptor(e, d.args) == Proceed(d.args) ==>
      Conclude(d, Some(e), r1, hooks, stringify) == Resolved(hooks.handler(d.controller, d.operationId, d.args).response)
  {
  }

  /** A handler whose promise rejects is answered 500 `bad operation`
      through `respondWith`: the envelope itself when the response
      interceptor passes it through, and otherwise what the interceptor
      resolves with, or nothing when it never does. */
  lemma HandlerFailureIs500(d: Decision, e: Event, responder: Container, hooks: Hooks, stringify: Stringify)
    requires d.Invoke? && hooks.requestInterceptor(e, d.args).Proceed?
    requires hooks.handler(d.controller, d.operationId, hooks.requestInterceptor(e, d.args).args) == Rejects
    ensures var envelope := AsValue(BuildResponse(responder.extraHeaders, 500, ErrorBody(500, "bad operation"), stringify));
      PassesThrough(responder.responseInterceptor) ==>
        Conclude(d, Some(e), responder, hooks, stringify) == Resolved(envelope)
    ensures var envelope := AsValue(BuildResponse(responder.extraHeaders, 500, ErrorBody(500, "bad operation"), stringify));
      responder.responseInterceptor.Callable? ==>
        var out := responder.responseInterceptor.f(envelope);
        (out.Some? ==> Conclude(d, Some(e), responder, hooks, stringify) == Resolved(out.value)) &&
        (out.None? ==> Conclude(d, Some(e), responder, hooks, stringify) == Pending)
  {
  }

  /** A request interceptor that does not proceed keeps the handler from
      being called: its promise rejecting or hanging leaves `process`
      pending, and its throwing rejects. */
  lemma InterceptorGates(d: Decision, e: Event, responder: Container, hooks: Hooks, stringify: Stringify)
    requires d.Invoke?
    ensures hooks.requestInterceptor(e, d.args) == Stall ==>
      Conclude(d, Some(e), responder, hooks, stringify) == Pending
    ensures hooks.requestInterceptor(e, d.args) == Fail ==>
      Conclude(d, Some(e), responder, hooks, stringify) == Rejected
  {
  }

  /** Every reply carries the headers `cors` set up, plus the JSON content
      type for object bodies, when the response interceptor passes the
      envelope through, as the constructor's default does. */
  lemma RepliesCarryCorsHeaders(code: int, body: Value, event: Option<Event>, responder: Container, hooks: Hooks,
                                stringify: Stringify, extra: Option<map<string, Value>>)
    requires responder.extraHeaders == Some(Cors(extra)) && PassesThrough(responder.responseInterceptor)
    ensures var headers := if IsObject(body) then Cors(extra)[ContentType := Str("application/json")] else Cors(extra);
      Conclude(Reply(code, body), event, responder, hooks, stringify) ==
        Resolved(AsValue(Response(code, headers, BuildResponse(Some(Cors(extra)), code, body, stringify).body)))
  {
    var r := BuildResponse(Some(Cors(extra)), code, body, stringify);
    var headers := if IsObject(body) then Cors(extra)[ContentType := Str("application/json")] else Cors(extra);
    assert r.headers == headers;
  }

  // ---------------------------------------------------------------------
  // a request end to end
  // ---------------------------------------------------------------------

  /** `GET` lower-cases to `get`. */
  lemma GetMethod()
    ensures ToLowerCase("GET") == "get"
  {
    var r := ToLowerCase("GET");
    assert r[0] == 'g' && r[1] == 'e' && r[2] == 't';
  }

  /** A one-segment template `/<lit>/{<name>}`. */
  function Template(lit: string, name: string): string {
    "/" + lit + "/{" + name + "}"
  }

  /** The parameter shape of a path template's variable: a plain string. */
  function PathParam(name: string): Param {
    Param(name, "path", Some("string"), None, None)
  }

  /** Segments the template helpers accept: no `/`, a literal that is no
      variable, a name without line terminators. */
  predicate SimpleSegments(lit: string, name: string, v: string) {
    '/' !in lit && '/' !in name && '/' !in v && !IsVariable(lit) &&
    (forall k :: 0 <= k < |name| ==> !IsLineTerminator(name[k]))
  }

  /** A table holding only `/<lit>/{<name>}` selects it for `/<lit>/<v>`,
      binding `name` to `v`. */
  lemma TemplateRoute(item: PathItem, lit: string, name: string, v: string)
    requires SimpleSegments(lit, name, v)
    requires v != "{" + name + "}"
    ensures Lookup(CompilePaths([(Template(lit, name), item)]), "/" + lit + "/" + v) ==
      Some(Match(item, map[name := v]))
  {
    var rest := "/" + lit + "/" + v;
    var table := CompilePaths([(Template(lit, name), item)]);
    LiteralSegmentsNotCompared(lit, lit, name, v);
    assert rest[|lit| + 2..] == v;
    assert Template(lit, name)[|lit| + 2..] == "{" + name + "}";
    FirstBindingWins(table, rest, 0);
  }

  /** A single string path parameter becomes the only argument. */
  lemma PathParamArgs(name: string, v: string, e: Event, host: Host)
    ensures BuildArgs([PathParam(name)], Reads(map[name := v], e, host)) == Some(map[name := Str(v)])
  {
    var p := PathParam(name);
    assert Extract(p, PathSource(map[name := v]), host.parseDate) == Str(v);
    assert [p][..0] == [];
  }

  /** An operation naming a controller and an operation id, with one string
      path parameter. */
  function SingleParamOperation(controller: string, id: string, name: string): Operation {
    Operation(Some(JStr(controller)), Some(JStr(id)), [PathParam(name)])
  }

  /** From the route on, the scenario's request calls the handler. */
  lemma TemplateRouteInvokes(service: Service, e: Event, lit: string, name: string, v: string,
                             controller: string, id: string, host: Host)
    requires service.routes == CompilePaths([(Template(lit, name), map["get" := SingleParamOperation(controller, id, name)])])
    requires SimpleSegments(lit, name, v) && v != "{" + name + "}"
    requires controller != "" && id != ""
    requires host.controllers(controller).Found? && id in host.controllers(controller).functions
    ensures Route(service, e, "/" + lit + "/" + v, "get", host) == Invoke(controller, id, map[name := Str(v)])
  {
    TemplateRoute(map["get" := SingleParamOperation(controller, id, name)], lit, name, v);
    PathParamArgs(name, v, e, host);
  }

  /** `/swagger.json` holds a single `/`, so no two-segment path equals it. */
  lemma TwoSegmentsNotDocument(lit: string, v: string)
    ensures "/" + lit + "/" + v != SpecPath
  {
    var rest := "/" + lit + "/" + v;
    assert rest[|lit| + 1] == '/';
    if |rest| == |SpecPath| {
      assert SpecPath[|lit| + 1] != '/';
    }
  }

  /** `GET <prefix>/<lit>/<v>` against a router holding `/<lit>/{<name>}`
      calls the operation's function with `{<name>: v}`: the routing test's
      `GET /pets/2` against `/pets/{id}` with `Pets.getPetById`. */
  lemma PathParameterReachesController(base: string, spec: Value, e: Event, lit: string, name: string,
                                       v: string, controller: string, id: string, host: Host)
    requires e.path == Some(base + "/" + lit + "/" + v) && e.httpMethod == Some("GET")
    requires SimpleSegments(lit, name, v) && v != "{" + name + "}"
    requires controller != "" && id != ""
    requires host.controllers(controller).Found? && id in host.controllers(controller).functions
    ensures Decide(Service(Some(base), spec,
                           CompilePaths([(Template(lit, name), map["get" := SingleParamOperation(controller, id, name)])])),
                   Some(e), host)
      == Invoke(controller, id, map[name := Str(v)])
  {
    var service := Service(Some(base), spec,
                           CompilePaths([(Template(lit, name), map["get" := SingleParamOperation(controller, id, name)])]));
    var rest := "/" + lit + "/" + v;
    assert base + "/" + lit + "/" + v == base + rest;
    RemainderAfterBase(base, rest);
    GetMethod();
    TwoSegmentsNotDocument(lit, v);
    TemplateRouteInvokes(service, e, lit, name, v, controller, id, host);
  }
}
