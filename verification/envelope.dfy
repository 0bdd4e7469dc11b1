/** The response-envelope builder of `src/utils.js`: `respondWith` turns a
    status code and a body into `{statusCode, headers, body}`, copying the
    configured extra headers, and hands it over through the response
    interceptor when one is installed; `cacheWith` swaps in a new container
    and carries the interceptor and the extra headers over to it. */
module Envelope {
  import opened Optional
  import opened JsValues

  /** A slot holding an interceptor: unset, set to something that is not a
      function, or a function. A function's result is the value its promise
      resolves with, `None` when it never resolves. */
  datatype Hook =
    | Unset
    | NotCallable(v: Value)
    | Callable(f: Value -> Option<Value>)

  /** The slot's content is truthy. */
  predicate HookTruthy(h: Hook) {
    h.Callable? || (h.NotCallable? && Truthy(h.v))
  }

  /** The module-wide container as `respondWith` reads it: the response
      interceptor, the extra headers (`None` when unset), and every other
      field of the object. */
  datatype Container = Container(
    responseInterceptor: Hook,
    extraHeaders: Option<map<string, Value>>,
    others: map<string, Value>)

  /** A response envelope before it becomes a plain object. */
  datatype Response = Response(statusCode: int, headers: map<string, Value>, body: Value)

  /** The envelope as the plain object `{statusCode, headers, body}`. */
  function AsValue(r: Response): Value {
    Obj(map["statusCode" := Num(r.statusCode), "headers" := Obj(r.headers), "body" := r.body])
  }

  /** What the callback given to `respondWith` receives, if anything. */
  datatype Delivery = Delivered(v: Value) | Undelivered

  /** `JSON.stringify(body, null, 2)` as the host implements it. */
  type Stringify = Value -> string

  const ContentType: string := "Content-Type"

  /** The envelope `respondWith` builds: the status code, a key-by-key copy of
      the extra headers (or no headers), and the body. An object body is
      serialised and forces `Content-Type: application/json` over any extra
      header of that name; any other defined body is kept as it is, and an
      undefined body becomes the empty string. */
  function BuildResponse(extraHeaders: Option<map<string, Value>>, code: int, body: Value,
                         stringify: Stringify): (r: Response)
    ensures r.statusCode == code
    ensures forall k :: k in r.headers <==>
      (extraHeaders.Some? && k in extraHeaders.value) || (k == ContentType && IsObject(body))
    ensures forall k :: k in r.headers && k != ContentType ==> r.headers[k] == extraHeaders.value[k]
    ensures IsObject(body) ==>
      r.headers[ContentType] == Str("application/json") && r.body == Str(stringify(body))
    ensures !IsObject(body) && extraHeaders.Some? && ContentType in extraHeaders.value ==>
      r.headers[ContentType] == extraHeaders.value[ContentType]
    ensures body.Undefined? ==> r.body == Str("")
    ensures !IsObject(body) && !body.Undefined? ==> r.body == body
  {
    var headers := if extraHeaders.Some? then extraHeaders.value else map[];
    if body.Undefined? then Response(code, headers, Str(""))
    else if IsObject(body) then
      Response(code, headers[ContentType := Str("application/json")], Str(stringify(body)))
    else Response(code, headers, body)
  }

  /** `respondWith(handler, code, body)`: the callback receives the response
      interceptor's result when the interceptor is a function, and the
      envelope itself otherwise. */
  function Respond(container: Container, code: int, body: Value, stringify: Stringify): (d: Delivery)
    ensures !container.responseInterceptor.Callable? ==>
      d == Delivered(AsValue(BuildResponse(container.extraHeaders, code, body, stringify)))
    ensures container.responseInterceptor.Callable? ==>
      var out := container.responseInterceptor.f(AsValue(BuildResponse(container.extraHeaders, code, body, stringify)));
      (d.Delivered? <==> out.Some?) && (out.Some? ==> d.v == out.value)
  {
    var envelope := AsValue(BuildResponse(container.extraHeaders, code, body, stringify));
    match container.responseInterceptor
    case Callable(f) =>
      (match f(envelope)
       case Some(v) => Delivered(v)
       case None => Undelivered)
    case _ => Delivered(envelope)
  }

  /** Without an interceptor and extra headers, an envelope records exactly
      the status code, and the serialised object body under a JSON content
      type. */
  lemma PlainObjectResponse(code: int, body: Value, stringify: Stringify)
    requires IsObject(body)
    ensures Respond(Container(Unset, None, map[]), code, body, stringify) ==
      Delivered(Obj(map[
        "statusCode" := Num(code),
        "headers" := Obj(map[ContentType := Str("application/json")]),
        "body" := Str(stringify(body))]))
  {
    var r := BuildResponse(None, code, body, stringify);
    assert r.headers == map[ContentType := Str("application/json")];
  }

  /** `cacheWith(cache)`: `cache` becomes the container; it takes over the
      previous container's response interceptor and extra headers when those
      are set there, and keeps everything else it holds. */
  function CacheWith(existing: Container, cache: Container): (c: Container)
    ensures HookTruthy(existing.responseInterceptor) ==>
      c.responseInterceptor == existing.responseInterceptor
    ensures !HookTruthy(existing.responseInterceptor) ==>
      c.responseInterceptor == cache.responseInterceptor
    ensures existing.extraHeaders.Some? ==> c.extraHeaders == existing.extraHeaders
    ensures existing.extraHeaders.None? ==> c.extraHeaders == cache.extraHeaders
    ensures c.others == cache.others
  {
    Container(
      if HookTruthy(existing.responseInterceptor) then existing.responseInterceptor
      else cache.responseInterceptor,
      if existing.extraHeaders.Some? then existing.extraHeaders else cache.extraHeaders,
      cache.others)
  }

  /** Swapping in a container twice in a row is the same as swapping in the
      second one after the first: the carried-over settings survive. */
  lemma CacheWithCarriesThrough(a: Container, b: Container, c: Container)
    requires HookTruthy(a.responseInterceptor) && a.extraHeaders.Some?
    ensures CacheWith(CacheWith(a, b), c).responseInterceptor == a.responseInterceptor
    ensures CacheWith(CacheWith(a, b), c).extraHeaders == a.extraHeaders
    ensures CacheWith(CacheWith(a, b), c).others == c.others
  {
  }

  /** What a container delivers depends only on its interceptor and extra
      headers: after `cacheWith`, responses are the ones the previous
      container produced when it had both set (a truthy interceptor and extra
      headers), and the ones the new container produces on its own when the
      previous one had neither. */
  lemma RespondAfterCacheWith(existing: Container, cache: Container, code: int, body: Value,
                              stringify: Stringify)
    ensures HookTruthy(existing.responseInterceptor) && existing.extraHeaders.Some? ==>
      Respond(CacheWith(existing, cache), code, body, stringify) == Respond(existing, code, body, stringify)
    ensures !HookTruthy(existing.responseInterceptor) && existing.extraHeaders.None? ==>
      Respond(CacheWith(existing, cache), code, body, stringify) == Respond(cache, code, body, stringify)
  {
  }
}
