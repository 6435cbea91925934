/** The host's reverse proxy: routes `/<service>/<path>` to the registered
    server, forwarding the request without its `Host` header and returning
    the downstream reply without hop-by-hop headers. */
module Host {
  import opened Wrappers
  import opened Seqs
  import opened Text

  datatype Header = Header(name: string, value: string)

  /** The request `requests.request` sends downstream. */
  datatype Outbound = Outbound(verb: string, url: string, headers: seq<Header>, body: string)

  /** The downstream server's reply. */
  datatype Downstream = Downstream(status: int, headers: seq<Header>, body: string)

  /** The reply the proxy sends back. */
  datatype ProxyResponse = ProxyResponse(status: int, headers: seq<Header>, body: string)

  /** `SERVICE_REGISTRY`: the first path segment to the server that handles it. */
  const ServiceRegistry: map<string, string> := map[
    "resource" := "http://localhost:6001",
    "tool" := "http://localhost:6002",
    "prompt" := "http://localhost:6003"]

  /** The response headers that are not copied back, compared lower-cased. */
  const ExcludedHeaders: seq<string> := ["content-encoding", "content-length", "transfer-encoding", "connection"]

  /** `f"{SERVICE_REGISTRY[service]}/{service}/{path}"`. */
  function DestinationUrl(service: string, path: string): string
    requires service in ServiceRegistry
  {
    ServiceRegistry[service] + "/" + service + "/" + path
  }

  /** `request.headers` as Flask presents them: the server stores each
      incoming name upper-cased in the WSGI environment, and reading it back
      title-cases it, so `host`, `HOST` and `Host` all arrive as `Host`. */
  function IncomingHeaders(raw: seq<Header>): (r: seq<Header>)
    ensures |r| == |raw|
    ensures forall i :: 0 <= i < |raw| ==> r[i] == Header(TitleCase(raw[i].name), raw[i].value)
  {
    seq(|raw|, i requires 0 <= i < |raw| => Header(TitleCase(raw[i].name), raw[i].value))
  }

  /** The request headers forwarded: all those Flask presents, except the
      one named exactly `Host`. */
  function ForwardedHeaders(raw: seq<Header>): seq<Header>
  {
    Filter(IncomingHeaders(raw), (h: Header) => h.name != "Host")
  }

  /** The response headers copied back: all but the excluded ones, whatever
      their letter case. */
  function ReturnedHeaders(headers: seq<Header>): seq<Header>
  {
    Filter(headers, (h: Header) => Lower(h.name) !in ExcludedHeaders)
  }

  /** The proxy handler. `send` performs the downstream request: its reply,
      or the connection error `requests` raised. */
  function Proxy(verb: string, service: string, path: string, headers: seq<Header>, body: string,
                 send: Outbound -> Result<Downstream>): ProxyResponse
  {
    if service !in ServiceRegistry then ProxyResponse(404, [], "Service not found")
    else match send(Outbound(verb, DestinationUrl(service, path), ForwardedHeaders(headers), body))
      case Failure(_) => ProxyResponse(502, [], "Downstream service connection error")
      case Success(d) => ProxyResponse(d.status, ReturnedHeaders(d.headers), d.body)
  }

  /** Only `resource`, `tool` and `prompt` are routed; any other service gets
      404 "Service not found" without a downstream request. */
  lemma ProxyUnknownService(verb: string, service: string, path: string, headers: seq<Header>, body: string,
                            send1: Outbound -> Result<Downstream>, send2: Outbound -> Result<Downstream>)
    requires service != "resource" && service != "tool" && service != "prompt"
    ensures Proxy(verb, service, path, headers, body, send1) == ProxyResponse(404, [], "Service not found")
    ensures Proxy(verb, service, path, headers, body, send1) == Proxy(verb, service, path, headers, body, send2)
  {
  }

  /** A routed request is sent once, to `<server>/<service>/<path>` with the
      same method and body and the forwarded headers; a connection error
      becomes 502 and a reply passes its status and body through. */
  lemma ProxyRoutes(verb: string, service: string, path: string, headers: seq<Header>, body: string,
                    send: Outbound -> Result<Downstream>)
    requires service in ServiceRegistry
    ensures var out := send(Outbound(verb, ServiceRegistry[service] + "/" + service + "/" + path,
                                     ForwardedHeaders(headers), body));
      var resp := Proxy(verb, service, path, headers, body, send);
      && (out.Failure? ==> resp == ProxyResponse(502, [], "Downstream service connection error"))
      && (out.Success? ==> resp.status == out.value.status && resp.body == out.value.body
                           && resp.headers == ReturnedHeaders(out.value.headers))
  {
  }

  /** The three registered servers listen on ports 6001 to 6003 of localhost. */
  lemma RegistryUrls(path: string)
    ensures DestinationUrl("resource", path) == "http://localhost:6001/resource/" + path
    ensures DestinationUrl("tool", path) == "http://localhost:6002/tool/" + path
    ensures DestinationUrl("prompt", path) == "http://localhost:6003/prompt/" + path
  {
  }

  /** A request header is forwarded, under its title-cased name, exactly
      when that name is not `Host`; the forwarded headers keep their order;
      and no spelling of `host` is ever forwarded. */
  lemma ForwardedHeadersSpec(raw: seq<Header>, h: Header)
    ensures h in ForwardedHeaders(raw) <==>
      exists i :: 0 <= i < |raw| && h == Header(TitleCase(raw[i].name), raw[i].value) && h.name != "Host"
    ensures Subsequence(ForwardedHeaders(raw), IncomingHeaders(raw))
    ensures h in ForwardedHeaders(raw) ==> Lower(h.name) != "host"
  {
    var headers := IncomingHeaders(raw);
    FilterMembership(headers, (x: Header) => x.name != "Host", h);
    if h in ForwardedHeaders(raw) {
      var i :| 0 <= i < |raw| && headers[i] == h;
      TitleCaseHost(raw[i].name);
      LowerTitleCase(raw[i].name);
    }
    if exists i :: 0 <= i < |raw| && h == Header(TitleCase(raw[i].name), raw[i].value) && h.name != "Host" {
      var i :| 0 <= i < |raw| && h == Header(TitleCase(raw[i].name), raw[i].value) && h.name != "Host";
      assert headers[i] == h;
    }
    FilterIsSubsequence(headers, (x: Header) => x.name != "Host");
  }

  /** A response header is copied back exactly when its lower-cased name is
      not one of the four excluded names; copied headers keep their order,
      and filtering again removes nothing more. */
  lemma ReturnedHeadersSpec(headers: seq<Header>, h: Header)
    ensures h in ReturnedHeaders(headers) <==> h in headers && Lower(h.name) !in ExcludedHeaders
    ensures Subsequence(ReturnedHeaders(headers), headers)
    ensures ReturnedHeaders(ReturnedHeaders(headers)) == ReturnedHeaders(headers)
  {
    var keep := (x: Header) => Lower(x.name) !in ExcludedHeaders;
    FilterMembership(headers, keep, h);
    FilterIsSubsequence(headers, keep);
    FilterIdempotent(headers, keep);
  }

  /** The response filter ignores letter case: `Content-Length` and
      `Transfer-Encoding` are dropped like their lower-case forms. */
  lemma HeaderCaseExamples(v: string)
    ensures ReturnedHeaders([Header("Content-Length", v)]) == []
    ensures ReturnedHeaders([Header("Transfer-Encoding", v)]) == []
    ensures ReturnedHeaders([Header("Content-Type", v)]) == [Header("Content-Type", v)]
  {
    assert Lower("Content-Length") == "content-length";
    assert Lower("Transfer-Encoding") == "transfer-encoding";
    assert Lower("Content-Type") == "content-type";
    assert "content-type" !in ExcludedHeaders;
  }

  /** A client's `host`, in any spelling, is dropped like `Host`, while
      `x-trace` is forwarded as `X-Trace`. */
  lemma RequestHeaderExamples(v: string)
    ensures ForwardedHeaders([Header("host", v)]) == []
    ensures ForwardedHeaders([Header("HOST", v)]) == []
    ensures ForwardedHeaders([Header("x-trace", v)]) == [Header("X-Trace", v)]
  {
    TitleCaseHost("host");
    assert Lower("host") == "host";
    TitleCaseHost("HOST");
    assert Lower("HOST") == "host" by {
      var r := Lower("HOST");
      assert r[0] == 'h' && r[1] == 'o' && r[2] == 's' && r[3] == 't';
    }
    assert TitleCase("x-trace") == "X-Trace" by {
      var r := TitleCase("x-trace");
      assert r[0] == 'X' && r[1] == '-' && r[2] == 'T' && r[3] == 'r' && r[4] == 'a' && r[5] == 'c' && r[6] == 'e';
    }
  }
}
