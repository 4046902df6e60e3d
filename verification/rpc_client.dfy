/** The JSON-RPC client's endpoint derivation and response handling: folding a
    multiaddr into a URL, splitting the `FULLNODE_API_INFO` value into token and
    address, choosing the `Authorization` header, and mapping the response
    envelope to a result. The HTTP exchange, the environment read and the
    multiaddr text parser are outside the model; their results are parameters. */
module RpcClient {
  import opened Results
  import Decimal

  const ApiInfoKey: string := "FULLNODE_API_INFO"
  const DefaultHost: string := "127.0.0.1"
  const DefaultMultiaddress: string := "/ip4/127.0.0.1/tcp/1234/http"
  const DefaultPort: u16 := 1234
  const DefaultProtocol: string := "http"
  const DefaultUrl: string := "http://127.0.0.1:1234/rpc/v0"
  const RpcEndpoint: string := "rpc/v0"

  // ---------------------------------------------------------------------------
  // Multiaddr to URL

  /** One multiaddr component. Addresses and names carry their `to_string`
      rendering; every protocol the fold ignores is `Other`. */
  datatype Protocol =
    | Ip4(ip: string) | Ip6(ip: string)
    | Dns(name: string) | Dns4(name: string) | Dns6(name: string) | Dnsaddr(name: string)
    | Tcp(port: u16)
    | Http | Https
    | Other(name: string)

  /** Components that set the host. */
  predicate IsHost(p: Protocol)
  {
    p.Ip4? || p.Ip6? || p.Dns? || p.Dns4? || p.Dns6? || p.Dnsaddr?
  }

  function HostText(p: Protocol): string
    requires IsHost(p)
  {
    match p
    case Ip4(ip) => ip
    case Ip6(ip) => ip
    case Dns(name) => name
    case Dns4(name) => name
    case Dns6(name) => name
    case Dnsaddr(name) => name
  }

  /** Components that set the scheme. */
  predicate IsScheme(p: Protocol)
  {
    p.Http? || p.Https?
  }

  function SchemeText(p: Protocol): string
    requires IsScheme(p)
  {
    if p.Http? then "http" else "https"
  }

  /** The accumulator of the fold. */
  datatype Url = Url(protocol: string, port: u16, host: string)

  const DefaultParts: Url := Url(DefaultProtocol, DefaultPort, DefaultHost)

  /** The closure of the fold: a host component sets the host, a `Tcp`
      component the port, an `Http`/`Https` component the scheme; each leaves
      the other two fields alone, and any other component changes nothing. */
  function Step(addr: Url, p: Protocol): (r: Url)
    ensures IsHost(p) ==> r.host == HostText(p)
    ensures !IsHost(p) ==> r.host == addr.host
    ensures p.Tcp? ==> r.port == p.port
    ensures !p.Tcp? ==> r.port == addr.port
    ensures IsScheme(p) ==> r.protocol == SchemeText(p)
    ensures !IsScheme(p) ==> r.protocol == addr.protocol
  {
    if IsHost(p) then addr.(host := HostText(p))
    else if p.Tcp? then addr.(port := p.port)
    else if IsScheme(p) then addr.(protocol := SchemeText(p))
    else addr
  }

  /** Which field of the URL a component sets, if any. */
  function FieldOf(p: Protocol): nat
  {
    if IsHost(p) then 1 else if p.Tcp? then 2 else if IsScheme(p) then 3 else 0
  }

  /** A later component of the same kind overrides an earlier one. */
  lemma StepOverrides(addr: Url, p: Protocol, q: Protocol)
    requires FieldOf(p) == FieldOf(q) != 0
    ensures Step(Step(addr, p), q) == Step(addr, q)
  {
  }

  /** Components of different kinds can be applied in either order. */
  lemma StepCommutes(addr: Url, p: Protocol, q: Protocol)
    requires FieldOf(p) != FieldOf(q)
    ensures Step(Step(addr, p), q) == Step(Step(addr, q), p)
  {
  }

  /** The left fold of `Step` over the components, from the defaults: every
      field is its default or comes from a component of the matching kind. */
  function Fold(ma: seq<Protocol>): (r: Url)
    ensures r.protocol == "http" || r.protocol == "https"
    ensures r.host == DefaultHost || exists i :: 0 <= i < |ma| && IsHost(ma[i]) && r.host == HostText(ma[i])
    ensures r.port == DefaultPort || exists i :: 0 <= i < |ma| && ma[i].Tcp? && r.port == ma[i].port
    decreases |ma|
  {
    if |ma| == 0 then DefaultParts
    else
      var init := ma[..|ma| - 1];
      assert forall i :: 0 <= i < |init| ==> init[i] == ma[i];
      Step(Fold(init), ma[|ma| - 1])
  }

  /** The host is the rendering of the last host component, or the default
      host when there is none. */
  lemma {:induction false} FoldHostIsLast(ma: seq<Protocol>)
    ensures (forall i :: 0 <= i < |ma| ==> !IsHost(ma[i])) ==> Fold(ma).host == DefaultHost
    ensures forall i :: 0 <= i < |ma| && IsHost(ma[i]) && (forall j :: i < j < |ma| ==> !IsHost(ma[j]))
                        ==> Fold(ma).host == HostText(ma[i])
    decreases |ma|
  {
    if |ma| > 0 {
      var init := ma[..|ma| - 1];
      var last := ma[|ma| - 1];
      FoldHostIsLast(init);
      assert Fold(ma) == Step(Fold(init), last);
      if IsHost(last) {
        assert Fold(ma).host == HostText(last);
      } else {
        assert Fold(ma).host == Fold(init).host;
        forall i | 0 <= i < |ma| && IsHost(ma[i]) && (forall j :: i < j < |ma| ==> !IsHost(ma[j]))
          ensures Fold(ma).host == HostText(ma[i])
        {
          assert init[i] == ma[i];
          assert forall j :: i < j < |init| ==> init[j] == ma[j];
        }
        assert forall i :: 0 <= i < |init| ==> init[i] == ma[i];
      }
    }
  }

  /** The port is that of the last `Tcp` component, or 1234 when there is none. */
  lemma {:induction false} FoldPortIsLast(ma: seq<Protocol>)
    ensures (forall i :: 0 <= i < |ma| ==> !ma[i].Tcp?) ==> Fold(ma).port == DefaultPort
    ensures forall i :: 0 <= i < |ma| && ma[i].Tcp? && (forall j :: i < j < |ma| ==> !ma[j].Tcp?)
                        ==> Fold(ma).port == ma[i].port
    decreases |ma|
  {
    if |ma| > 0 {
      var init := ma[..|ma| - 1];
      var last := ma[|ma| - 1];
      FoldPortIsLast(init);
      assert Fold(ma) == Step(Fold(init), last);
      if last.Tcp? {
        assert Fold(ma).port == last.port;
      } else {
        assert Fold(ma).port == Fold(init).port;
        forall i | 0 <= i < |ma| && ma[i].Tcp? && (forall j :: i < j < |ma| ==> !ma[j].Tcp?)
          ensures Fold(ma).port == ma[i].port
        {
          assert init[i] == ma[i];
          assert forall j :: i < j < |init| ==> init[j] == ma[j];
        }
        assert forall i :: 0 <= i < |init| ==> init[i] == ma[i];
      }
    }
  }

  /** The scheme is that of the last `Http`/`Https` component, or `http` when
      there is none; so it is always `http` or `https`. */
  lemma {:induction false} FoldSchemeIsLast(ma: seq<Protocol>)
    ensures (forall i :: 0 <= i < |ma| ==> !IsScheme(ma[i])) ==> Fold(ma).protocol == DefaultProtocol
    ensures forall i :: 0 <= i < |ma| && IsScheme(ma[i]) && (forall j :: i < j < |ma| ==> !IsScheme(ma[j]))
                        ==> Fold(ma).protocol == SchemeText(ma[i])
    ensures Fold(ma).protocol == "http" || Fold(ma).protocol == "https"
    decreases |ma|
  {
    if |ma| > 0 {
      var init := ma[..|ma| - 1];
      var last := ma[|ma| - 1];
      FoldSchemeIsLast(init);
      assert Fold(ma) == Step(Fold(init), last);
      if IsScheme(last) {
        assert Fold(ma).protocol == SchemeText(last);
      } else {
        assert Fold(ma).protocol == Fold(init).protocol;
        forall i | 0 <= i < |ma| && IsScheme(ma[i]) && (forall j :: i < j < |ma| ==> !IsScheme(ma[j]))
          ensures Fold(ma).protocol == SchemeText(ma[i])
        {
          assert init[i] == ma[i];
          assert forall j :: i < j < |init| ==> init[j] == ma[j];
        }
        assert forall i :: 0 <= i < |init| ==> init[i] == ma[i];
      }
    }
  }

  /** Components the fold does not recognise leave the accumulated URL unchanged. */
  lemma {:induction false} FoldSkipsOther(ma: seq<Protocol>, k: nat)
    requires k <= |ma|
    requires forall i :: k <= i < |ma| ==> ma[i].Other?
    ensures Fold(ma) == Fold(ma[..k])
    decreases |ma|
  {
    if k < |ma| {
      FoldSkipsOther(ma[..|ma| - 1], k);
      assert ma[..|ma| - 1][..k] == ma[..k];
    } else {
      assert ma[..k] == ma;
    }
  }

  /** `proto://host:port/rpc/v0`. */
  function Render(u: Url): (r: string)
    ensures |r| == |u.protocol| + |u.host| + |Decimal.ToString(u.port)| + 5 + |RpcEndpoint|
    ensures r[..|u.protocol| + 3] == u.protocol + "://"
    ensures r[|u.protocol| + 3..|u.protocol| + 3 + |u.host|] == u.host
    ensures r[|r| - |RpcEndpoint| - 1..] == "/" + RpcEndpoint
  {
    u.protocol + "://" + u.host + ":" + Decimal.ToString(u.port) + "/" + RpcEndpoint
  }

  /** `multiaddress_to_url`: the URL is `proto://host:port/rpc/v0` with the
      fields of the fold, readable back by `ParseUrl`. */
  function MultiaddressToUrl(ma: seq<Protocol>): (url: string)
    ensures ParseUrl(url) == Some(Fold(ma))
  {
    FoldSchemeIsLast(ma);
    ParseRender(Fold(ma));
    Render(Fold(ma))
  }

  // ---------------------------------------------------------------------------
  // Reading a URL back

  function LastIndexOf(s: string, c: char): (r: Option<nat>)
    ensures r.Some? ==> r.value < |s| && s[r.value] == c && forall k :: r.value < k < |s| ==> s[k] != c
    ensures r.None? ==> forall k :: 0 <= k < |s| ==> s[k] != c
    decreases |s|
  {
    if |s| == 0 then None
    else if s[|s| - 1] == c then Some(|s| - 1)
    else LastIndexOf(s[..|s| - 1], c)
  }

  /** The scheme of `http://rest` or `https://rest`, and the rest. */
  function SplitScheme(s: string): Option<(string, string)>
  {
    if |s| >= 7 && s[..7] == "http://" then Some(("http", s[7..]))
    else if |s| >= 8 && s[..8] == "https://" then Some(("https", s[8..]))
    else None
  }

  /** `host:port`, split at the last `:`; the port must be a 16-bit decimal. */
  function SplitAuthority(a: string): Option<(string, u16)>
  {
    match LastIndexOf(a, ':')
    case None => None
    case Some(j) =>
      var digits := a[j + 1..];
      if |digits| == 0 || !Decimal.AllDigits(digits) || Decimal.Value(digits) >= 0x1_0000 then None
      else Some((a[..j], Decimal.Value(digits)))
  }

  /** Splits `http://host:port/rpc/v0` or `https://...` back into its parts,
      taking the port from after the last `:` of the authority. */
  function ParseUrl(s: string): Option<Url>
  {
    var suffix := "/" + RpcEndpoint;
    match SplitScheme(s)
    case None => None
    case Some((scheme, rest)) =>
      if |rest| < |suffix| || rest[|rest| - |suffix|..] != suffix then None
      else match SplitAuthority(rest[..|rest| - |suffix|])
        case None => None
        case Some((host, port)) => Some(Url(scheme, port, host))
  }

  lemma SplitSchemeOf(scheme: string, rest: string)
    requires scheme == "http" || scheme == "https"
    ensures SplitScheme(scheme + "://" + rest) == Some((scheme, rest))
  {
    var s := scheme + "://" + rest;
    if scheme == "http" {
      assert s[..7] == "http://";
    } else {
      assert s[..7] != "http://" by { assert s[4] == 's'; }
      assert s[..8] == "https://";
    }
  }

  lemma SplitAuthorityOf(host: string, port: u16)
    ensures SplitAuthority(host + ":" + Decimal.ToString(port)) == Some((host, port))
  {
    var digits := Decimal.ToString(port);
    var a := host + ":" + digits;
    assert a[|host|] == ':';
    assert forall k :: |host| < k < |a| ==> a[k] == digits[k - |host| - 1];
    assert LastIndexOf(a, ':') == Some(|host|);
    assert a[|host| + 1..] == digits;
    assert a[..|host|] == host;
    Decimal.ValueOfToString(port);
  }

  lemma ParseRender(u: Url)
    requires u.protocol == "http" || u.protocol == "https"
    ensures ParseUrl(Render(u)) == Some(u)
  {
    var authority := u.host + ":" + Decimal.ToString(u.port);
    var suffix := "/" + RpcEndpoint;
    var rest := authority + suffix;
    assert Render(u) == u.protocol + "://" + rest;
    SplitSchemeOf(u.protocol, rest);
    assert rest[|rest| - |suffix|..] == suffix;
    assert rest[..|rest| - |suffix|] == authority;
    SplitAuthorityOf(u.host, u.port);
  }

  lemma ToString1234()
    ensures Decimal.ToString(1234) == "1234"
  {
    Decimal.ToStringSnoc(123, 4);
    Decimal.ToStringSnoc(12, 3);
    Decimal.ToStringSnoc(1, 2);
  }

  /** The empty multiaddr yields `DEFAULT_URL`, and so does the parsed form of
      `DEFAULT_MULTIADDRESS`, `/ip4/127.0.0.1/tcp/1234/http`. */
  lemma DefaultUrls()
    ensures MultiaddressToUrl([]) == DefaultUrl
    ensures MultiaddressToUrl([Ip4("127.0.0.1"), Tcp(1234), Http]) == DefaultUrl
  {
    RenderDefaults();
    DefaultMultiaddressParts();
  }

  /** The default parts render to `DEFAULT_URL`. */
  lemma RenderDefaults()
    ensures Render(DefaultParts) == DefaultUrl
  {
    ToString1234();
    var scheme := DefaultProtocol + "://";
    assert scheme == "http://";
    var host := scheme + DefaultHost;
    assert host == "http://127.0.0.1";
    var port := host + ":" + Decimal.ToString(DefaultPort);
    assert port == "http://127.0.0.1:1234";
    assert Render(DefaultParts) == port + "/" + RpcEndpoint;
  }

  /** The components of `DEFAULT_MULTIADDRESS` restate the defaults. */
  lemma DefaultMultiaddressParts()
    ensures Fold([Ip4("127.0.0.1"), Tcp(1234), Http]) == DefaultParts
  {
    var ma := [Ip4("127.0.0.1"), Tcp(1234), Http];
    assert ma[..1] == [Ip4("127.0.0.1")];
    assert ma[..2] == [Ip4("127.0.0.1"), Tcp(1234)];
    assert ma[..2][..1] == ma[..1];
    assert Fold(ma[..1]) == DefaultParts;
    assert Fold(ma[..2]) == DefaultParts;
  }

  // ---------------------------------------------------------------------------
  // API info

  /** The value of `FULLNODE_API_INFO` taken apart: the address text and the
      JWT, when one was given. */
  datatype ApiInfoText = ApiInfoText(address: string, token: Option<string>)

  /** The endpoint configuration: the parsed multiaddr and the JWT, when one
      was given. */
  datatype ApiInfo = ApiInfo(multiaddr: seq<Protocol>, token: Option<string>)

  function IndexOf(s: string, c: char): (r: Option<nat>)
    ensures r.Some? ==> r.value < |s| && s[r.value] == c && forall k :: 0 <= k < r.value ==> s[k] != c
    ensures r.None? ==> forall k :: 0 <= k < |s| ==> s[k] != c
    decreases |s|
  {
    if |s| == 0 then None
    else if s[0] == c then Some(0)
    else match IndexOf(s[1..], c)
      case None => None
      case Some(i) => Some(i + 1)
  }

  /** The value of `FULLNODE_API_INFO` split at its first `:` into token and
      address; without a `:` the whole value is the address. */
  function SplitApiInfo(text: string): (info: ApiInfoText)
    ensures info.token.Some? <==> ':' in text
    ensures info.token.Some? ==> text == info.token.value + ":" + info.address && ':' !in info.token.value
    ensures info.token.None? ==> info.address == text
  {
    match IndexOf(text, ':')
    case None => ApiInfoText(text, None)
    case Some(i) =>
      var token := text[..i];
      assert text == token + ":" + text[i + 1..];
      assert forall k :: 0 <= k < |token| ==> token[k] == text[k];
      ApiInfoText(text[i + 1..], Some(token))
  }

  /** The message of the panic when the address does not parse. */
  const ParseMultiaddressMessage: string := "Parse multiaddress"

  /** The default value has no `:`, so it carries no token. */
  lemma DefaultHasNoToken()
    ensures SplitApiInfo(DefaultMultiaddress) == ApiInfoText(DefaultMultiaddress, None)
  {
    assert forall k :: 0 <= k < |DefaultMultiaddress| ==> DefaultMultiaddress[k] != ':';
  }

  /** `API_INFO`: the variable's value, or the default multiaddr when unset,
      split into token and address, and the address parsed by `parse` (the
      multiaddr library's `FromStr`). An address that does not parse is the
      `expect` panic, modelled as an error carrying its message. */
  function LoadApiInfo(env: Option<string>, parse: string -> Option<seq<Protocol>>): (r: Result<ApiInfo, string>)
    ensures var text := SplitApiInfo(if env.Some? then env.value else DefaultMultiaddress);
            && (r.Err? <==> parse(text.address).None?)
            && (r.Err? ==> r.error == ParseMultiaddressMessage)
            && (r.Ok? ==> r.value == ApiInfo(parse(text.address).value, text.token))
    ensures env.None? ==> (r.Ok? <==> parse(DefaultMultiaddress).Some?)
    ensures env.None? && r.Ok? ==> r.value == ApiInfo(parse(DefaultMultiaddress).value, None)
  {
    DefaultHasNoToken();
    var text := SplitApiInfo(if env.Some? then env.value else DefaultMultiaddress);
    match parse(text.address)
    case None => Err(ParseMultiaddressMessage)
    case Some(ma) => Ok(ApiInfo(ma, text.token))
  }

  /** Joining token and address back gives the original value: the split loses
      nothing. */
  lemma SplitApiInfoJoin(text: string)
    ensures var info := SplitApiInfo(text);
            text == (if info.token.Some? then info.token.value + ":" + info.address else info.address)
  {
  }

  /** A token free of `:` followed by `:` and an address is split back into
      exactly that token and address. */
  lemma SplitApiInfoOfToken(jwt: string, addr: string)
    requires ':' !in jwt
    ensures SplitApiInfo(jwt + ":" + addr) == ApiInfoText(addr, Some(jwt))
  {
    var text := jwt + ":" + addr;
    assert text[|jwt|] == ':';
    var info := SplitApiInfo(text);
    var t := info.token.value;
    assert t == text[..|t|];
    assert jwt == text[..|jwt|];
    assert t == jwt;
    assert info.address == text[|jwt| + 1..];
  }
  // ---------------------------------------------------------------------------
  // Request headers

  /** The `http` crate's rule for a header value: visible ASCII, space, tab,
      or any non-ASCII character; control characters and DEL are refused. */
  predicate IsHeaderValue(s: string)
  {
    forall k :: 0 <= k < |s| ==> (s[k] >= ' ' && s[k] != '\U{7f}') || s[k] == '\t'
  }

  datatype Header = Header(name: string, value: string)

  datatype RpcError =
    | Full(code: int, message: string)   // an error with a code: HTTP status or JSON-RPC error object
    | InvalidHeader(value: string)       // a token that is not a header value
    | ParseFailure(message: string)      // a body that is not a response envelope

  /** The headers of the request in `call`: the content type, then an
      `Authorization` header carrying the stored token if there is one,
      else the caller's token if there is one. */
  function RequestHeaders(stored: Option<string>, caller: Option<string>): (r: Result<seq<Header>, RpcError>)
    ensures r.Ok? ==> |r.value| >= 1 && r.value[0] == Header("content-type", "application/json")
    ensures r.Ok? ==> (|r.value| == 2 <==> stored.Some? || caller.Some?) && |r.value| <= 2
    ensures r.Ok? && stored.Some? ==> r.value[1] == Header("Authorization", stored.value)
    ensures r.Ok? && stored.None? && caller.Some? ==> r.value[1] == Header("Authorization", caller.value)
    ensures r.Err? <==> (stored.Some? && !IsHeaderValue(stored.value))
                        || (stored.None? && caller.Some? && !IsHeaderValue(caller.value))
  {
    var base := [Header("content-type", "application/json")];
    match stored
    case Some(jwt) =>
      if IsHeaderValue(jwt) then Ok(base + [Header("Authorization", jwt)]) else Err(InvalidHeader(jwt))
    case None =>
      match caller
      case Some(jwt) =>
        if IsHeaderValue(jwt) then Ok(base + [Header("Authorization", jwt)]) else Err(InvalidHeader(jwt))
      case None => Ok(base)
  }

  datatype HttpRequest = HttpRequest(url: string, headers: seq<Header>)

  /** The request `call` posts: the URL of the stored multiaddr and the headers. */
  function PrepareRequest(info: ApiInfo, caller: Option<string>): (r: Result<HttpRequest, RpcError>)
    ensures r.Ok? ==> ParseUrl(r.value.url) == Some(Fold(info.multiaddr))
    ensures r.Ok? <==> RequestHeaders(info.token, caller).Ok?
    ensures r.Ok? ==> r.value.headers == RequestHeaders(info.token, caller).value
  {
    match RequestHeaders(info.token, caller)
    case Err(e) => Err(e)
    case Ok(headers) => Ok(HttpRequest(MultiaddressToUrl(info.multiaddr), headers))
  }

  /** With `FULLNODE_API_INFO` unset and the default multiaddr parsed into its
      three components, `call` posts to `DEFAULT_URL` and sends the caller's
      token, if any, as the `Authorization` header. */
  lemma DefaultEndpoint(parse: string -> Option<seq<Protocol>>, caller: Option<string>)
    requires parse(DefaultMultiaddress) == Some([Ip4("127.0.0.1"), Tcp(1234), Http])
    requires caller.Some? ==> IsHeaderValue(caller.value)
    ensures LoadApiInfo(None, parse).Ok?
    ensures var r := PrepareRequest(LoadApiInfo(None, parse).value, caller);
            && r.Ok? && r.value.url == DefaultUrl
            && r.value.headers == RequestHeaders(None, caller).value
  {
    DefaultUrls();
  }

  // ---------------------------------------------------------------------------
  // Response handling

  datatype JsonRpcError = JsonRpcError(code: int, message: string)

  /** The two shapes of a JSON-RPC 2.0 response body. */
  datatype JsonRpcResponse<R> =
    | ResultResponse(result: R, id: int)
    | ErrorResponse(error: JsonRpcError, id: int)

  /** The final match of `call`: a result envelope is `Ok(result)`, an error
      envelope is an error with the same code and message. */
  function MapResponse<R>(resp: JsonRpcResponse<R>): (r: Result<R, RpcError>)
    ensures r.Ok? <==> resp.ResultResponse?
    ensures r.Ok? ==> r.value == resp.result
    ensures r.Err? ==> r.error.Full? && r.error.code == resp.error.code && r.error.message == resp.error.message
  {
    match resp
    case ResultResponse(result, _) => Ok(result)
    case ErrorResponse(error, _) => Err(Full(error.code, error.message))
  }

  const HttpErrorPrefix: string := "Error code from HTTP Response: "
  const ParseErrorPrefix: string := "Parse Error: Response from RPC endpoint could not be parsed. Error was: "

  /** The response half of `call`. A status outside 200-299 is an error with
      that status as code (`statusText` is the status's display form); a body
      that is not an envelope is a parse error carrying the parser's message;
      otherwise the envelope is mapped. */
  function HandleResponse<R>(status: int, statusText: string, body: Result<JsonRpcResponse<R>, string>)
    : (r: Result<R, RpcError>)
    ensures !(200 <= status < 300) ==> r == Err(Full(status, HttpErrorPrefix + statusText))
    ensures 200 <= status < 300 && body.Err? ==> r == Err(ParseFailure(ParseErrorPrefix + body.error))
    ensures r.Ok? <==> 200 <= status < 300 && body.Ok? && body.value.ResultResponse?
    ensures r.Ok? ==> r.value == body.value.result
    ensures 200 <= status < 300 && body.Ok? && body.value.ErrorResponse? ==>
              r == Err(Full(body.value.error.code, body.value.error.message))
  {
    if !(200 <= status < 300) then Err(Full(status, HttpErrorPrefix + statusText))
    else match body
      case Err(e) => Err(ParseFailure(ParseErrorPrefix + e))
      case Ok(resp) => MapResponse(resp)
  }
}
