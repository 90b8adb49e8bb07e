/** The front end's HTTP client base class (`frontend/providers/api/BaseAPi.js`):
    a validated HTTP method, the request data, query parameters, source URL
    and headers, and the request they assemble. Sending it through axios is
    I/O outside the model; `createRequest` yields the request configuration,
    and the token read from local storage is a parameter. */
module BaseApi {
  import opened Common

  /** The methods the `httpMethod` setter accepts. */
  const ALLOWED_METHODS := ["get", "post", "put", "delete", "patch"]

  const AUTHORIZATION := "Authorization"
  const BEARER := "Bearer "

  /** Template interpolation of `localStorage.getItem(...)`: the stored text,
      or `null` when nothing is stored. */
  function TokenText(token: Option<string>): string {
    token.GetOr("null")
  }

  /** The configuration handed to the axios instance. */
  datatype Request = Request(
    url: string,
    verb: string,
    params: Json,
    data: Json,
    headers: map<string, string>)

  class Client {
    const baseUrl: string
    var httpMethod: string
    var data: Json
    var params: Json
    var sourceUrl: string
    var headers: map<string, string>

    /** A client for `baseUrl`, with the field defaults: empty method and
        source URL, empty data, parameters and headers. */
    constructor(baseUrl: string)
      ensures this.baseUrl == baseUrl && httpMethod == "" && sourceUrl == ""
      ensures data == JObject(map[]) && params == JObject(map[]) && headers == map[]
    {
      this.baseUrl := baseUrl;
      httpMethod := "";
      data := JObject(map[]);
      params := JObject(map[]);
      sourceUrl := "";
      headers := map[];
    }

    /** The `httpMethod` setter: an allowed method is stored; any other value
        throws and the stored method stays. Matching is exact, so `GET` is
        refused. */
    method SetHttpMethod(verb: string) returns (r: Result<()>)
      modifies this
      ensures r.Ok? <==> verb in ALLOWED_METHODS
      ensures r.Ok? ==> httpMethod == verb
      ensures r.Err? ==> r.error == RuntimeFailure && httpMethod == old(httpMethod)
      ensures data == old(data) && params == old(params) && sourceUrl == old(sourceUrl) && headers == old(headers)
    {
      if verb in ALLOWED_METHODS {
        httpMethod := verb;
        r := Ok(());
      } else {
        r := Err(RuntimeFailure);
      }
    }

    /** The `data` setter; the getter reads the field back. */
    method SetData(value: Json)
      modifies this
      ensures data == value
      ensures httpMethod == old(httpMethod) && params == old(params) && sourceUrl == old(sourceUrl) && headers == old(headers)
    {
      data := value;
    }

    /** The `params` setter. */
    method SetParams(value: Json)
      modifies this
      ensures params == value
      ensures httpMethod == old(httpMethod) && data == old(data) && sourceUrl == old(sourceUrl) && headers == old(headers)
    {
      params := value;
    }

    /** The `sourceUrl` setter. */
    method SetSourceUrl(value: string)
      modifies this
      ensures sourceUrl == value
      ensures httpMethod == old(httpMethod) && data == old(data) && params == old(params) && headers == old(headers)
    {
      sourceUrl := value;
    }

    /** The `headers` setter. */
    method SetHeaders(value: map<string, string>)
      modifies this
      ensures headers == value
      ensures httpMethod == old(httpMethod) && data == old(data) && params == old(params) && sourceUrl == old(sourceUrl)
    {
      headers := value;
    }

    /** `createRequest`: the URL is the base URL followed by the source URL;
        the caller's headers are kept except `Authorization`, which the
        stored bearer token always overrides, being spread last. */
    function CreateRequest(token: Option<string>): (req: Request)
      reads this
      ensures StartsWith(req.url, baseUrl) && req.url[|baseUrl|..] == sourceUrl
      ensures req.verb == httpMethod && req.params == params && req.data == data
      ensures req.headers.Keys == headers.Keys + {AUTHORIZATION}
      ensures req.headers[AUTHORIZATION] == BEARER + TokenText(token)
      ensures forall h :: h in headers && h != AUTHORIZATION ==> req.headers[h] == headers[h]
    {
      Request(baseUrl + sourceUrl, httpMethod, params, data, headers[AUTHORIZATION := BEARER + TokenText(token)])
    }
  }

  /** A refused method between two requests does not change what the next
      request sends. */
  method RefusedMethodKeepsRequest(client: Client, verb: string, token: Option<string>)
    requires verb !in ALLOWED_METHODS
    modifies client
    ensures client.CreateRequest(token) == old(client.CreateRequest(token))
  {
    var r := client.SetHttpMethod(verb);
  }
}
