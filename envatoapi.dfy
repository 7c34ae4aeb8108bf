/**
 * The client: credentials fixed at construction, the table of named
 * operations with their path templates, and one invocation of an operation
 * (build the URI, hand the request to the transport, classify the reply).
 */
module EnvatoApi {
  import opened Options
  import opened Text
  import opened Arguments
  import opened Templates
  import opened QueryString
  import opened Uris
  import opened Classification

  /** The client object: a personal token and a user agent, set once. */
  class Api {
    const token: string
    const userAgent: string

    constructor (token: string, userAgent: string)
      ensures this.token == token && this.userAgent == userAgent
    {
      this.token := token;
      this.userAgent := userAgent;
    }
  }

  /** What `makeRequest(path[, method])` binds: a path template and an HTTP method. */
  datatype Endpoint = Endpoint(template: string, httpMethod: string)

  /** `makeRequest`: the method defaults to GET when none is given. */
  function MakeRequest(path: string, httpMethod: Option<string>): Endpoint {
    Endpoint(path, if httpMethod.Some? then httpMethod.value else "GET")
  }

  /** The operations the client exposes, by name. */
  const Operations: map<string, Endpoint> := map[
    // Catalog
    "getCollection" := MakeRequest("/v3/market/catalog/collection", None),
    "getItem" := MakeRequest("/v3/market/catalog/item", None),
    "searchItems" := MakeRequest("/v1/discovery/search/search/item", None),
    "searchComments" := MakeRequest("/v1/discovery/search/search/comment", None),
    "getPopularItems" := MakeRequest("/v1/market/popular:%site.json", None),
    "getCategories" := MakeRequest("/v1/market/categories:%site.json", None),
    "getItemPrices" := MakeRequest("/v1/market/item-prices:%item_id.json", None),
    "getNewItems" := MakeRequest("/v1/market/new-files:%site,%category.json", None),
    "getFeaturedItems" := MakeRequest("/v1/market/features:%site.json", None),
    "getRandomNewFiles" := MakeRequest("/v1/market/random-new-files:%site.json", None),
    // User details
    "getUserCollections" := MakeRequest("/v3/market/user/collections", None),
    "getPrivateCollection" := MakeRequest("/v3/market/user/collection", None),
    "getUsersDetails" := MakeRequest("/v1/market/user:%username.json", None),
    "getUsersBadges" := MakeRequest("/v1/market/user-badges:%username.json", None),
    "getUsersItems" := MakeRequest("/v1/market/user-items-by-site:%username.json", None),
    "getUsersNewItems" := MakeRequest("/v1/market/new-files-from-user:%username,%site.json", None),
    // Private user details
    "getSales" := MakeRequest("/v3/market/author/sales", None),
    "getSaleByCode" := MakeRequest("/v3/market/author/sale", None),
    "getPurchases" := MakeRequest("/v3/market/buyer/list-purchases", None),
    "getPurchaseByCode" := MakeRequest("/v3/market/buyer/purchase", None),
    "getPrivateUserDetails" := MakeRequest("/v1/market/private/user/account.json", None),
    "getUsername" := MakeRequest("/v1/market/private/user/username.json", None),
    "getEmail" := MakeRequest("/v1/market/private/user/email.json", None),
    "getSalesByMonth" := MakeRequest("/v1/market/private/user/earnings-and-sales-by-month.json", None),
    "getTotalMarketUsers" := MakeRequest("/v1/market/total-users.json", None),
    "getTotalMarketItems" := MakeRequest("/v1/market/total-items.json", None),
    "getTotalFilesBySite" := MakeRequest("/v1/market/number-of-files:%site.json", None)]

  /** Every operation of the table is a GET bound to its own template. */
  lemma OperationsUseGet(name: string)
    requires name in Operations
    ensures Operations[name].httpMethod == "GET"
  {
  }

  datatype HttpRequest = HttpRequest(uri: string, httpMethod: string)

  /** What the transport hands the callback: an error, or none, and the response. */
  datatype Reply = Reply(error: Option<string>, response: Response)

  /**
   * One call of an operation. The transport, URL escaping and JSON parsing
   * are parameters; the caller's arguments object loses its consumed keys.
   */
  method Invoke<J>(endpoint: Endpoint, arguments: seq<Argument>, escape: string -> string,
                   transport: HttpRequest -> Reply, parse: string -> Option<J>)
    returns (request: HttpRequest, outcome: Outcome<J>)
    requires FirstIsObject(arguments) ==> arguments[0].obj.Valid()
    modifies FirstObject(arguments)
    ensures request.httpMethod == endpoint.httpMethod
    ensures request.uri == RequestUri(endpoint.template, |arguments|, old(ArgumentEntries(arguments)), escape)
    ensures outcome == Classify(transport(request).error, transport(request).response, parse)
    ensures FirstIsObject(arguments) ==>
      arguments[0].obj.entries == Unconsumed(endpoint.template, old(arguments[0].obj.entries))
  {
    var uri := BuildUri(endpoint.template, arguments, escape);
    request := HttpRequest(uri, endpoint.httpMethod);
    var reply := transport(request);
    outcome := Classify(reply.error, reply.response, parse);
  }

  // Worked calls. Templates are written as their text around the tokens, so
  // that the lemmas about one token apply.

  lemma UsersDetailsTemplate()
    ensures Operations["getUsersDetails"].template == "/v1/market/user:" + Token("username") + ".json"
  {
  }

  /** `getUsersDetails({username: u})` puts `u` in the path and appends no query. */
  lemma UsersDetailsExample(username: string, escape: string -> string)
    ensures RequestUri(Operations["getUsersDetails"].template, 1, [Arg("username", username)], escape)
         == Host + ("/v1/market/user:" + username + ".json")
  {
    UsersDetailsTemplate();
    AbsentFirstChar(".json", Token("username"));
    SoleTokenUri("/v1/market/user:", "username", ".json", username, 1, escape);
  }

  lemma NewItemsTemplate()
    ensures Operations["getNewItems"].template
         == "/v1/market/new-files:" + Token("site") + "," + Token("category") + ".json"
  {
  }

  /**
   * `getNewItems({site: s, category: c})` fills both placeholders, in the
   * object's key order, when the site value holds no `%`.
   */
  lemma NewItemsExample(site: string, category: string, escape: string -> string)
    requires '%' !in site
    ensures RequestUri(Operations["getNewItems"].template, 1, [Arg("site", site), Arg("category", category)], escape)
         == Host + ("/v1/market/new-files:" + site + "," + category + ".json")
  {
    NewItemsTemplate();
    assert "," + Token("category") + ".json" == "," + ['%'] + ("category" + ".json");
    NotOccursAcross(",", Token("site"), "category" + ".json");
    TwoTokenUri("/v1/market/new-files:", "site", ",", "category", ".json", site, category, 1, escape);
  }

  /** `getItem({id: i, extra: x})`: no placeholder, so both arguments go to the query, in order. */
  lemma CatalogItemExample(id: string, extra: string, escape: string -> string)
    ensures RequestUri(Operations["getItem"].template, 1, [Arg("id", id), Arg("extra", extra)], escape)
         == Host + "/v3/market/catalog/item"
            + ("?" + (escape("id") + "=" + escape(id) + "&" + (escape("extra") + "=" + escape(extra))))
  {
    var path := Operations["getItem"].template;
    assert path == "/v3/market/catalog/item";
    NoPlaceholderTwoArguments(path, 1, Arg("id", id), Arg("extra", extra), escape);
  }

  /** `getUsersDetails()` with no arguments sends the template unfilled, `%username` and all. */
  lemma UsersDetailsWithoutArguments(escape: string -> string)
    ensures RequestUri(Operations["getUsersDetails"].template, 0, [], escape)
         == Host + "/v1/market/user:%username.json"
  {
    EmptyArgumentsUri(Operations["getUsersDetails"].template, 0, escape);
  }
}
