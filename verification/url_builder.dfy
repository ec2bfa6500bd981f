/**
 `buildUrl`: the fixed origin, the endpoint with every leading and trailing `/`
 removed, and the encoded query when there is one.

 `url.Parse` is only ever applied to the fixed origin, so it is modelled by the
 parts it yields for that origin (scheme, host, empty path). `URL.String` is
 modelled for URLs of that shape: scheme, `://`, host, the escaped path and, when
 the raw query is not empty, `?` and the query.

 The facts are proved for any origin of that shape that holds no `?`, then carried
 over to `BASE_URL` through `BaseOrigin`.
 */
module UrlBuilder {
  import opened Wrappers
  import opened Strings
  import opened Escaping
  import opened Query

  /** `BASE_URL`. */
  const BaseUrl: GoString := "https://gamma-api.polymarket.com"

  /** The parts of a URL the builder sets. */
  datatype Url = Url(scheme: GoString, host: GoString, path: GoString, rawQuery: GoString)

  /**
   `url.Parse(strings.TrimRight(BASE_URL, "/"))`: the scheme before `://`, the host
   after it, and nothing else.
   */
  const BaseParsed: Url := Url(BaseUrl[..5], BaseUrl[8..], "", "")

  /** The escaped path as `URL.String` writes it, with a `/` put in front when it lacks one. */
  function PathText(path: GoString): GoString {
    var p := Escape(path, Path);
    (if p != "" && p[0] != '/' then "/" else "") + p
  }

  /** `?` and the raw query, written only when the raw query is not empty. */
  function QueryText(rawQuery: GoString): GoString {
    if rawQuery != "" then "?" + rawQuery else ""
  }

  /** `URL.String` for a URL with a scheme and a host, no user, no fragment. */
  function Render(u: Url): GoString {
    u.scheme + "://" + u.host + PathText(u.path) + QueryText(u.rawQuery)
  }

  /** What `url.Parse` yields for a bare `scheme://host`: nothing in the path or the query. */
  predicate IsOrigin(u: Url) {
    u.path == "" && u.rawQuery == ""
  }

  /** The body of `buildUrl` once the origin has been parsed into `origin`. */
  function BuildUrlFrom(origin: Url, endpoint: GoString, params: Values): GoString {
    var e := Trim(endpoint, '/');
    var u := if e != "" then origin.(path := origin.path + "/" + e) else origin;
    var u' := if |params| > 0 then u.(rawQuery := Encode(params)) else u;
    Render(u')
  }

  /** `buildUrl(endpoint, params)`. It accepts every endpoint string. */
  function BuildUrl(endpoint: GoString, params: Values): GoString {
    BuildUrlFrom(BaseParsed, endpoint, params)
  }

  /** What the endpoint contributes: nothing, or `/` and the trimmed endpoint, escaped as a path. */
  function PathPart(endpoint: GoString): GoString {
    var e := Trim(endpoint, '/');
    if e == "" then "" else "/" + Escape(e, Path)
  }

  /** What the parameters contribute: nothing, or `?` and the encoded query. */
  function QueryPart(params: Values): GoString {
    var q := Encode(params);
    if q == "" then "" else "?" + q
  }

  lemma Assoc(a: GoString, b: GoString, c: GoString)
    ensures a + b + c == a + (b + c)
  {
  }

  /** A `/` in front of a path survives path escaping. */
  lemma SlashPathText(e: GoString)
    ensures PathText("/" + e) == "/" + Escape(e, Path)
  {
    var p := "/" + e;
    assert p[0] == '/' && p[1..] == e;
  }

  lemma PathTextPart(endpoint: GoString)
    ensures var e := Trim(endpoint, '/');
      PathText(if e != "" then "" + "/" + e else "") == PathPart(endpoint)
  {
    var e := Trim(endpoint, '/');
    if e != "" {
      SlashPathText(e);
      assert "" + "/" + e == "/" + e;
    }
  }

  lemma QueryTextPart(params: Values)
    ensures QueryText(if |params| > 0 then Encode(params) else "") == QueryPart(params)
  {
    if |params| == 0 {
      assert params.Keys == {};
    }
  }

  /** From any origin, the built URL is the printed origin, then the path part, then the query part. */
  lemma ShapeFrom(origin: Url, endpoint: GoString, params: Values)
    requires IsOrigin(origin)
    ensures BuildUrlFrom(origin, endpoint, params)
         == origin.scheme + "://" + origin.host + PathPart(endpoint) + QueryPart(params)
  {
    PathTextPart(endpoint);
    QueryTextPart(params);
  }

  /** `BASE_URL` has no trailing `/`, so trimming leaves it as it is. */
  lemma BaseTrimmed()
    ensures TrimRight(BaseUrl, '/') == BaseUrl
  {
    assert BaseUrl[|BaseUrl| - 1] == 'm';
  }

  /** The parsed origin is a bare origin that prints back as the constant, so parsing it cannot fail. */
  lemma BaseOrigin()
    ensures IsOrigin(BaseParsed)
    ensures BaseParsed.scheme + "://" + BaseParsed.host == BaseUrl
  {
    assert BaseUrl[5] == ':' && BaseUrl[6] == '/' && BaseUrl[7] == '/';
    assert BaseUrl[5..8] == "://";
    SplitThree(BaseUrl, 5, 8);
  }

  /** The scheme and the host `url.Parse` finds in `BASE_URL`. */
  lemma BaseParts()
    ensures BaseParsed.scheme == "https"
    ensures BaseParsed.host == "gamma-api.polymarket.com"
  {
  }

  lemma SplitThree(s: GoString, i: nat, j: nat)
    requires i <= j <= |s|
    ensures s[..i] + s[i..j] + s[j..] == s
  {
  }

  lemma BaseHasNoQueryMark()
    ensures '?' !in BaseUrl
  {
  }

  /** A built URL is `BASE_URL`, then the path part, then the query part. */
  lemma BuildUrlShape(endpoint: GoString, params: Values)
    ensures BuildUrl(endpoint, params) == BaseUrl + PathPart(endpoint) + QueryPart(params)
  {
    BaseOrigin();
    ShapeFrom(BaseParsed, endpoint, params);
  }

  /** An endpoint that is empty or only slashes adds no path segment. */
  lemma BareEndpoint(endpoint: GoString, params: Values)
    requires AllChar(endpoint, '/')
    ensures BuildUrl(endpoint, params) == BaseUrl + QueryPart(params)
    ensures Pairs(params) == [] ==> BuildUrl(endpoint, params) == BaseUrl
  {
    BuildUrlShape(endpoint, params);
    BareFrom(BaseUrl, endpoint, params);
  }

  lemma BareFrom(prefix: GoString, endpoint: GoString, params: Values)
    requires AllChar(endpoint, '/')
    ensures prefix + PathPart(endpoint) + QueryPart(params) == prefix + QueryPart(params)
    ensures Pairs(params) == [] ==> prefix + PathPart(endpoint) + QueryPart(params) == prefix
  {
    assert PathPart(endpoint) == "";
    assert prefix + "" == prefix;
    EncodeEmpty(params);
  }

  /** Characters an endpoint can hold without being escaped: unreserved ones and `/`. */
  predicate PlainPath(s: string) {
    forall i | 0 <= i < |s| :: Unreserved(s[i]) || s[i] == '/'
  }

  lemma PlainPathPart(endpoint: GoString)
    requires endpoint != "" && PlainPath(endpoint)
    requires endpoint[0] != '/' && endpoint[|endpoint| - 1] != '/'
    ensures PathPart(endpoint) == "/" + endpoint
  {
    assert AllChar(endpoint[..0], '/') && AllChar(endpoint[|endpoint|..], '/');
    TrimIsMiddle(endpoint, '/', 0, |endpoint|);
    assert endpoint[0..|endpoint|] == endpoint;
    PlainPathUnescaped(endpoint);
  }

  lemma PlainPathUnescaped(s: GoString)
    requires PlainPath(s)
    ensures Escape(s, Path) == s
  {
    assert forall i | 0 <= i < |s| :: !ShouldEscape(s[i], Path);
  }

  /**
   An endpoint of plain characters whose first and last characters are not `/` is
   appended as it is, after one `/`: interior slashes are kept.
   */
  lemma PlainEndpoint(endpoint: GoString, params: Values)
    requires endpoint != "" && PlainPath(endpoint)
    requires endpoint[0] != '/' && endpoint[|endpoint| - 1] != '/'
    ensures BuildUrl(endpoint, params) == BaseUrl + "/" + endpoint + QueryPart(params)
  {
    PlainPathPart(endpoint);
    BuildUrlShape(endpoint, params);
    Assoc(BaseUrl, "/", endpoint);
  }

  /** Leading and trailing slashes of the endpoint make no difference. */
  lemma SlashesIgnored(endpoint: GoString, i: nat, j: nat, params: Values)
    requires i <= j <= |endpoint|
    requires AllChar(endpoint[..i], '/') && AllChar(endpoint[j..], '/')
    requires i == j || (endpoint[i] != '/' && endpoint[j - 1] != '/')
    ensures BuildUrl(endpoint, params) == BuildUrl(endpoint[i..j], params)
  {
    var m := endpoint[i..j];
    TrimIsMiddle(endpoint, '/', i, j);
    assert AllChar(m[..0], '/') && AllChar(m[|m|..], '/');
    TrimIsMiddle(m, '/', 0, |m|);
    assert m[0..|m|] == m;
  }

  /** In front of the query part, a prefix without `?` keeps every `?` out. */
  lemma QueryMarkFrom(prefix: GoString, params: Values)
    requires '?' !in prefix
    ensures '?' in prefix + QueryPart(params) <==> Pairs(params) != []
  {
    EncodeEmpty(params);
    if Pairs(params) != [] {
      assert (prefix + QueryPart(params))[|prefix|] == '?';
    } else {
      assert prefix + QueryPart(params) == prefix;
    }
  }

  /** The origin with the path part holds no `?`. */
  lemma PrefixHasNoQueryMark(endpoint: GoString)
    ensures '?' !in BaseUrl + PathPart(endpoint)
  {
    BaseHasNoQueryMark();
    var e := Trim(endpoint, '/');
    if e != "" {
      PathEscapeHasNoQueryMark(e);
    }
  }

  /** A `?` appears in the built URL exactly when some parameter carries a value. */
  lemma QueryMarkIffPairs(endpoint: GoString, params: Values)
    ensures '?' in BuildUrl(endpoint, params) <==> Pairs(params) != []
  {
    BuildUrlShape(endpoint, params);
    PrefixHasNoQueryMark(endpoint);
    QueryMarkFrom(BaseUrl + PathPart(endpoint), params);
  }

  /** Cutting at the first `?` separates a prefix without `?` from a query that reads back. */
  lemma CutQueryFrom(prefix: GoString, params: Values)
    requires '?' !in prefix
    requires ByteValues(params)
    ensures Cut(prefix + QueryPart(params), '?').0 == prefix
    ensures ParseQuery(Cut(prefix + QueryPart(params), '?').1) == Some(Pairs(params))
  {
    ParseEncode(params);
    EncodeEmpty(params);
    var q := Encode(params);
    if q == "" {
      assert QueryPart(params) == "";
      assert prefix + "" == prefix;
      CutAbsent(prefix, '?');
    } else {
      assert QueryPart(params) == ['?'] + q;
      Assoc(prefix, ['?'], q);
      CutAt(prefix, '?', q);
    }
  }

  /**
   Splitting a built URL at its first `?` gives the origin with the path, and a query
   that reads back as the parameters' pairs in encoding order.
   */
  lemma QueryReadsBack(endpoint: GoString, params: Values)
    requires ByteValues(params)
    ensures Cut(BuildUrl(endpoint, params), '?').0 == BaseUrl + PathPart(endpoint)
    ensures ParseQuery(Cut(BuildUrl(endpoint, params), '?').1) == Some(Pairs(params))
  {
    BuildUrlShape(endpoint, params);
    PrefixHasNoQueryMark(endpoint);
    CutQueryFrom(BaseUrl + PathPart(endpoint), params);
  }

  /** A parameter's values read back from the built URL in the order they were added. */
  lemma ValuesReadBack(endpoint: GoString, params: Values, key: GoString)
    requires ByteValues(params)
    ensures
      var q := ParseQuery(Cut(BuildUrl(endpoint, params), '?').1);
      q.Some? && ValuesFor(q.value, key) == Get(params, key)
  {
    QueryReadsBack(endpoint, params);
    PairsKeepValues(params, key);
  }

  // ---------------------------------------------------------------------------
  // The documented examples
  // ---------------------------------------------------------------------------

  /** An empty endpoint or a lone `/`, with no parameters, is the origin alone. */
  lemma OriginExamples()
    ensures BuildUrl("", map[]) == BaseUrl
    ensures BuildUrl("/", map[]) == BaseUrl
  {
    PairsEmpty(map[]);
    assert AllChar("", '/') && AllChar("/", '/');
    BareEndpoint("", map[]);
    BareEndpoint("/", map[]);
  }

  lemma NoQuery()
    ensures QueryPart(map[]) == ""
  {
    PairsEmpty(map[]);
    EncodeEmpty(map[]);
  }

  lemma TeamsLiterals()
    ensures PlainPath("teams") && "teams"[0] != '/' && "teams"[4] != '/'
    ensures "/" + "teams" == "/teams"
  {
  }

  /** A plain endpoint with no parameters. */
  lemma TeamsExample()
    ensures BuildUrl("teams", map[]) == BaseUrl + "/teams"
  {
    TeamsLiterals();
    PlainEndpoint("teams", map[]);
    NoQuery();
    Assoc(BaseUrl, "/", "teams");
    assert BaseUrl + "/teams" + "" == BaseUrl + "/teams";
  }

  lemma MarketsLiterals()
    ensures "/markets"[..1] == "/" && "/markets"[1..8] == "markets" && "/markets"[8..] == ""
    ensures PlainPath("markets") && "markets"[0] != '/' && "markets"[6] != '/'
    ensures "/" + "markets" == "/markets"
  {
  }

  /** A leading `/` on the endpoint is dropped. */
  lemma LeadingSlashExample()
    ensures BuildUrl("/markets", map[]) == BaseUrl + "/markets"
  {
    MarketsLiterals();
    assert AllChar("/markets"[..1], '/') && AllChar("/markets"[8..], '/');
    SlashesIgnored("/markets", 1, 8, map[]);
    PlainEndpoint("markets", map[]);
    NoQuery();
    Assoc(BaseUrl, "/", "markets");
    assert BaseUrl + "/markets" + "" == BaseUrl + "/markets";
  }

  lemma EventsPageLiterals()
    ensures PlainPath("events") && "events"[0] != '/' && "events"[5] != '/'
    ensures "/" + "events" == "/events"
    ensures PlainText("limit") && PlainText("10") && PlainText("offset") && PlainText("0")
    ensures "limit" != "offset" && Below("limit", "offset")
    ensures "?" + ("limit" + "=" + "10" + "&" + "offset" + "=" + "0") == "?limit=10&offset=0"
  {
  }

  /** Two parameters with one value each, in ascending order of name. */
  lemma ParamsExample()
    ensures BuildUrl("events", map["limit" := ["10"], "offset" := ["0"]]) == BaseUrl + "/events" + "?limit=10&offset=0"
  {
    EventsPageLiterals();
    PlainEndpoint("events", map["limit" := ["10"], "offset" := ["0"]]);
    EncodePair("limit", "10", "offset", "0");
    Assoc(BaseUrl, "/", "events");
  }

  lemma LeagueLiterals()
    ensures PlainText("league") && PlainText("nfl") && PlainText("nba")
    ensures "?" + ("league" + "=" + "nfl" + "&" + "league" + "=" + "nba") == "?league=nfl&league=nba"
  {
  }

  /** One parameter with two values is written twice, the values in the order given. */
  lemma MultiValueExample()
    ensures BuildUrl("teams", map["league" := ["nfl", "nba"]]) == BaseUrl + "/teams" + "?league=nfl&league=nba"
  {
    TeamsLiterals();
    LeagueLiterals();
    PlainEndpoint("teams", map["league" := ["nfl", "nba"]]);
    EncodeRepeated("league", "nfl", "nba");
    Assoc(BaseUrl, "/", "teams");
  }
}
