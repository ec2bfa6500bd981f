/**
 The public calls of `gamma.go`, each reduced to the request it sends: the endpoint it
 passes to `buildUrl` and the parameters it adds, in the order it adds them. The
 call's URL is `Target` of that request, and the call itself is `genericGet` on that
 URL (`Call`).
 */
module Gamma {
  import opened Wrappers
  import opened Strings
  import opened Query
  import opened UrlBuilder
  import opened Dates
  import opened Escaping
  import Retry
  import HttpClient

  /** `Status`, a string type; `ACTIVE` and `CLOSED` are its two named values. */
  type Status = GoString

  const Active: Status := "ACTIVE"
  const Closed: Status := "CLOSED"

  /** What a call hands to `buildUrl`. */
  datatype Request = Request(endpoint: GoString, params: Values)

  /** The URL a call requests. */
  function Target(r: Request): GoString {
    BuildUrl(r.endpoint, r.params)
  }

  /** `url.Values{}`, and the `nil` that `GetEventByID` passes: both have no entries. */
  const NoParams: Values := map[]

  /**
   The two status checks: `ACTIVE` adds `active=true` and `closed=false`, `CLOSED`
   adds `active=false` and `closed=true`, any other status adds nothing.
   */
  function StatusFlags(v: Values, status: Status): (r: Values)
    ensures status == Active ==>
      Get(r, "active") == Get(v, "active") + ["true"] && Get(r, "closed") == Get(v, "closed") + ["false"]
    ensures status == Closed ==>
      Get(r, "active") == Get(v, "active") + ["false"] && Get(r, "closed") == Get(v, "closed") + ["true"]
    ensures status != Active && status != Closed ==> r == v
    ensures forall k | k != "active" && k != "closed" :: Get(r, k) == Get(v, k)
  {
    var v := if status == Active then Add(Add(v, "active", "true"), "closed", "false") else v;
    if status == Closed then Add(Add(v, "active", "false"), "closed", "true") else v
  }

  /** The layout every date filter is written with. */
  function DateParam(t: Time): GoString {
    Format(t)
  }

  /** `order=id`, the first parameter of most calls. */
  function OrderById(): (r: Values)
    ensures r == map["order" := ["id"]]
  {
    AddFresh(NoParams, "order", "id");
    Add(NoParams, "order", "id")
  }

  /** `order=id` and the page window, with the window already rendered as text. */
  lemma PageParams(l: GoString, o: GoString)
    ensures Add(Add(OrderById(), "limit", l), "offset", o) == map["order" := ["id"], "limit" := [l], "offset" := [o]]
  {
    AddFresh(OrderById(), "limit", l);
    AddFresh(Add(OrderById(), "limit", l), "offset", o);
  }

  /**
   `GetTeams(limit, offset, league, name, abbreviation)`: `order`, `limit` and `offset`,
   then one value per element of each list.
   */
  function Teams(limit: int, offset: int, league: seq<GoString>, name: seq<GoString>, abbreviation: seq<GoString>): (r: Request)
    ensures r == Request("teams", AddAll(AddAll(AddAll(
      map["order" := ["id"], "limit" := [Itoa(limit)], "offset" := [Itoa(offset)]],
      "league", league), "name", name), "abbreviation", abbreviation))
  {
    PageParams(Itoa(limit), Itoa(offset));
    var p := Add(Add(OrderById(), "limit", Itoa(limit)), "offset", Itoa(offset));
    Request("teams", AddAll(AddAll(AddAll(p, "league", league), "name", name), "abbreviation", abbreviation))
  }

  /** Each filter of `GetTeams` is sent under its own name, list filters with every element in order. */
  lemma TeamsFilters(limit: int, offset: int, league: seq<GoString>, name: seq<GoString>, abbreviation: seq<GoString>)
    ensures var r := Teams(limit, offset, league, name, abbreviation);
            && r.endpoint == "teams"
            && Get(r.params, "order") == ["id"]
            && Get(r.params, "limit") == [Itoa(limit)]
            && Get(r.params, "offset") == [Itoa(offset)]
            && Get(r.params, "league") == league
            && Get(r.params, "name") == name
            && Get(r.params, "abbreviation") == abbreviation
  {
    FilterGets(Itoa(limit), Itoa(offset), league, name, abbreviation);
  }

  lemma FilterGets(l: GoString, o: GoString, league: seq<GoString>, name: seq<GoString>, abbreviation: seq<GoString>)
    ensures var p := AddAll(AddAll(AddAll(map["order" := ["id"], "limit" := [l], "offset" := [o]],
                                          "league", league), "name", name), "abbreviation", abbreviation);
            && Get(p, "order") == ["id"]
            && Get(p, "limit") == [l]
            && Get(p, "offset") == [o]
            && Get(p, "league") == league
            && Get(p, "name") == name
            && Get(p, "abbreviation") == abbreviation
  {
    var p0 := map["order" := ["id"], "limit" := [l], "offset" := [o]];
    AddAllThree(p0, "league", league, "name", name, "abbreviation", abbreviation, "order");
    AddAllThree(p0, "league", league, "name", name, "abbreviation", abbreviation, "limit");
    AddAllThree(p0, "league", league, "name", name, "abbreviation", abbreviation, "offset");
    AddAllThree(p0, "league", league, "name", name, "abbreviation", abbreviation, "league");
    AddAllThree(p0, "league", league, "name", name, "abbreviation", abbreviation, "name");
    AddAllThree(p0, "league", league, "name", name, "abbreviation", abbreviation, "abbreviation");
  }

  /** Three list filters under three different names, each read back on its own. */
  lemma AddAllThree(p0: Values, a: GoString, xa: seq<GoString>, b: GoString, xb: seq<GoString>,
                    c: GoString, xc: seq<GoString>, k: GoString)
    requires a != b && b != c && a != c
    ensures Get(AddAll(AddAll(AddAll(p0, a, xa), b, xb), c, xc), k)
         == if k == a then Get(p0, a) + xa
            else if k == b then Get(p0, b) + xb
            else if k == c then Get(p0, c) + xc
            else Get(p0, k)
  {
    var p1 := AddAll(p0, a, xa);
    var p2 := AddAll(p1, b, xb);
    AddAllGet(p0, a, xa, k);
    AddAllGet(p1, b, xb, k);
    AddAllGet(p2, c, xc, k);
  }

  /** `GetSports()`. */
  function Sports(): (r: Request)
    ensures r == Request("sports", map["order" := ["id"]])
  {
    Request("sports", OrderById())
  }

  /** `GetMarketTypes()`. */
  function MarketTypes(): (r: Request)
    ensures r == Request("sports/market-types", map["order" := ["id"]])
  {
    Request("sports/market-types", OrderById())
  }

  /** `GetTags(limit, offset)`. */
  function Tags(limit: int, offset: int): (r: Request)
    ensures r == Request("tags", map["order" := ["id"], "limit" := [Itoa(limit)], "offset" := [Itoa(offset)]])
  {
    PageParams(Itoa(limit), Itoa(offset));
    Request("tags", Add(Add(OrderById(), "limit", Itoa(limit)), "offset", Itoa(offset)))
  }

  /** `GetTagBySlug(slug)`: the slug goes into the path as it is. */
  function TagBySlug(slug: GoString): (r: Request)
    ensures r == Request("tags/slug/" + slug, map["order" := ["id"]])
  {
    Request("tags/slug/" + slug, OrderById())
  }

  /** `GetRelatedTagsByTagId(id)`. */
  function RelatedTagsByTagId(id: int): (r: Request)
    ensures r == Request("tags/" + Itoa(id) + "/related-tags/tags", map["order" := ["id"]])
  {
    Request("tags/" + Itoa(id) + "/related-tags/tags", OrderById())
  }

  /** `GetEventsByTag(tagID, includeRelated)`. */
  function EventsByTag(tagId: int, includeRelated: bool): (r: Request)
    ensures r == Request("events", map["order" := ["id"], "tag_id" := [Itoa(tagId)],
                                       "related_tags" := [if includeRelated then "true" else "false"]])
  {
    var p1 := OrderById();
    AddFresh(p1, "tag_id", Itoa(tagId));
    var p2 := Add(p1, "tag_id", Itoa(tagId));
    AddFresh(p2, "related_tags", FormatBool(includeRelated));
    Request("events", Add(p2, "related_tags", FormatBool(includeRelated)))
  }

  /** `GetEventByID(id)`: the id goes into the path, and no parameters are sent. */
  function EventById(id: GoString): (r: Request)
    ensures r == Request("events/" + id, map[])
  {
    Request("events/" + id, NoParams)
  }

  /** The end-date event filters, with every value already rendered as text. */
  lemma BeforeParams(l: GoString, o: GoString, t: GoString, e: GoString, v: GoString)
    ensures Add(Add(Add(Add(Add(Add(NoParams, "limit", l), "offset", o), "tag_id", t), "order", "volume"),
                    "end_date_max", e), "volume_min", v)
         == map["limit" := [l], "offset" := [o], "tag_id" := [t], "order" := ["volume"],
                "end_date_max" := [e], "volume_min" := [v]]
  {
    AddFresh(NoParams, "limit", l);
    var p1 := Add(NoParams, "limit", l);
    AddFresh(p1, "offset", o);
    var p2 := Add(p1, "offset", o);
    AddFresh(p2, "tag_id", t);
    var p3 := Add(p2, "tag_id", t);
    AddFresh(p3, "order", "volume");
    var p4 := Add(p3, "order", "volume");
    AddFresh(p4, "end_date_max", e);
    var p5 := Add(p4, "end_date_max", e);
    AddFresh(p5, "volume_min", v);
  }

  /** `GetEventsBeforeDate(limit, offset, volumeMin, tagId, endDate, status)`. */
  function EventsBeforeDate(limit: int, offset: int, volumeMin: int, tagId: int, endDate: Time, status: Status): (r: Request)
    ensures r == Request("events", StatusFlags(
      map["limit" := [Itoa(limit)], "offset" := [Itoa(offset)], "tag_id" := [Itoa(tagId)], "order" := ["volume"],
          "end_date_max" := [DateParam(endDate)], "volume_min" := [Itoa(volumeMin)]], status))
  {
    BeforeParams(Itoa(limit), Itoa(offset), Itoa(tagId), DateParam(endDate), Itoa(volumeMin));
    var p := Add(Add(Add(Add(Add(Add(NoParams, "limit", Itoa(limit)), "offset", Itoa(offset)), "tag_id", Itoa(tagId)),
                         "order", "volume"), "end_date_max", DateParam(endDate)), "volume_min", Itoa(volumeMin));
    Request("events", StatusFlags(p, status))
  }

  /** The date-range event filters, with every value already rendered as text. */
  lemma BetweenParams(l: GoString, o: GoString, t: GoString, e: GoString, s: GoString, v: GoString)
    ensures Add(Add(Add(Add(Add(Add(Add(NoParams, "limit", l), "offset", o), "tag_id", t), "order", "volume"),
                        "end_date_max", e), "start_date_min", s), "volume_min", v)
         == map["limit" := [l], "offset" := [o], "tag_id" := [t], "order" := ["volume"],
                "end_date_max" := [e], "start_date_min" := [s], "volume_min" := [v]]
  {
    AddFresh(NoParams, "limit", l);
    var p1 := Add(NoParams, "limit", l);
    AddFresh(p1, "offset", o);
    var p2 := Add(p1, "offset", o);
    AddFresh(p2, "tag_id", t);
    var p3 := Add(p2, "tag_id", t);
    AddFresh(p3, "order", "volume");
    var p4 := Add(p3, "order", "volume");
    AddFresh(p4, "end_date_max", e);
    var p5 := Add(p4, "end_date_max", e);
    AddFresh(p5, "start_date_min", s);
    var p6 := Add(p5, "start_date_min", s);
    AddFresh(p6, "volume_min", v);
  }

  /** `GetEventsBetweenDates(limit, offset, volumeMin, tagId, endDate, startDate, status)`. */
  function EventsBetweenDates(limit: int, offset: int, volumeMin: int, tagId: int,
                              endDate: Time, startDate: Time, status: Status): (r: Request)
    ensures r == Request("events", StatusFlags(
      map["limit" := [Itoa(limit)], "offset" := [Itoa(offset)], "tag_id" := [Itoa(tagId)], "order" := ["volume"],
          "end_date_max" := [DateParam(endDate)], "start_date_min" := [DateParam(startDate)],
          "volume_min" := [Itoa(volumeMin)]], status))
  {
    BetweenParams(Itoa(limit), Itoa(offset), Itoa(tagId), DateParam(endDate), DateParam(startDate), Itoa(volumeMin));
    var p := Add(Add(Add(Add(Add(Add(Add(NoParams, "limit", Itoa(limit)), "offset", Itoa(offset)), "tag_id", Itoa(tagId)),
                             "order", "volume"), "end_date_max", DateParam(endDate)), "start_date_min", DateParam(startDate)),
                 "volume_min", Itoa(volumeMin));
    Request("events", StatusFlags(p, status))
  }

  /** The market date filters, with every value already rendered as text. */
  lemma MarketParams(l: GoString, o: GoString, s: GoString, e: GoString)
    ensures Add(Add(Add(Add(Add(NoParams, "order", "id"), "limit", l), "offset", o), "start_date_min", s), "end_date_max", e)
         == map["order" := ["id"], "limit" := [l], "offset" := [o], "start_date_min" := [s], "end_date_max" := [e]]
  {
    AddFresh(NoParams, "order", "id");
    var p1 := Add(NoParams, "order", "id");
    AddFresh(p1, "limit", l);
    var p2 := Add(p1, "limit", l);
    AddFresh(p2, "offset", o);
    var p3 := Add(p2, "offset", o);
    AddFresh(p3, "start_date_min", s);
    var p4 := Add(p3, "start_date_min", s);
    AddFresh(p4, "end_date_max", e);
  }

  /** `GetMarketsBetweenDates(limit, offset, startDate, endDate)`. */
  function MarketsBetweenDates(limit: int, offset: int, startDate: Time, endDate: Time): (r: Request)
    ensures r == Request("markets", map["order" := ["id"], "limit" := [Itoa(limit)], "offset" := [Itoa(offset)],
                                        "start_date_min" := [DateParam(startDate)], "end_date_max" := [DateParam(endDate)]])
  {
    MarketParams(Itoa(limit), Itoa(offset), DateParam(startDate), DateParam(endDate));
    Request("markets", Add(Add(Add(Add(Add(NoParams, "order", "id"), "limit", Itoa(limit)), "offset", Itoa(offset)),
                               "start_date_min", DateParam(startDate)), "end_date_max", DateParam(endDate)))
  }

  /** `GetMarketByID(marketID)`: the id goes into the query, not the path. */
  function MarketById(marketId: int): (r: Request)
    ensures r == Request("markets", map["order" := ["id"], "id" := [Itoa(marketId)]])
  {
    var p1 := OrderById();
    AddFresh(p1, "id", Itoa(marketId));
    Request("markets", Add(p1, "id", Itoa(marketId)))
  }

  // ---------------------------------------------------------------------------
  // What each call sends
  // ---------------------------------------------------------------------------

  /** The flags an event status adds, as the values of `active` and `closed`. */
  function ActiveValues(status: Status): seq<GoString> {
    if status == Active then ["true"] else if status == Closed then ["false"] else []
  }

  function ClosedValues(status: Status): seq<GoString> {
    if status == Active then ["false"] else if status == Closed then ["true"] else []
  }

  /** The status flags added to parameters that hold neither flag yet. */
  lemma FlagsOver(v: Values, status: Status)
    requires "active" !in v && "closed" !in v
    ensures var r := StatusFlags(v, status);
            && Get(r, "active") == ActiveValues(status)
            && Get(r, "closed") == ClosedValues(status)
            && forall k | k != "active" && k != "closed" :: Get(r, k) == Get(v, k)
  {
  }

  /**
   `GetEventsBeforeDate` sends the status flags only for `ACTIVE` and `CLOSED`, each
   flag once.
   */
  lemma EventsBeforeStatus(limit: int, offset: int, volumeMin: int, tagId: int, endDate: Time, status: Status)
    ensures var r := EventsBeforeDate(limit, offset, volumeMin, tagId, endDate, status);
            && Get(r.params, "active") == ActiveValues(status)
            && Get(r.params, "closed") == ClosedValues(status)
  {
    BeforeFlags(Itoa(limit), Itoa(offset), Itoa(tagId), DateParam(endDate), Itoa(volumeMin), status);
  }

  lemma BeforeFlags(l: GoString, o: GoString, t: GoString, e: GoString, v: GoString, status: Status)
    ensures var r := StatusFlags(map["limit" := [l], "offset" := [o], "tag_id" := [t], "order" := ["volume"],
                                     "end_date_max" := [e], "volume_min" := [v]], status);
            && Get(r, "active") == ActiveValues(status)
            && Get(r, "closed") == ClosedValues(status)
  {
    FlagsOver(map["limit" := [l], "offset" := [o], "tag_id" := [t], "order" := ["volume"],
                  "end_date_max" := [e], "volume_min" := [v]], status);
  }

  /** `GetEventsBetweenDates` sends the status flags the same way. */
  lemma EventsBetweenStatus(limit: int, offset: int, volumeMin: int, tagId: int, endDate: Time, startDate: Time, status: Status)
    ensures var r := EventsBetweenDates(limit, offset, volumeMin, tagId, endDate, startDate, status);
            && Get(r.params, "active") == ActiveValues(status)
            && Get(r.params, "closed") == ClosedValues(status)
  {
    BetweenFlags(Itoa(limit), Itoa(offset), Itoa(tagId), DateParam(endDate), DateParam(startDate), Itoa(volumeMin), status);
  }

  lemma BetweenFlags(l: GoString, o: GoString, t: GoString, e: GoString, s: GoString, v: GoString, status: Status)
    ensures var r := StatusFlags(map["limit" := [l], "offset" := [o], "tag_id" := [t], "order" := ["volume"],
                                     "end_date_max" := [e], "start_date_min" := [s], "volume_min" := [v]], status);
            && Get(r, "active") == ActiveValues(status)
            && Get(r, "closed") == ClosedValues(status)
  {
    FlagsOver(map["limit" := [l], "offset" := [o], "tag_id" := [t], "order" := ["volume"],
                  "end_date_max" := [e], "start_date_min" := [s], "volume_min" := [v]], status);
  }

  // ---------------------------------------------------------------------------
  // The URLs
  // ---------------------------------------------------------------------------

  /** `GetEventByID` sends no query at all, whatever the id holds: a `?` in it is part of the path. */
  lemma EventByIdUrl(id: GoString)
    ensures '?' !in Target(EventById(id))
    ensures Target(EventById(id)) == BaseUrl + PathPart("events/" + id)
  {
    BuildUrlShape("events/" + id, map[]);
    QueryMarkIffPairs("events/" + id, map[]);
    PairsEmpty(map[]);
    assert QueryPart(map[]) == "";
  }

  lemma PlainJoin(a: GoString, b: GoString)
    requires PlainPath(a) && PlainPath(b)
    ensures PlainPath(a + b)
  {
    forall i | 0 <= i < |a + b|
      ensures Unreserved((a + b)[i]) || (a + b)[i] == '/'
    {
      if i >= |a| {
        assert (a + b)[i] == b[i - |a|];
      }
    }
  }

  lemma EventsPrefix()
    ensures PlainPath("events/") && |"events/"| == 7 && "events/"[0] == 'e'
  {
  }

  /** A plain id is appended to `BASE_URL/events/` as it is. */
  lemma PlainEventIdUrl(id: GoString)
    requires id != "" && PlainPath(id) && id[|id| - 1] != '/'
    ensures Target(EventById(id)) == BaseUrl + "/events/" + id
  {
    var e := "events/" + id;
    EventsPrefix();
    PlainJoin("events/", id);
    assert e[0] == 'e' && e[|e| - 1] == id[|id| - 1];
    calc {
      Target(EventById(id));
    == { EventByIdUrl(id); }
      BaseUrl + PathPart(e);
    == { PlainPathPart(e); }
      BaseUrl + ("/" + e);
    == { Assoc("/", "events/", id); }
      BaseUrl + ("/events/" + id);
    == { Assoc(BaseUrl, "/events/", id); }
      BaseUrl + "/events/" + id;
    }
  }

  /** `order=id` alone is written as it is. */
  lemma OrderIdQuery()
    ensures QueryPart(map["order" := ["id"]]) == "?order=id"
  {
    OrderIdLiterals();
    EncodeSingle("order", "id");
  }

  lemma OrderIdLiterals()
    ensures PlainText("order") && PlainText("id")
    ensures "?" + ("order" + "=" + "id") == "?order=id"
  {
  }

  /** `GetSports` requests `BASE_URL/sports?order=id`. */
  lemma SportsUrl()
    ensures Target(Sports()) == BaseUrl + "/sports" + "?order=id"
  {
    var v := map["order" := ["id"]];
    SportsPlain();
    PlainEndpoint("sports", v);
    OrderIdQuery();
    SportsPath();
    Assoc(BaseUrl, "/", "sports");
  }

  lemma SportsPath()
    ensures "/" + "sports" == "/sports"
  {
  }

  lemma SportsPlain()
    ensures PlainPath("sports") && "sports"[0] != '/' && "sports"[5] != '/'
  {
  }

  lemma PageLiterals()
    ensures Below("limit", "offset") && "limit" != "offset"
    ensures PlainText("limit") && PlainText("offset")
    ensures "?" + "limit" + "=" == "?limit=" && "&" + "offset" + "=" == "&offset="
  {
  }

  lemma PairText(k1: GoString, x1: GoString, k2: GoString, x2: GoString)
    ensures "?" + (k1 + "=" + x1 + "&" + k2 + "=" + x2) == ("?" + k1 + "=") + x1 + ("&" + k2 + "=") + x2
  {
  }

  /** A page window alone is written `limit=…&offset=…`: `limit` sorts before `offset`. */
  lemma PageQuery(limit: int, offset: int)
    ensures QueryPart(map["limit" := [Itoa(limit)], "offset" := [Itoa(offset)]])
         == "?limit=" + Itoa(limit) + "&offset=" + Itoa(offset)
  {
    PageLiterals();
    PlainDigits(limit);
    PlainDigits(offset);
    EncodePair("limit", Itoa(limit), "offset", Itoa(offset));
    PairText("limit", Itoa(limit), "offset", Itoa(offset));
  }

  /** A negative limit is sent with its sign, unescaped. */
  lemma NegativeLimitQuery(offset: int)
    ensures QueryPart(map["limit" := [Itoa(-5)], "offset" := [Itoa(offset)]]) == "?limit=-5&offset=" + Itoa(offset)
  {
    PageQuery(-5, offset);
    MinusFive();
  }

  lemma MinusFive()
    ensures Itoa(-5) == "-5"
    ensures "?limit=" + "-5" + "&offset=" == "?limit=-5&offset="
  {
    assert NatDigits(5) == "5";
  }

  /** The page window of the first `GetTeams` example: `limit=25&offset=50`. */
  lemma PageExample()
    ensures QueryPart(map["limit" := [Itoa(25)], "offset" := [Itoa(50)]]) == "?limit=25&offset=50"
  {
    PageQuery(25, 50);
    PageExampleDigits();
  }

  lemma PageExampleDigits()
    ensures Itoa(25) == "25" && Itoa(50) == "50"
    ensures "?limit=" + "25" + "&offset=" + "50" == "?limit=25&offset=50"
  {
    assert NatDigits(2) == "2" && NatDigits(5) == "5";
  }

  /** Decimal text is left as it is by query escaping. */
  lemma PlainDigits(i: int)
    ensures PlainText(Itoa(i))
  {
    var r := Itoa(i);
    forall j | 0 <= j < |r|
      ensures Unreserved(r[j])
    {
      if j > 0 || i >= 0 {
        if i < 0 {
          assert r[j] == r[1..][j - 1];
        }
        assert IsDigit(r[j]);
      }
    }
  }

  /** The two date filters of `GetMarketsBetweenDates` read back from its URL as formatted. */
  lemma MarketDatesReadBack(limit: int, offset: int, startDate: Time, endDate: Time)
    ensures var q := ParseQuery(Cut(Target(MarketsBetweenDates(limit, offset, startDate, endDate)), '?').1);
            && q.Some?
            && ValuesFor(q.value, "start_date_min") == [Format(startDate)]
            && ValuesFor(q.value, "end_date_max") == [Format(endDate)]
  {
    var r := MarketsBetweenDates(limit, offset, startDate, endDate);
    ItoaBytes(limit);
    ItoaBytes(offset);
    FormatBytes(startDate);
    FormatBytes(endDate);
    MarketBytes(Itoa(limit), Itoa(offset), Format(startDate), Format(endDate));
    ValuesReadBack(r.endpoint, r.params, "start_date_min");
    ValuesReadBack(r.endpoint, r.params, "end_date_max");
  }

  /** The date example: midnight of 15 October 2025 to the last second of that year. */
  lemma MarketDatesExample(limit: int, offset: int)
    ensures var q := ParseQuery(Cut(Target(MarketsBetweenDates(limit, offset, Time(2025, 10, 15, 0, 0, 0),
                                                               Time(2025, 12, 31, 23, 59, 59))), '?').1);
            && q.Some?
            && ValuesFor(q.value, "start_date_min") == ["2025-10-15T00:00:00Z"]
            && ValuesFor(q.value, "end_date_max") == ["2025-12-31T23:59:59Z"]
  {
    MarketDatesReadBack(limit, offset, Time(2025, 10, 15, 0, 0, 0), Time(2025, 12, 31, 23, 59, 59));
    FormatExampleStart();
    FormatExampleEnd();
  }

  lemma MarketBytes(l: GoString, o: GoString, s: GoString, e: GoString)
    requires IsBytes(l) && IsBytes(o) && IsBytes(s) && IsBytes(e)
    ensures ByteValues(map["order" := ["id"], "limit" := [l], "offset" := [o], "start_date_min" := [s], "end_date_max" := [e]])
  {
    var v0: Values := map[];
    ByteInsert(v0, "order", "id");
    var v1 := v0["order" := ["id"]];
    ByteInsert(v1, "limit", l);
    var v2 := v1["limit" := [l]];
    ByteInsert(v2, "offset", o);
    var v3 := v2["offset" := [o]];
    ByteInsert(v3, "start_date_min", s);
    var v4 := v3["start_date_min" := [s]];
    ByteInsert(v4, "end_date_max", e);
  }

  lemma ByteInsert(v: Values, k: GoString, x: GoString)
    requires ByteValues(v) && IsBytes(k) && IsBytes(x)
    ensures ByteValues(v[k := [x]])
  {
  }

  /**
   What attempt `i` at `url` yields when it is sent through client `c`: the server, the
   network and `json.Unmarshal`, given as a parameter.
   */
  function Attempts<T>(server: (HttpClient.Client, GoString, nat) -> Retry.Attempt<T>,
                       c: HttpClient.Client, url: GoString): (s: seq<Retry.Attempt<T>>)
    ensures |s| == Retry.MaxRetries
    ensures forall i | 0 <= i < Retry.MaxRetries :: s[i] == server(c, url, i)
  {
    [server(c, url, 0), server(c, url, 1), server(c, url, 2)]
  }

  /** What the clock reads before each attempt, in nanoseconds. */
  function Clocks(clock: nat -> int): (s: seq<int>)
    ensures |s| == Retry.MaxRetries
    ensures forall i | 0 <= i < Retry.MaxRetries :: s[i] == clock(i)
  {
    [clock(0), clock(1), clock(2)]
  }

  /**
   The reply of `genericGet` as written, read from the attempts alone: it succeeds
   exactly when the first attempt that does not continue is a 2xx response that
   decodes. The value is what the attempts made wrote into the one `result`, starting
   from `zero`: on success, the stopping body decoded over what the earlier attempts
   left. A failure's error is the cause of the last attempt made followed by
   `maxRetries`, whatever number of attempts was made.
   */
  ghost predicate AsWrittenReply<T>(outcomes: seq<Retry.Attempt<T>>, zero: T, reply: Retry.Reply<T>)
    requires |outcomes| == Retry.MaxRetries
  {
    var k := Retry.FirstStop(outcomes, 0);
    var made := if k < Retry.MaxRetries then k + 1 else Retry.MaxRetries;
    && (reply.err.None? <==> k < Retry.MaxRetries && Retry.Succeeds(outcomes[k]))
    && reply.value == Retry.Held(outcomes, zero, 0, made)
    && (reply.err.None? ==> reply.value == outcomes[k].decode.into(Retry.Held(outcomes, zero, 0, k)))
    && (reply.err.Some? ==> reply.err == Some(Retry.Cause(outcomes[made - 1]) + Retry.AttemptsSuffix(Retry.MaxRetries)))
  }

  /**
   The reply of the corrected `genericGet`: the same success condition, but a success
   hands back the stopping body decoded into `zero` alone, and a failure hands back
   `zero` and names the number of attempts actually made.
   */
  ghost predicate IntendedReply<T>(outcomes: seq<Retry.Attempt<T>>, zero: T, reply: Retry.Reply<T>)
    requires |outcomes| == Retry.MaxRetries
  {
    var k := Retry.FirstStop(outcomes, 0);
    var made := if k < Retry.MaxRetries then k + 1 else Retry.MaxRetries;
    && (reply.err.None? <==> k < Retry.MaxRetries && Retry.Succeeds(outcomes[k]))
    && (reply.err.None? ==> reply.value == outcomes[k].decode.into(zero))
    && (reply.err.Some? ==> reply == Retry.Reply(zero, Some(Retry.Cause(outcomes[made - 1]) + Retry.AttemptsSuffix(made))))
  }

  /**
   `genericGet[T](url)`: it takes the shared client through `getHTTPClient`, installing
   the default one when there is none, and makes its attempts at `url` through that
   client. A URL `buildUrl` makes always parses, so creating the request never fails.
   */
  function GetAt<T>(h: HttpClient.Holder, url: GoString, zero: T,
                    server: (HttpClient.Client, GoString, nat) -> Retry.Attempt<T>,
                    clock: nat -> int): (out: (HttpClient.Holder, Retry.Reply<T>))
    ensures out.0 == HttpClient.GetClient(h).0
    ensures AsWrittenReply(Attempts(server, HttpClient.GetClient(h).1, url), zero, out.1)
  {
    var (h', c) := HttpClient.GetClient(h);
    var outcomes := Attempts(server, c, url);
    Retry.GenericGetAsWrittenMeaning(zero, outcomes, Clocks(clock));
    (h', Retry.GenericGetAsWritten(zero, None, outcomes, Clocks(clock)))
  }

  /**
   The corrected `genericGet` (the findings of the README): every attempt decodes into
   the zero value, a failure hands it back, and the error names the number of attempts
   actually made.
   */
  function GetAtIntended<T>(h: HttpClient.Holder, url: GoString, zero: T,
                            server: (HttpClient.Client, GoString, nat) -> Retry.Attempt<T>,
                            clock: nat -> int): (out: (HttpClient.Holder, Retry.Reply<T>))
    ensures out.0 == HttpClient.GetClient(h).0
    ensures IntendedReply(Attempts(server, HttpClient.GetClient(h).1, url), zero, out.1)
  {
    var (h', c) := HttpClient.GetClient(h);
    var outcomes := Attempts(server, c, url);
    Retry.GenericGetMeaning(zero, outcomes, Clocks(clock));
    (h', Retry.GenericGet(zero, None, outcomes, Clocks(clock)))
  }

  /** Every call ends with `return genericGet[T](reqUrl)` on its request's URL. */
  function Call<T>(h: HttpClient.Holder, r: Request, zero: T,
                   server: (HttpClient.Client, GoString, nat) -> Retry.Attempt<T>,
                   clock: nat -> int): (out: (HttpClient.Holder, Retry.Reply<T>))
    ensures out.0 == HttpClient.GetClient(h).0
    ensures AsWrittenReply(Attempts(server, HttpClient.GetClient(h).1, Target(r)), zero, out.1)
  {
    GetAt(h, Target(r), zero, server, clock)
  }

  /** A call with the corrected `genericGet`. */
  function CallIntended<T>(h: HttpClient.Holder, r: Request, zero: T,
                           server: (HttpClient.Client, GoString, nat) -> Retry.Attempt<T>,
                           clock: nat -> int): (out: (HttpClient.Holder, Retry.Reply<T>))
    ensures out.0 == HttpClient.GetClient(h).0
    ensures IntendedReply(Attempts(server, HttpClient.GetClient(h).1, Target(r)), zero, out.1)
  {
    GetAtIntended(h, Target(r), zero, server, clock)
  }

  /**
   Once a custom client is installed, every call goes through it and leaves the shared
   state alone.
   */
  lemma CallsUseInstalledClient<T>(h: HttpClient.Holder, r: Request, zero: T,
                                   server: (HttpClient.Client, GoString, nat) -> Retry.Attempt<T>,
                                   clock: nat -> int, timeout: int, transport: HttpClient.TransportPtr)
    requires !h.once
    ensures var h1 := HttpClient.InitCustom(h, timeout, transport);
            var out := Call(h1, r, zero, server, clock);
            && out.0 == h1
            && Attempts(server, HttpClient.GetClient(h1).1, Target(r))
               == Attempts(server, HttpClient.Client(timeout, Some(transport)), Target(r))
  {
  }
}
