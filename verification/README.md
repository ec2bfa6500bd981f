# gammago request core, in Dafny

A model of the request path of `gammago`, a Go client for the Polymarket Gamma API.
It takes a typed call such as `GetTeams` or `GetEventsBeforeDate` and follows it down to the
exact URL string that is requested. It then models the bounded retry loop that fetches the URL
and the lazily created shared HTTP client.

Modules, one per concern:

- `Wrappers`: `Option` and a helper for readers that can fail.
- `Strings`: Go strings as sequences of byte-valued characters.
  - `strings.Trim`, `TrimLeft` and `TrimRight` with a one-byte cutset.
  - `strconv.Itoa` and `strconv.FormatBool`.
  - Byte-wise ordering (the order `slices.Sort` gives).
  - `strings.Cut`.
- `Escaping`: the percent-escaping of `net/url` in query-component mode and in path mode, with its inverse.
- `Query`: `url.Values` as a map from name to the list of its values.
  - `Add`.
  - `Encode`: sorted names, one `name=value` per value, joined by `&`.
  - A reader for the queries `Encode` writes, used to read a URL's parameters back.
- `UrlBuilder`: `BASE_URL` and `buildUrl`.
  - `url.Parse` applied to the fixed origin.
  - Endpoint trimming.
  - `URL.String` for the URLs the builder produces.
- `Dates`: `Time.Format("2006-01-02T15:04:05Z")` over wall-clock fields.
- `Retry`: `shouldRetry`, the backoff arithmetic and the attempt loop of `genericGet`, together with its final error.
- `Gamma`: each public call of `gamma.go`.
  - The request it builds: the endpoint and the parameters added, in order.
  - The URL it requests.
  - The `genericGet` it ends with, as written, with the shared client taken through `getHTTPClient`; beside it, the call with the corrected `genericGet` (see "## Findings").
- `HttpClient`: `InitCustomHttpClient` and `getHTTPClient` as a sequential state machine, with a `once` flag and an optional client. A client's transport is either unset (the default transport) or the `*http.Transport` pointer it was given, `nil` included.

What each attempt of `genericGet` yields is an input to the model. So is what the clock reads
before each attempt: transport errors, read errors, status, body and the outcome of JSON decoding
are all given as `Attempt` values. Sleeps are returned as a list of durations in nanoseconds.

## Model

| member | source | states |
|---|---|---|
| `Query.AddGet` | gamma.go:16-19 | `Values.Add` appends the value to its name's list and records the name; every other name's list is unchanged |
| `Query.AddFresh` | gamma.go:16-17 | adding to a name that is not present yet gives a one-element list |
| `Query.AddAll` | gamma.go:21-29 | a `for … range` of `Add` calls appends the whole slice, in order; an empty or nil slice adds nothing, not even the name |
| `Query.AddAllGet` | gamma.go:21-29 | after such a loop, the name's list is its old list followed by the slice; all other names are untouched |
| `Query.SortedKeys` | pkg/util.go:116 | `Encode` visits every name exactly once, in strictly ascending byte order |
| `Query.SortedKeysUnique` | pkg/util.go:116 | any strictly ascending list of exactly the map's names is the order `Encode` uses |
| `Query.PairsKeepValues` | pkg/util.go:116 | in the encoded pairs, a name with n values appears n times, carrying its values in insertion order |
| `Query.PairsAscending` | pkg/util.go:116 | the encoded pairs' names never decrease, and each one is a name of the map |
| `Query.PairsEmpty` | pkg/util.go:115-117 | there are no pairs exactly when every name's list is empty |
| `Query.EncodeEmpty` | pkg/util.go:115-117 | the encoded query is empty exactly when there are no pairs |
| `Query.ParseEncode` | pkg/util.go:116 | for byte strings, reading the encoded query back gives exactly the pairs, in encoding order |
| `Query.EncodeSingle` | pkg/util.go:116 | one name with one unreserved value is written `name=value` |
| `Query.EncodePair` | pkg/util.go:116 | two names with one value each are written in ascending order of name, joined by `&` |
| `Query.EncodeRepeated` | pkg/util.go:116 | one name with two values is written twice, with the values in the order they were added |
| `Escaping.Escape` | pkg/util.go:116-119 | escaped text is made only of unreserved characters, `%` and the mode's kept characters; text that needs no escaping is unchanged |
| `Escaping.QueryEscapeHasNoSeparator` | pkg/util.go:116 | an escaped name or value never holds `&`, `=`, `?` or `#` |
| `Escaping.PathEscapeHasNoQueryMark` | pkg/util.go:119 | an escaped path never holds `?` or `#`, so a path can never start a query |
| `Escaping.UnescapeEscape` | pkg/util.go:116 | unescaping recovers every byte string exactly, in both modes |
| `Strings.Trim` | pkg/util.go:107 | the trimmed endpoint neither starts nor ends with `/`; it is empty exactly when the endpoint is all slashes |
| `Strings.TrimIsMiddle` | pkg/util.go:107 | whatever the split into a run of `/`, a middle and another run of `/`, a middle with no `/` at either end is the trimmed endpoint |
| `Strings.TrimLeft` | pkg/util.go:107 | only a run of leading cutset bytes is removed, and the result does not start with one |
| `Strings.TrimRight` | pkg/util.go:99 | only a run of trailing cutset bytes is removed, and the result does not end with one |
| `Strings.Itoa` | gamma.go:18-19 | canonical decimal: a leading `-` exactly for negative numbers, then digits with no leading zero, and a lone `0` exactly for zero |
| `Strings.ItoaWithout` | gamma.go:18-19 | decimal text holds only digits and `-`, so no other separator occurs in it |
| `Strings.AtoiItoa` | gamma.go:18-19 | the decimal text reads back as the same integer, so distinct limits and offsets give distinct text |
| `Strings.FormatBool` | gamma.go:91 | `true` or `false`, and `true` exactly for true |
| `UrlBuilder.BaseParts` | gamma.go:12 | `url.Parse` finds scheme `https` and host `gamma-api.polymarket.com` in `BASE_URL` |
| `UrlBuilder.BaseTrimmed` | pkg/util.go:99 | `BASE_URL` has no trailing `/`, so the base is left as it is |
| `UrlBuilder.BaseOrigin` | pkg/util.go:99-104 | the parsed base has no path and no query, and prints back as `BASE_URL`, so the parse error branch cannot be taken |
| `UrlBuilder.ShapeFrom` | pkg/util.go:101-119 | from any bare origin, the URL is the printed origin, then the path part, then the query part |
| `UrlBuilder.BuildUrlShape` | pkg/util.go:98-120 | every built URL is `BASE_URL`, the path part and the query part; `buildUrl` accepts every endpoint |
| `UrlBuilder.BareEndpoint` | pkg/util.go:107-112 | an empty or all-slash endpoint adds no path; with no parameters the URL is `BASE_URL` itself |
| `UrlBuilder.PlainPathPart` | pkg/util.go:107-111 | an unreserved endpoint with no `/` at either end becomes `/` followed by the endpoint |
| `UrlBuilder.PlainEndpoint` | pkg/util.go:107-112 | such an endpoint is appended after one `/`, interior slashes kept, then the query part |
| `UrlBuilder.SlashesIgnored` | pkg/util.go:107 | leading and trailing slashes on the endpoint do not change the URL |
| `UrlBuilder.QueryMarkIffPairs` | pkg/util.go:115-117 | the URL holds a `?` exactly when some parameter carries a value; nil and empty maps give none |
| `UrlBuilder.QueryReadsBack` | pkg/util.go:115-119 | splitting the URL at its first `?` gives the origin with the path, and a query that reads back as the parameters' pairs |
| `UrlBuilder.ValuesReadBack` | pkg/util.go:116 | each parameter's values read back from the URL in the order they were added |
| `UrlBuilder.OriginExamples` | pkg/util_test.go:76-87 | `""` and `"/"` with nil parameters give `https://gamma-api.polymarket.com` |
| `UrlBuilder.TeamsExample` | pkg/util_test.go:46-51 | `teams` with nil parameters gives `BASE_URL/teams` |
| `UrlBuilder.LeadingSlashExample` | pkg/util_test.go:52-57 | `/markets` gives `BASE_URL/markets` |
| `UrlBuilder.ParamsExample` | pkg/util_test.go:88-93 | `events` with `limit=10`, `offset=0` gives `BASE_URL/events?limit=10&offset=0` |
| `UrlBuilder.MultiValueExample` | pkg/util_test.go:94-99 | `teams` with `league` = `nfl`, `nba` gives `BASE_URL/teams?league=nfl&league=nba` |
| `Dates.AppendInt` | gamma.go:117 | the field's magnitude is written in decimal and reads back as that magnitude, after a `-` exactly when the field is negative; its length is the sign plus the larger of the width and the magnitude's digit count |
| `Dates.AppendIntWidth` | gamma.go:117 | a field below `10^width` takes exactly `width` characters |
| `Dates.Format` | gamma.go:117 | the stamp ends in a literal `Z` and starts with `-` exactly for negative years |
| `Dates.ParseFormat` | gamma.go:173-174 | for a valid time in the years 0 to 9999, the stamp is 20 characters, `YYYY-MM-DDTHH:MM:SSZ`, and reads back as the same wall-clock fields with no time-zone conversion |
| `Dates.FormatInjective` | gamma.go:149-150 | two different valid times in the years 0 to 9999 never share a stamp |
| `Dates.FormatExampleStart` | gamma_test.go:144-146 | 15 October 2025 at midnight is `2025-10-15T00:00:00Z` |
| `Dates.FormatExampleEnd` | gamma_test.go:145-147 | the last second of 2025 is `2025-12-31T23:59:59Z` |
| `Retry.ShouldRetry` | pkg/util.go:82-94 | a retry always leaves an attempt to run and is never for a 2xx status |
| `Retry.ShouldRetryIff` | pkg/util.go:82-94 | retried exactly when the status is 429 or 5xx and the attempt is not the last; never from attempt 2 on |
| `Retry.ShouldRetryTable` | pkg/util_test.go:17-32 | 429, 500, 502, 503 and 504 are retried on a first attempt; 400, 401, 403, 404 and 422 are not |
| `Retry.GoRem` | pkg/util.go:33 | Go's `%`: truncated division, so the remainder has the sign of the clock reading |
| `Retry.Jitter` | pkg/util.go:33 | the jitter is a whole number of milliseconds, under 100 ms, and never negative for a clock after 1970 |
| `Retry.Backoff` | pkg/util.go:30-35 | the sleep before attempt k is at least `800ms * 2^k` and less than 100 ms above it, for a clock after 1970 |
| `Retry.BackoffSchedule` | pkg/util.go:15-18 | the second attempt waits 1.6 s and the third 3.2 s, each plus under 100 ms |
| `Retry.RunFrom` | pkg/util.go:24-73 | the loop makes between one and three attempts, runs out only after three, and returns only on a 2xx response that decodes; the value it holds is `result` after every 2xx attempt made has decoded into it in turn (`Retry.Held`) |
| `Retry.FirstStop` | pkg/util.go:42-72 | an independent reading: the first attempt that does not lead on to another |
| `Retry.RunStops` | pkg/util.go:42-72 | the loop stops right after that attempt, and returns exactly when that attempt succeeded; transport, read and decode failures go on |
| `Retry.RunSleeps` | pkg/util.go:29-35 | no sleep before the first attempt; before each later attempt k it sleeps `Backoff(k, clock)`, in order |
| `Retry.LastErrIsLastCause` | pkg/util.go:43-69 | when the loop does not return, its error is the cause recorded by the last attempt made |
| `Retry.RunAllStops` | pkg/util.go:29-73 | the whole loop from the start: attempts made, how it ended, sleeps taken and the last error |
| `Retry.StatusMessage` | pkg/util.go:59 | a status error starts with `status code: `; `Retry.StatusMessageReadsBack` states the rest |
| `Retry.StatusMessageReadsBack` | pkg/util.go:59 | a status error holds the status and the body: after the prefix, the text before the first `,` reads back as the status, and the text after `, ` is the body |
| `Retry.GenericGetAsWritten` | pkg/util.go:23-80 | as written: a request error comes back at once; otherwise the call fails exactly when the loop does not return, with the last error and the suffix for three attempts |
| `Retry.GenericGetAsWrittenMeaning` | pkg/util.go:24-79 | as written, without a request error: the call succeeds exactly when the first stopping attempt is a 2xx response that decodes; the value handed back, on success or failure, is the one `result` holds after every 2xx body so far decoded into it, so on success it is the last body decoded into what earlier attempts left; a failure carries the last cause and the suffix for three attempts |
| `Retry.GenericGet` | pkg/util.go:23-80 | corrected: a success hands back the last attempt's body decoded into the zero value, a failed call hands back the zero value, and its suffix names the number of attempts actually made |
| `Retry.GenericGetMeaning` | pkg/util.go:42-79 | the call succeeds exactly when the first stopping attempt is a 2xx response that decodes, and then hands back that body decoded into the zero value; otherwise the error is the last cause plus the attempt count |
| `Retry.AgreeOnSuccess` | pkg/util.go:72 | whenever the call succeeds and the attempts before the stopping one left `result` at the zero value, the two readings hand back the same reply |
| `Retry.GiveUpAtOnce` | pkg/util.go:58-64 | a status that is neither 2xx nor retryable ends the call after one attempt, with no sleep |
| `Retry.AlwaysUnavailable` | pkg/util.go:29-79 | a server that always answers 503 is asked three times, with two sleeps, and the error is its status message |
| `Retry.AttemptsSuffixInjective` | pkg/util.go:79 | different attempt counts give different error suffixes |
| `Retry.OneAttemptReportedAsThree` | pkg/util.go:79 | a 404 on the first attempt ends after one attempt, yet the error says three attempts |
| `Retry.PartialResultLeaks` | pkg/util.go:67-79 | a 2xx body `[1,"x"]` partly decoded into a `[]int`, followed by a 404, fails the call, yet `[1, 0]` is handed back instead of the zero value |
| `Retry.StaleFieldLeaks` | pkg/util.go:24-72 | a tag body `{"id":"7","label":5}` that fails to decode after writing `ID`, followed by a good body `{"slug":"s"}`, succeeds with `ID "7"` and `Slug "s"` as written, while the corrected call hands back only `Slug "s"` |
| `Gamma.StatusFlags` | gamma.go:120-128 | `ACTIVE` appends `active=true` and `closed=false`, `CLOSED` the reverse, any other status nothing; other names are untouched |
| `Gamma.FlagsOver` | gamma.go:153-161 | on parameters without the flags, each flag is sent at most once, with the value its status calls for |
| `Gamma.OrderById` | gamma.go:38-39 | `order=id` alone |
| `Gamma.Teams` | gamma.go:15-34 | `teams`, with `order`, `limit` and `offset` first and then each list appended under its name |
| `Gamma.TeamsFilters` | gamma.go:16-29 | every filter is read back under its own name: `order=id`, limit and offset in decimal (negatives as they are), each list whole and in order |
| `Gamma.Sports` | gamma.go:37-44 | `sports` with `order=id` |
| `Gamma.SportsUrl` | gamma.go:41 | the URL is `BASE_URL/sports?order=id` |
| `Gamma.MarketTypes` | gamma.go:47-54 | `sports/market-types` with `order=id` |
| `Gamma.Tags` | gamma.go:57-66 | `tags` with `order=id` and the page window in decimal |
| `Gamma.PageQuery` | gamma.go:60-61 | a page window alone is written `limit=<n>&offset=<m>`, because `limit` sorts before `offset` |
| `Gamma.PageExample` | gamma_test.go:24-30 | limit 25 and offset 50 give `limit=25&offset=50` |
| `Gamma.NegativeLimitQuery` | gamma_test.go:41-47 | a limit of -5 is sent as `limit=-5`, sign kept and unescaped |
| `Gamma.TagBySlug` | gamma.go:69-75 | `tags/slug/<slug>` with `order=id`; the slug goes into the path |
| `Gamma.RelatedTagsByTagId` | gamma.go:78-84 | `tags/<id>/related-tags/tags` with `order=id` |
| `Gamma.EventsByTag` | gamma.go:87-95 | `events` with `order=id`, `tag_id` in decimal and `related_tags` as `true` or `false` |
| `Gamma.EventById` | gamma.go:98-101 | `events/<id>` with no parameters at all |
| `Gamma.EventByIdUrl` | gamma.go:99 | the URL never holds a query, whatever the id holds |
| `Gamma.PlainEventIdUrl` | gamma.go:99 | a plain id gives exactly `BASE_URL/events/<id>` |
| `Gamma.EventsBeforeDate` | gamma.go:104-132 | `events` with `limit`, `offset`, `tag_id`, `order=volume`, `end_date_max` as a stamp and `volume_min`, then the status flags |
| `Gamma.EventsBeforeStatus` | gamma.go:120-128 | the call sends `active` and `closed` only for `ACTIVE` and `CLOSED`, each once |
| `Gamma.EventsBetweenDates` | gamma.go:135-165 | as before-date, with `start_date_min` as a stamp added after `end_date_max` |
| `Gamma.EventsBetweenStatus` | gamma.go:153-161 | the call sends `active` and `closed` only for `ACTIVE` and `CLOSED`, each once |
| `Gamma.MarketsBetweenDates` | gamma.go:168-178 | `markets` with `order=id`, the page window and both date stamps |
| `Gamma.MarketDatesReadBack` | gamma.go:173-174 | both dates read back from the URL's query exactly as formatted |
| `Gamma.MarketDatesExample` | gamma_test.go:142-148 | the dates read back as `2025-10-15T00:00:00Z` and `2025-12-31T23:59:59Z` |
| `Gamma.MarketById` | gamma.go:181-188 | `markets` with `order=id` and the id in the query, not the path |
| `Gamma.GetAt` | pkg/util.go:23-80 | `genericGet` as written: the shared state is what `getHTTPClient` leaves, the attempts go through its client; the call succeeds exactly when the first stopping attempt is a 2xx response that decodes; the value is `result` after every 2xx body so far decoded into it, so a success carries fields left by earlier attempts; otherwise the error is the last attempt's cause plus the suffix for 3 attempts, however many were made |
| `Gamma.GetAtIntended` | pkg/util.go:23-80 | corrected: the same success condition, but a success hands back the stopping body decoded into the zero value, a failed call hands back the zero value, and its suffix names the attempts actually made |
| `Gamma.Call` | gamma.go:31-33 | each wrapper returns `genericGet` as written on its request's URL, with the outcome stated as for `Gamma.GetAt` |
| `Gamma.CallIntended` | gamma.go:31-33 | corrected: a wrapper call with the intended `genericGet`, stated as for `Gamma.GetAtIntended` |
| `Gamma.CallsUseInstalledClient` | pkg/util.go:27 | after a custom client is installed, a call leaves the shared state alone and sends its attempts through that client |
| `HttpClient.InitCustom` | init.go:18-25 | the first call installs a client with the raw timeout and the transport pointer as given, `nil` included; any later call changes nothing |
| `HttpClient.GetClient` | init.go:28-35 | an installed client is handed back unchanged; with none, a 30 s client with its transport unset is installed; the guard is not touched |
| `HttpClient.GetClientIdempotent` | init.go:29-34 | asking twice gives the same client and the same state |
| `HttpClient.DefaultThenCustom` | init.go:19-33 | the default does not use up the guard: a first custom initialisation after it still replaces it |
| `HttpClient.CustomNotDefault` | init.go:18-33 | a client from `InitCustomHttpClient` never uses the default transport, even when given a `nil` pointer, so it is never the default client |
| `HttpClient.HandedAppend` | init.go:28-35 | each `getHTTPClient` in a run of calls hands out the client it finds in the state the earlier calls left; an `InitCustomHttpClient` hands out nothing |
| `HttpClient.SecondInitIgnored` | init_test.go:49-67 | after two initialisations, the first one's timeout and transport are in use |
| `HttpClient.StableOnceInitialised` | init.go:18-25 | once a custom client is installed, no sequence of calls changes the state, and every `getHTTPClient` hands out that client |
| `HttpClient.ApplyFromStart` | init.go:11-35 | from process start, the client after any sequence of calls is that of the first `InitCustomHttpClient` if there was one, else the default; the guard is set exactly when one ran |
| `HttpClient.SharedAfterInit` | init.go:18-34 | after an initialisation, every later `getHTTPClient` hands out that client |

## Left out

- Network I/O is not modelled. That covers `client.Do`, `io.ReadAll`, `resp.Body.Close` and `time.Sleep`. Each attempt's outcome is an `Attempt` value, and sleeps are returned as durations.
- JSON decoding is not modelled. `json.Unmarshal` is given per attempt as a `Decode` value: a function from the value `result` held before to the value it holds after, marked as decoded or failed. A failure may have partly filled `result`, and fields a body leaves out keep what earlier attempts wrote.
- `time.Now()` is not modelled. The clock reading before each attempt is an input.
- `sync.Once` concurrency and the unsynchronised read in `getHTTPClient` are out of scope. The model is sequential.
- `url.Parse` is modelled only for the fixed `BASE_URL`. `URL.String` is modelled only for URLs with a scheme, a host, a path and a raw query: no user info, no fragment, no `RawPath`.
- `Gamma.GetAt` hands `genericGet` no request-construction error. The built URL always parses, so `http.NewRequest` cannot fail on it. `Retry.GenericGetAsWritten` and `Retry.GenericGet` still take that error as a parameter and model its branch.
- What a request through a client does is part of the server's answer, which is an input to `Gamma.Call`.
- `HttpClient.InitCustom` with a `nil` transport: the installed client keeps the nil pointer in its `Transport` field, and its first request panics on the nil pointer inside net/http. `genericGet` then neither records an error nor retries nor returns. No `Attempt` value expresses a panic, so the model does not represent what happens after it; it only records, through `HttpClient.CustomNotDefault`, that such a client never falls back to the default transport.
- `Strings.Itoa` and the `int` parameters of the wrappers are unbounded. Go's `int` is 64 bits, so this model does not cover values beyond that range. The backoff arithmetic cannot overflow for attempts below 3.
- `Dates.ParseFormat` covers only the years 0 to 9999. Beyond that range Go widens or signs the year and the stamp is no longer 20 characters. `Dates.Format` itself models every year.
- `Query.ParseQuery` is this model's own reader, not a model of `url.ParseQuery`. Go's reader skips each pair that contains `;` or a bad escape, keeps the other pairs and returns the first error with them. This reader rejects the whole string on a bad escape and gives `;` no special meaning. It is only applied to queries `Encode` wrote, where every `;` and `%` is escaped, so the two agree there.
- A Go string is a byte string. Here it is a sequence of characters; the read-back lemmas require every character to be below 256, and `Escaping.Escape` takes each character as one byte.
- `types_string.go` (printing) and `pkg/types.go` (JSON schemas) are not part of this model.
- `gamma_integration_test.go` and the live `GetTagBySlug`/`GetEventByID` error cases of `gamma_test.go` are not modelled. They depend on the live API.
- `Gamma.EventsBeforeStatus`: it states only the status flags. The other parameters are stated by the contract of `Gamma.EventsBeforeDate`.
- `Gamma.EventsBetweenStatus`: it states only the status flags. The other parameters are stated by the contract of `Gamma.EventsBetweenDates`.
- `Gamma.MarketDatesReadBack`: it reads back only the two dates. The other parameters read back through `UrlBuilder.ValuesReadBack`.

How `buildUrl` treats slashes:

- `strings.TrimRight(BASE_URL, "/")` removes every trailing `/` of the base, and `strings.Trim(endpoint, "/")` removes every leading and trailing `/` of the endpoint.
- Interior runs of `/` in an endpoint are kept as they are.

## Findings

| source | as written | input that shows it | evidently intended | confidence | as-written member | corrected member |
|---|---|---|---|---|---|---|
| pkg/util.go:79 | the final error always says `(after 3 attempts)` | a 404 on the first attempt: one attempt is made, and no retry follows because 404 is not retryable | the suffix names the attempts actually made, here 1 | medium; not executed | `Retry.OneAttemptReportedAsThree` (on `Retry.GenericGetAsWritten`) | `Retry.GenericGetMeaning` (on `Retry.GenericGet`, used by `Gamma.GetAtIntended`) |
| pkg/util.go:67-79 | a failed call returns `result` as it stands; an earlier 2xx body that `json.Unmarshal` partly decoded has already written into it | for a `[]int` result, a 2xx body `[1,"x"]`: `json.Unmarshal` stores `1`, fails on `"x"` and leaves `[1, 0]`; then a 404 | a failed call hands back the zero value, as Go's `(T, error)` convention expects and as the request-error return at pkg/util.go:39 does, since `result` is still zero there | medium, as it relies on `json.Unmarshal` writing into the result before it fails; not executed | `Retry.PartialResultLeaks` (on `Retry.GenericGetAsWritten`) | `Retry.GenericGet`, used by `Gamma.GetAtIntended` |
| pkg/util.go:24-72 | `result` is declared once before the loop, and each `json.Unmarshal` decodes into it as the earlier attempts left it; a successful call can return fields that only a failed earlier body supplied | `GetTagBySlug`: attempt 0 gets a 2xx `{"id":"7","label":5}`, which writes `ID` and then fails on the number; attempt 1 gets a 2xx `{"slug":"s"}`; the call succeeds with `ID "7"` and `Slug "s"` | each attempt decodes into a fresh zero value, so a success carries only what the body that succeeded holds | medium, as it relies on `json.Unmarshal` writing fields before it fails; not executed | `Retry.StaleFieldLeaks` (on `Retry.GenericGetAsWritten`, stated in general by `Retry.GenericGetAsWrittenMeaning`) | `Retry.GenericGetMeaning` (on `Retry.GenericGet`, used by `Gamma.GetAtIntended`) |
