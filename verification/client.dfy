/**
 The shared HTTP client of `init.go`: a `once` guard and the installed client.
 `InitCustomHttpClient` installs a client through the guard; `getHTTPClient` installs
 a client with the default timeout when there is none, without touching the guard.

 The model is sequential: each operation maps the state before to the state after.
 Timeouts are `time.Duration` values, in nanoseconds.
 */
module HttpClient {
  import opened Wrappers

  /** An `*http.Transport` argument: the `nil` pointer, or a transport told apart by identity. */
  datatype TransportPtr = NilTransport | TransportAt(id: nat)

  /**
   The fields of `http.Client` the package sets. `transport` is the `Transport`
   interface field: `None` when it is left unset, so that requests go through
   `http.DefaultTransport`, and `Some(p)` when it holds the pointer `p`. `Some(NilTransport)`
   is a non-nil interface holding a nil pointer: `client.Do` uses it as it is, never the
   default transport, and the first request through it panics on the nil pointer inside
   net/http.
   */
  datatype Client = Client(timeout: int, transport: Option<TransportPtr>)

  /** Requests go through `http.DefaultTransport`. */
  predicate UsesDefaultTransport(c: Client) {
    c.transport.None?
  }

  /** The package state: whether `once.Do` has run, and `httpClient` (`None` for `nil`). */
  datatype Holder = Holder(once: bool, client: Option<Client>)

  /** `30 * time.Second`. */
  const DefaultTimeout: int := 30 * 1_000_000_000

  /** The state when the process starts. */
  const Initial: Holder := Holder(false, None)

  /**
   `InitCustomHttpClient(timeout, transport)`: the first call installs a client with the
   raw `timeout` as its duration, replacing any default client; every later call
   changes nothing.
   */
  function InitCustom(h: Holder, timeout: int, transport: TransportPtr): (r: Holder)
    ensures r.once
    ensures h.once ==> r == h
    ensures !h.once ==> r.client == Some(Client(timeout, Some(transport)))
  {
    if h.once then h else Holder(true, Some(Client(timeout, Some(transport))))
  }

  /**
   `getHTTPClient()`: the installed client, after installing one with the default
   timeout and transport when there is none. The guard is left as it is.
   */
  function GetClient(h: Holder): (r: (Holder, Client))
    ensures r.0.once == h.once
    ensures r.0.client == Some(r.1)
    ensures h.client.Some? ==> r.0 == h && r.1 == h.client.value
    ensures h.client.None? ==> r.1 == Client(DefaultTimeout, None)
  {
    match h.client
    case Some(c) => (h, c)
    case None =>
      var c := Client(DefaultTimeout, None);
      (h.(client := Some(c)), c)
  }

  /** Asking for the client twice gives the same client and the same state. */
  lemma GetClientIdempotent(h: Holder)
    ensures GetClient(GetClient(h).0) == GetClient(h)
  {
  }

  /**
   The default does not use up the guard: after a default has been installed, the first
   custom initialisation still replaces it.
   */
  lemma DefaultThenCustom(timeout: int, transport: TransportPtr)
    ensures var (h, c) := GetClient(Initial);
            && c.timeout == DefaultTimeout && UsesDefaultTransport(c)
            && GetClient(InitCustom(h, timeout, transport)).1 == Client(timeout, Some(transport))
  {
  }

  /** Two initialisations: the first one's client is the one in use. */
  lemma SecondInitIgnored(t1: int, tr1: TransportPtr, t2: int, tr2: TransportPtr)
    ensures GetClient(InitCustom(InitCustom(Initial, t1, tr1), t2, tr2)).1 == Client(t1, Some(tr1))
  {
  }

  /**
   A custom client never uses the default transport, not even when it is given a nil
   pointer, so it differs from the default client whatever timeout it has.
   */
  lemma CustomNotDefault(h: Holder, timeout: int, transport: TransportPtr)
    requires !h.once
    ensures var c := GetClient(InitCustom(h, timeout, transport)).1;
            && !UsesDefaultTransport(c)
            && c.transport == Some(transport)
            && c != GetClient(Initial).1
  {
  }

  // ---------------------------------------------------------------------------
  // Sequences of calls
  // ---------------------------------------------------------------------------

  datatype Call = Init(timeout: int, transport: TransportPtr) | Get

  /** The state after running `calls` from `h`. */
  function Apply(h: Holder, calls: seq<Call>): Holder
    decreases |calls|
  {
    if calls == [] then h
    else
      var h' := match calls[0]
        case Init(t, tr) => InitCustom(h, t, tr)
        case Get => GetClient(h).0;
      Apply(h', calls[1..])
  }

  /** The clients the `Get` calls among `calls` hand out, in order. */
  function Handed(h: Holder, calls: seq<Call>): (r: seq<Client>)
    ensures |r| <= |calls|
    decreases |calls|
  {
    if calls == [] then []
    else match calls[0]
      case Init(t, tr) => Handed(InitCustom(h, t, tr), calls[1..])
      case Get =>
        var (h', c) := GetClient(h);
        [c] + Handed(h', calls[1..])
  }

  /**
   What `Handed` hands out, call by call: one more call adds the client `getHTTPClient`
   returns in the state the earlier calls left, when it is a `Get`, and nothing otherwise.
   */
  lemma {:induction false} HandedAppend(h: Holder, calls: seq<Call>, c: Call)
    ensures Handed(h, calls + [c])
         == Handed(h, calls) + (if c.Get? then [GetClient(Apply(h, calls)).1] else [])
    decreases |calls|
  {
    if calls == [] {
      assert [c][1..] == [];
    } else {
      assert (calls + [c])[1..] == calls[1..] + [c];
      match calls[0]
      case Init(t, tr) =>
        HandedAppend(InitCustom(h, t, tr), calls[1..], c);
      case Get =>
        HandedAppend(GetClient(h).0, calls[1..], c);
    }
  }

  /** Index of the first `Init` call, or `|calls|` when there is none. */
  function FirstInit(calls: seq<Call>): (k: nat)
    ensures k <= |calls|
    ensures forall i | 0 <= i < k :: calls[i] == Get
    ensures k < |calls| ==> calls[k].Init?
  {
    if calls == [] then 0
    else if calls[0].Init? then 0
    else 1 + FirstInit(calls[1..])
  }

  /**
   Once a custom client is installed nothing changes: every later call leaves the state
   alone and every `Get` hands out that client. Installation is at most once.
   */
  lemma {:induction false} StableOnceInitialised(h: Holder, calls: seq<Call>)
    requires h.once && h.client.Some?
    ensures Apply(h, calls) == h
    ensures forall i | 0 <= i < |Handed(h, calls)| :: Handed(h, calls)[i] == h.client.value
    decreases |calls|
  {
    if calls != [] {
      StableOnceInitialised(h, calls[1..]);
    }
  }

  /**
   From the start of the process, the client in use after any run of calls is the
   first `Init`'s client when there is one, the default client when there were only
   `Get`s, and none when there were no calls; the guard is set exactly when some
   `Init` ran.
   */
  lemma {:induction false} ApplyFromStart(h: Holder, calls: seq<Call>)
    requires !h.once
    requires h.client == None || h.client == Some(Client(DefaultTimeout, None))
    ensures var k := FirstInit(calls);
            var r := Apply(h, calls);
            && (r.once <==> k < |calls|)
            && r.client == (if k < |calls| then Some(Client(calls[k].timeout, Some(calls[k].transport)))
                            else if calls == [] then h.client
                            else Some(Client(DefaultTimeout, None)))
    decreases |calls|
  {
    if calls != [] {
      match calls[0]
      case Init(t, tr) =>
        StableOnceInitialised(InitCustom(h, t, tr), calls[1..]);
      case Get =>
        ApplyFromStart(GetClient(h).0, calls[1..]);
        assert calls[1..] == [] ==> calls == [Get];
    }
  }

  /** Every `Get` after the first `Init` hands out that `Init`'s client. */
  lemma {:induction false} SharedAfterInit(h: Holder, calls: seq<Call>, t: int, tr: TransportPtr, rest: seq<Call>)
    requires !h.once
    requires calls == [Init(t, tr)] + rest
    ensures forall i | 0 <= i < |Handed(h, calls)| :: Handed(h, calls)[i] == Client(t, Some(tr))
  {
    assert calls[1..] == rest;
    StableOnceInitialised(InitCustom(h, t, tr), rest);
  }
}
