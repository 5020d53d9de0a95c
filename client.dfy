/**
 * The DICT client object. Its socket is replaced by a script of readiness
 * events and a log of sent commands; every method is proved to change the
 * client's state exactly as the function of the same name in module Session
 * says.
 */
module Client {
  import opened Wrappers
  import opened Framing
  import opened Protocol
  import opened Assembly
  import opened Session

  class DictionaryClient {
    const cfg: Config
    var sock: SockState
    /** The readiness events the server will still produce, one per wait. */
    var script: seq<Event>
    /** Every command passed to `sendall`, in order. */
    var sent: seq<Command>
    /** The private attributes behind `strategies` and `databases`. */
    var cached: map<Listing, Properties>
    /** The greeting banner kept by the constructor. */
    var serverInfo: Option<string>

    function State(): View
      reads this
    {
      View(sock, script, sent, cached)
    }

    /** A client over an unconnected socket whose server will behave as `server` says. */
    constructor (cfg: Config, server: seq<Event>)
      ensures this.cfg == cfg && State() == View(Unconnected, server, [], map[]) && serverInfo == None
    {
      this.cfg := cfg;
      sock := Unconnected;
      script := server;
      sent := [];
      cached := map[];
      serverInfo := None;
    }

    /**
     * `__init__`: builds the client and runs the handshake; the banner is
     * kept only when the handshake succeeds (otherwise the constructor
     * raises and no client is returned).
     */
    static method Open(cfg: Config, server: seq<Event>, host: string := "localhost", port: int := DEFAULT_PORT)
      returns (client: DictionaryClient, r: Result<string, Error>)
      ensures fresh(client) && client.cfg == cfg
      ensures (r, client.State()) == Session.Connect(cfg, View(Unconnected, server, [], map[]), host, port)
      ensures client.serverInfo == if r.Ok? then Some(r.value) else None
    {
      client := new DictionaryClient(cfg, server);
      r := client.Connect(host, port);
      if r.Ok? {
        client.serverInfo := Some(r.value);
      }
    }

    method SendAll(cmd: Command)
      modifies this`sent
      ensures sent == old(sent) + [cmd]
    {
      sent := sent + [cmd];
    }

    /**
     * One `select` with its timeout, followed by one `recv` when the socket
     * became readable. A script that has run out stands for a server that
     * sends nothing more, so the wait times out.
     */
    method WaitAndRecv() returns (chunk: Option<Bytes>)
      modifies this`script
      ensures old(script) == [] ==> chunk == None && script == []
      ensures old(script) != [] ==>
        script == old(script)[1..] &&
        chunk == if old(script)[0].Ready? then Some(old(script)[0].chunk) else None
    {
      if script == [] {
        return None;
      }
      var event := script[0];
      script := script[1..];
      chunk := if event.Ready? then Some(event.chunk) else None;
    }

    /** `_recv_all`: reads one whole reply. */
    method RecvAll() returns (r: Result<Bytes, Error>)
      modifies this`script
      ensures r == NextReply(cfg, old(State()))
      ensures State() == AfterReply(cfg, old(State()))
    {
      var first := WaitAndRecv();
      if first.None? {
        return Err(Timeout(None));
      }
      var received := first.value;
      var status := GetStatus(received);
      if status.None? {
        return Err(MalformedStatus);
      }
      var code := status.value;
      if code in cfg.reg.terminal {
        return Ok(received);
      }
      ghost var start := script;
      assert Assemble(cfg.reg, old(script)) == Collect(received, code, start);
      while !ResponseComplete(received)
        invariant Collect(received, code, script) == Collect(first.value, code, start)
        decreases |script|
      {
        var more := WaitAndRecv();
        if more.None? {
          return Err(Timeout(Some(code)));
        }
        received := received + more.value;
      }
      r := Ok(received);
    }

    /** `_connect`: connects, checks the greeting and identifies the client. */
    method Connect(host: string, port: int) returns (r: Result<string, Error>)
      modifies this
      ensures (r, State()) == Session.Connect(cfg, old(State()), host, port)
      ensures serverInfo == old(serverInfo)
    {
      sock := Connected(host, port);
      var greeting := RecvAll();
      if greeting.Err? {
        return Err(greeting.error);
      }
      var code := GetStatus(greeting.value).value;
      if code != cfg.reg.connectionAccepted {
        return Err(UnexpectedStatus(code));
      }
      var bad := SendClientIdent();
      if bad.Some? {
        return Err(bad.value);
      }
      r := Ok(cfg.greetingContent(greeting.value));
    }

    /** `_send_client_ident`: sends CLIENT and checks for the OK status. */
    method SendClientIdent() returns (e: Option<Error>)
      modifies this
      ensures (e, State()) == Session.SendClientIdent(cfg, old(State()))
      ensures serverInfo == old(serverInfo)
    {
      SendAll(ClientIdent(cfg.clientIdInfo));
      var reply := RecvAll();
      if reply.Err? {
        return Some(reply.error);
      }
      var code := GetStatus(reply.value).value;
      e := if code != cfg.reg.ok then Some(UnexpectedStatus(code)) else None;
    }

    /** `_get_response`: sends a command and reads its reply. */
    method GetResponse(cmd: Command) returns (r: Result<Bytes, Error>)
      modifies this
      ensures (r, State()) == Request(cfg, old(State()), cmd)
      ensures serverInfo == old(serverInfo)
    {
      SendAll(cmd);
      r := RecvAll();
    }

    method GetServerStatus() returns (r: Result<Bytes, Error>)
      modifies this
      ensures (r, State()) == Request(cfg, old(State()), ServerStatus)
      ensures serverInfo == old(serverInfo)
    {
      r := GetResponse(ServerStatus);
    }

    method GetServerInformation() returns (r: Result<Bytes, Error>)
      modifies this
      ensures (r, State()) == Request(cfg, old(State()), ShowServer)
      ensures serverInfo == old(serverInfo)
    {
      r := GetResponse(ShowServer);
    }

    method GetHelpText() returns (r: Result<Bytes, Error>)
      modifies this
      ensures (r, State()) == Request(cfg, old(State()), Help)
      ensures serverInfo == old(serverInfo)
    {
      r := GetResponse(Help);
    }

    /** Reading `strategies` or `databases`: fetches and caches the listing unless it is cached and not empty. */
    method Property(which: Listing) returns (r: Result<Properties, Error>)
      modifies this
      ensures (r, State()) == Access(cfg, old(State()), which)
      ensures serverInfo == old(serverInfo)
    {
      if which in cached && cached[which] != map[] {
        return Ok(cached[which]);
      }
      var reply := GetResponse(FetchCommand(which));
      if reply.Err? {
        return Err(reply.error);
      }
      var content := cfg.propertiesContent(reply.value);
      cached := cached[which := content];
      r := Ok(content);
    }

    /** Assigning `strategies` or `databases` always fails and changes nothing. */
    method SetProperty(which: Listing, value: Properties) returns (e: Error)
      ensures e == ReadOnlyAttribute(ListingName(which))
    {
      e := ReadOnlyAttribute(ListingName(which));
    }

    /** Deleting `strategies` or `databases` always fails and changes nothing. */
    method DeleteProperty(which: Listing) returns (e: Error)
      ensures e == ReadOnlyAttribute(ListingName(which))
    {
      e := ReadOnlyAttribute(ListingName(which));
    }

    /** Checks `name` against a listing unless it equals `wildcard`. */
    method CheckUnless(which: Listing, name: string, wildcard: string) returns (bad: Option<Error>)
      modifies this
      ensures (bad, State()) == Session.CheckUnless(cfg, old(State()), which, name, wildcard)
      ensures serverInfo == old(serverInfo)
    {
      if name == wildcard {
        return None;
      }
      var names := Property(which);
      if names.Err? {
        return Some(names.error);
      }
      bad := if name in names.value then None else Some(NotListed(which, name));
    }

    /** `get_db_info`. */
    method GetDbInfo(db: string) returns (r: Result<Bytes, Error>)
      modifies this
      ensures (r, State()) == DbInfo(cfg, old(State()), db)
      ensures serverInfo == old(serverInfo)
    {
      var names := Property(Databases);
      if names.Err? {
        return Err(names.error);
      }
      if db !in names.value {
        return Err(InvalidDatabase(db));
      }
      r := GetResponse(ShowInfo(db));
    }

    /** `define`. */
    method Define(word: string, db: string := ANY_DATABASE) returns (r: Result<Bytes, Error>)
      modifies this
      ensures (r, State()) == Session.Define(cfg, old(State()), word, db)
      ensures serverInfo == old(serverInfo)
    {
      var bad := CheckUnless(Databases, db, ANY_DATABASE);
      if bad.Some? {
        return Err(bad.value);
      }
      r := GetResponse(DefineWord(word, db));
    }

    /** `match`. */
    method Match(word: string, db: string := ANY_DATABASE, strategy: string := DEFAULT_STRATEGY) returns (r: Result<Bytes, Error>)
      modifies this
      ensures (r, State()) == Session.Match(cfg, old(State()), word, db, strategy)
      ensures serverInfo == old(serverInfo)
    {
      var badDb := CheckUnless(Databases, db, ANY_DATABASE);
      if badDb.Some? {
        return Err(badDb.value);
      }
      var badStrategy := CheckUnless(Strategies, strategy, DEFAULT_STRATEGY);
      if badStrategy.Some? {
        return Err(badStrategy.value);
      }
      r := GetResponse(MatchWord(word, db, strategy));
    }

    /** `disconnect`: sends QUIT and closes the socket only on the closing-connection status. */
    method Disconnect() returns (e: Option<Error>)
      modifies this
      ensures (e, State()) == Session.Disconnect(cfg, old(State()))
      ensures serverInfo == old(serverInfo)
    {
      var reply := GetResponse(Quit);
      if reply.Err? {
        return Some(reply.error);
      }
      if GetStatus(reply.value).value != cfg.reg.closingConnection {
        return Some(UnexpectedQuitReply(reply.value));
      }
      sock := Closed;
      e := None;
    }
  }
}
