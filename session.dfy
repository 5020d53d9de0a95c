/**
 * The client session as functions on a View of the client's state: each
 * operation takes the state before it and returns its result and the state
 * after it. The class in module Client runs the same steps imperatively.
 */
module Session {
  import opened Wrappers
  import opened Framing
  import opened Protocol
  import opened Assembly

  datatype SockState = Unconnected | Connected(host: string, port: int) | Closed

  /**
   * The state a client changes: its socket, the events the server will still
   * produce, the commands sent so far, and the cached listings (a listing
   * absent from the map has never been stored).
   */
  datatype View = View(sock: SockState, script: seq<Event>, sent: seq<Command>, cached: map<Listing, Properties>)

  /**
   * What is fixed when a client is built: the status table, the
   * identification string, and the decoders that turn a reply into the
   * greeting banner and into a listing.
   */
  datatype Config = Config(
    reg: Registry,
    clientIdInfo: string,
    greetingContent: Bytes -> string,
    propertiesContent: Bytes -> Properties)

  /** The reply the next Assemble yields from the view's script. */
  function NextReply(cfg: Config, v: View): Result<Bytes, Error>
  {
    Assemble(cfg.reg, v.script).0
  }

  /** The view once that reply has been read. */
  function AfterReply(cfg: Config, v: View): View
  {
    v.(script := Assemble(cfg.reg, v.script).1)
  }

  /** The status code of a reply that was assembled. */
  function StatusOf(r: Result<Bytes, Error>): Status
    requires r.Ok? && GetStatus(r.value).Some?
  {
    GetStatus(r.value).value
  }

  /** Sending `cmd` and reading the reply to it. */
  function Request(cfg: Config, v: View, cmd: Command): (res: (Result<Bytes, Error>, View))
    ensures res.0 == NextReply(cfg, v)
    ensures res.1 == AfterReply(cfg, v).(sent := v.sent + [cmd])
  {
    var v1 := v.(sent := v.sent + [cmd]);
    (NextReply(cfg, v1), AfterReply(cfg, v1))
  }

  /** `after` is `before` with more commands sent after it. */
  predicate Extends(before: seq<Command>, after: seq<Command>)
  {
    |before| <= |after| && after[..|before|] == before
  }

  /** `after` extends `before` by fetch commands only. */
  predicate OnlyFetches(before: seq<Command>, after: seq<Command>)
  {
    |before| <= |after| && after[..|before|] == before &&
    forall i :: |before| <= i < |after| ==> after[i] == ShowStrategies || after[i] == ShowDatabases
  }

  /** The cached listing counts as present: stored and not empty. */
  predicate Cached(v: View, which: Listing)
  {
    which in v.cached && v.cached[which] != map[]
  }

  /**
   * Reading a listing. A present cached listing is returned and nothing
   * happens; otherwise exactly its fetch command is sent, and the decoded
   * reply is stored and returned.
   */
  function Access(cfg: Config, v: View, which: Listing): (res: (Result<Properties, Error>, View))
    ensures Cached(v, which) ==> res == (Ok(v.cached[which]), v)
    ensures !Cached(v, which) ==>
      res.1.sent == v.sent + [FetchCommand(which)] &&
      res.1.script == Assemble(cfg.reg, v.script).1
    ensures !Cached(v, which) && NextReply(cfg, v).Ok? ==>
      res.0 == Ok(cfg.propertiesContent(NextReply(cfg, v).value)) &&
      res.1.cached == v.cached[which := res.0.value]
    ensures !Cached(v, which) && NextReply(cfg, v).Err? ==>
      res.0 == Err(NextReply(cfg, v).error) && res.1.cached == v.cached
    ensures res.1.sock == v.sock
    ensures OnlyFetches(v.sent, res.1.sent)
  {
    if Cached(v, which) then (Ok(v.cached[which]), v)
    else
      var (r, v1) := Request(cfg, v, FetchCommand(which));
      match r
      case Err(e) => (Err(e), v1)
      case Ok(reply) =>
        var content := cfg.propertiesContent(reply);
        (Ok(content), v1.(cached := v1.cached[which := content]))
  }

  /**
   * The cache is filled once: after a successful read of a non-empty listing,
   * reading it again gives the same listing and changes nothing, and the
   * other listing's cache is as it was.
   */
  lemma AccessMemoizes(cfg: Config, v: View, which: Listing)
    requires Access(cfg, v, which).0.Ok? && Access(cfg, v, which).0.value != map[]
    ensures var (r, v1) := Access(cfg, v, which);
      Access(cfg, v1, which) == (r, v1) &&
      OnlyFetches(v.sent, v1.sent) && |v1.sent| <= |v.sent| + 1 &&
      forall other :: other != which ==>
        (other in v1.cached <==> other in v.cached) &&
        (other in v.cached ==> v1.cached[other] == v.cached[other])
  {
  }

  /** The error for a name missing from a listing. */
  function NotListed(which: Listing, name: string): Error
  {
    match which
    case Databases => InvalidDatabase(name)
    case Strategies => UnknownStrategy(name)
  }

  /** Reading a listing and checking that `name` is in it. */
  function CheckListed(cfg: Config, v: View, which: Listing, name: string): (res: (Option<Error>, View))
    ensures res.1 == Access(cfg, v, which).1
    ensures res.0.None? <==> Access(cfg, v, which).0.Ok? && name in Access(cfg, v, which).0.value
    ensures res.0.None? ==> which in res.1.cached && name in res.1.cached[which]
    ensures res.0.Some? ==>
      res.0.value == (if Access(cfg, v, which).0.Err? then Access(cfg, v, which).0.error else NotListed(which, name))
  {
    var (r, v1) := Access(cfg, v, which);
    match r
    case Err(e) => (Some(e), v1)
    case Ok(names) => (if name in names then None else Some(NotListed(which, name)), v1)
  }

  /** The database wildcard and the default strategy, which are never checked. */
  const ANY_DATABASE: string := "*"
  const DEFAULT_STRATEGY: string := "."

  /** Checking a name unless it is the wildcard. */
  function CheckUnless(cfg: Config, v: View, which: Listing, name: string, wildcard: string): (res: (Option<Error>, View))
    ensures name == wildcard ==> res == (None, v)
    ensures name != wildcard ==> res == CheckListed(cfg, v, which, name)
  {
    if name == wildcard then (None, v) else CheckListed(cfg, v, which, name)
  }

  /** `get_db_info`: the database must be listed; then SHOW INFO is sent. */
  function DbInfo(cfg: Config, v: View, db: string): (res: (Result<Bytes, Error>, View))
    ensures Extends(v.sent, res.1.sent)
    ensures res.1.sock == v.sock
    ensures var (names, v1) := Access(cfg, v, Databases);
      (names.Err? ==> res == (Err(names.error), v1)) &&
      (names.Ok? && db !in names.value ==> res == (Err(InvalidDatabase(db)), v1)) &&
      (names.Ok? && db in names.value ==> res == Request(cfg, v1, ShowInfo(db)))
  {
    var (bad, v1) := CheckListed(cfg, v, Databases, db);
    if bad.Some? then (Err(bad.value), v1) else Request(cfg, v1, ShowInfo(db))
  }

  /**
   * `get_db_info` sends nothing but a fetch when the database is rejected, and
   * sends SHOW INFO only for a listed database, as its last command.
   */
  lemma DbInfoChecksBeforeSending(cfg: Config, v: View, db: string)
    ensures var res := DbInfo(cfg, v, db);
      (res.0 == Err(InvalidDatabase(db)) ==> OnlyFetches(v.sent, res.1.sent)) &&
      (ShowInfo(db) in res.1.sent[|v.sent|..] ==>
        Databases in res.1.cached && db in res.1.cached[Databases] &&
        res.1.sent[|res.1.sent| - 1] == ShowInfo(db))
  {
    var res := DbInfo(cfg, v, db);
    var (bad, v1) := CheckListed(cfg, v, Databases, db);
    if bad.Some? {
      assert res.1 == v1;
      NoneAmongFetches(v.sent, v1.sent, ShowInfo(db));
    } else {
      assert res.1.sent == v1.sent + [ShowInfo(db)] && res.1.cached == v1.cached;
    }
  }

  /** `define`: the database must be the wildcard or listed; then DEFINE is sent. */
  function Define(cfg: Config, v: View, word: string, db: string): (res: (Result<Bytes, Error>, View))
    ensures Extends(v.sent, res.1.sent)
    ensures db == ANY_DATABASE ==> res == Request(cfg, v, DefineWord(word, db))
    ensures res.1.sock == v.sock
    ensures var (names, v1) := Access(cfg, v, Databases);
      db != ANY_DATABASE ==>
        (names.Err? ==> res == (Err(names.error), v1)) &&
        (names.Ok? && db !in names.value ==> res == (Err(InvalidDatabase(db)), v1)) &&
        (names.Ok? && db in names.value ==> res == Request(cfg, v1, DefineWord(word, db)))
  {
    var (bad, v1) := CheckUnless(cfg, v, Databases, db, ANY_DATABASE);
    if bad.Some? then (Err(bad.value), v1) else Request(cfg, v1, DefineWord(word, db))
  }

  /**
   * `define` sends nothing but a fetch when the database is rejected, and
   * sends DEFINE only for the wildcard or a listed database, as its last
   * command.
   */
  lemma DefineChecksBeforeSending(cfg: Config, v: View, word: string, db: string)
    ensures var res := Define(cfg, v, word, db);
      (res.0 == Err(InvalidDatabase(db)) ==> OnlyFetches(v.sent, res.1.sent)) &&
      (DefineWord(word, db) in res.1.sent[|v.sent|..] ==>
        (db == ANY_DATABASE || (Databases in res.1.cached && db in res.1.cached[Databases])) &&
        res.1.sent[|res.1.sent| - 1] == DefineWord(word, db))
  {
    var res := Define(cfg, v, word, db);
    var (bad, v1) := CheckUnless(cfg, v, Databases, db, ANY_DATABASE);
    if bad.Some? {
      assert res.1 == v1;
      NoneAmongFetches(v.sent, v1.sent, DefineWord(word, db));
    } else {
      assert res.1.sent == v1.sent + [DefineWord(word, db)] && res.1.cached == v1.cached;
    }
  }

  /**
   * `match`: the database must be the wildcard or listed, and the strategy
   * the default or listed; then MATCH is sent.
   */
  function Match(cfg: Config, v: View, word: string, db: string, strategy: string): (res: (Result<Bytes, Error>, View))
    ensures Extends(v.sent, res.1.sent)
    ensures db == ANY_DATABASE && strategy == DEFAULT_STRATEGY ==>
      res == Request(cfg, v, MatchWord(word, db, strategy))
    ensures res.1.sock == v.sock
  {
    var (badDb, v1) := CheckUnless(cfg, v, Databases, db, ANY_DATABASE);
    if badDb.Some? then (Err(badDb.value), v1)
    else
      var (badStrategy, v2) := CheckUnless(cfg, v1, Strategies, strategy, DEFAULT_STRATEGY);
      if badStrategy.Some? then (Err(badStrategy.value), v2)
      else Request(cfg, v2, MatchWord(word, db, strategy))
  }

  /**
   * The outcome of `match`'s database check: a database other than "*"
   * fails with the fetch's error, or with InvalidDatabase when it is not
   * listed.
   */
  lemma MatchDbOutcome(cfg: Config, v: View, word: string, db: string, strategy: string)
    requires db != ANY_DATABASE
    ensures var (names, v1) := Access(cfg, v, Databases);
      var res := Match(cfg, v, word, db, strategy);
      (names.Err? ==> res == (Err(names.error), v1)) &&
      (names.Ok? && db !in names.value ==> res == (Err(InvalidDatabase(db)), v1))
  {
  }

  /**
   * The outcome of `match` once the database passed (it is "*" or listed):
   * the strategy "." sends MATCH at once; any other strategy fails with the
   * fetch's error, or with UnknownStrategy when it is not listed, and
   * otherwise MATCH is sent.
   */
  lemma MatchStrategyOutcome(cfg: Config, v: View, word: string, db: string, strategy: string)
    requires db == ANY_DATABASE || (Access(cfg, v, Databases).0.Ok? && db in Access(cfg, v, Databases).0.value)
    ensures var v1 := if db == ANY_DATABASE then v else Access(cfg, v, Databases).1;
      var (names, v2) := Access(cfg, v1, Strategies);
      var res := Match(cfg, v, word, db, strategy);
      (strategy == DEFAULT_STRATEGY ==> res == Request(cfg, v1, MatchWord(word, db, strategy))) &&
      (strategy != DEFAULT_STRATEGY && names.Err? ==> res == (Err(names.error), v2)) &&
      (strategy != DEFAULT_STRATEGY && names.Ok? && strategy !in names.value ==>
        res == (Err(UnknownStrategy(strategy)), v2)) &&
      (strategy != DEFAULT_STRATEGY && names.Ok? && strategy in names.value ==>
        res == Request(cfg, v2, MatchWord(word, db, strategy)))
  {
  }

  /** A check that lets a name through leaves it the wildcard or listed. */
  lemma CheckUnlessPasses(cfg: Config, v: View, which: Listing, name: string, wildcard: string)
    requires CheckUnless(cfg, v, which, name, wildcard).0.None?
    ensures var v1 := CheckUnless(cfg, v, which, name, wildcard).1;
      name == wildcard || (which in v1.cached && name in v1.cached[which])
  {
  }

  /** Checking a strategy keeps a database in the cached database listing. */
  lemma CheckStrategyKeepsDatabase(cfg: Config, v: View, strategy: string, db: string)
    requires Databases in v.cached && db in v.cached[Databases]
    ensures var v1 := CheckUnless(cfg, v, Strategies, strategy, DEFAULT_STRATEGY).1;
      Databases in v1.cached && db in v1.cached[Databases]
  {
  }

  /** `match` sends nothing but fetches when it rejects a name. */
  lemma MatchRejectSendsOnlyFetches(cfg: Config, v: View, word: string, db: string, strategy: string)
    requires var r := Match(cfg, v, word, db, strategy).0;
      r == Err(InvalidDatabase(db)) || r == Err(UnknownStrategy(strategy))
    ensures OnlyFetches(v.sent, Match(cfg, v, word, db, strategy).1.sent)
  {
    var (badDb, v1) := CheckUnless(cfg, v, Databases, db, ANY_DATABASE);
    if badDb.Some? {
      assert Match(cfg, v, word, db, strategy).1 == v1;
    } else {
      var (badStrategy, v2) := CheckUnless(cfg, v1, Strategies, strategy, DEFAULT_STRATEGY);
      if badStrategy.Some? {
        assert Match(cfg, v, word, db, strategy).1 == v2;
        OnlyFetchesTrans(v.sent, v1.sent, v2.sent);
      } else {
        assert false;
      }
    }
  }

  /**
   * `match` sends MATCH only for a database that is the wildcard or listed
   * and a strategy that is the default or listed, and only as its last
   * command.
   */
  lemma MatchSendsOnlyChecked(cfg: Config, v: View, word: string, db: string, strategy: string)
    requires var res := Match(cfg, v, word, db, strategy);
      MatchWord(word, db, strategy) in res.1.sent[|v.sent|..]
    ensures var res := Match(cfg, v, word, db, strategy);
      (db == ANY_DATABASE || (Databases in res.1.cached && db in res.1.cached[Databases])) &&
      (strategy == DEFAULT_STRATEGY || (Strategies in res.1.cached && strategy in res.1.cached[Strategies])) &&
      res.1.sent[|res.1.sent| - 1] == MatchWord(word, db, strategy)
  {
    var cmd := MatchWord(word, db, strategy);
    var (badDb, v1) := CheckUnless(cfg, v, Databases, db, ANY_DATABASE);
    MatchDbRejected(cfg, v, word, db, strategy);
    assert badDb.None?;
    var (badStrategy, v2) := CheckUnless(cfg, v1, Strategies, strategy, DEFAULT_STRATEGY);
    MatchStrategyRejected(cfg, v, word, db, strategy);
    assert badStrategy.None?;
    assert Match(cfg, v, word, db, strategy) == Request(cfg, v2, cmd);
    CheckUnlessPasses(cfg, v, Databases, db, ANY_DATABASE);
    CheckUnlessPasses(cfg, v1, Strategies, strategy, DEFAULT_STRATEGY);
    if db != ANY_DATABASE {
      CheckStrategyKeepsDatabase(cfg, v1, strategy, db);
    }
  }

  /** A rejected database ends `match` before MATCH is sent. */
  lemma MatchDbRejected(cfg: Config, v: View, word: string, db: string, strategy: string)
    ensures var (badDb, v1) := CheckUnless(cfg, v, Databases, db, ANY_DATABASE);
      badDb.Some? ==>
        Match(cfg, v, word, db, strategy).1 == v1 && MatchWord(word, db, strategy) !in v1.sent[|v.sent|..]
  {
    var (badDb, v1) := CheckUnless(cfg, v, Databases, db, ANY_DATABASE);
    if badDb.Some? {
      NoneAmongFetches(v.sent, v1.sent, MatchWord(word, db, strategy));
    }
  }

  /** A rejected strategy ends `match` before MATCH is sent. */
  lemma MatchStrategyRejected(cfg: Config, v: View, word: string, db: string, strategy: string)
    requires CheckUnless(cfg, v, Databases, db, ANY_DATABASE).0.None?
    ensures var v1 := CheckUnless(cfg, v, Databases, db, ANY_DATABASE).1;
      var (badStrategy, v2) := CheckUnless(cfg, v1, Strategies, strategy, DEFAULT_STRATEGY);
      badStrategy.Some? ==>
        Match(cfg, v, word, db, strategy).1 == v2 && MatchWord(word, db, strategy) !in v2.sent[|v.sent|..]
  {
    var v1 := CheckUnless(cfg, v, Databases, db, ANY_DATABASE).1;
    var (badStrategy, v2) := CheckUnless(cfg, v1, Strategies, strategy, DEFAULT_STRATEGY);
    if badStrategy.Some? {
      OnlyFetchesTrans(v.sent, v1.sent, v2.sent);
      NoneAmongFetches(v.sent, v2.sent, MatchWord(word, db, strategy));
    }
  }

  lemma OnlyFetchesTrans(a: seq<Command>, b: seq<Command>, c: seq<Command>)
    requires OnlyFetches(a, b) && OnlyFetches(b, c)
    ensures OnlyFetches(a, c)
  {
    assert c[..|a|] == c[..|b|][..|a|];
    forall i | |a| <= i < |c|
      ensures c[i] == ShowStrategies || c[i] == ShowDatabases
    {
      if i < |b| {
        assert c[i] == c[..|b|][i] == b[i];
      }
    }
  }

  lemma NoneAmongFetches(a: seq<Command>, b: seq<Command>, cmd: Command)
    requires OnlyFetches(a, b) && cmd != ShowStrategies && cmd != ShowDatabases
    ensures cmd !in b[|a|..]
  {
  }

  /**
   * `_send_client_ident`: CLIENT is sent, and the reply must carry the OK
   * status; any other status is the error.
   */
  function SendClientIdent(cfg: Config, v: View): (res: (Option<Error>, View))
    ensures res.1 == AfterReply(cfg, v.(sent := v.sent + [ClientIdent(cfg.clientIdInfo)]))
    ensures var r := NextReply(cfg, v);
      (res.0.None? <==> r.Ok? && StatusOf(r) == cfg.reg.ok) &&
      (r.Ok? && StatusOf(r) != cfg.reg.ok ==> res.0 == Some(UnexpectedStatus(StatusOf(r)))) &&
      (r.Err? ==> res.0 == Some(r.error))
  {
    var (r, v1) := Request(cfg, v, ClientIdent(cfg.clientIdInfo));
    match r
    case Err(e) => (Some(e), v1)
    case Ok(reply) =>
      var code := GetStatus(reply).value;
      (if code != cfg.reg.ok then Some(UnexpectedStatus(code)) else None, v1)
  }

  /**
   * `_connect`: after connecting, the greeting must carry the
   * connection-accepted status before CLIENT is sent, and the identification
   * must succeed; the result is the greeting's banner.
   */
  function Connect(cfg: Config, v: View, host: string, port: int): (res: (Result<string, Error>, View))
    ensures res.1.sock == Connected(host, port) && res.1.cached == v.cached
    ensures var greeting := NextReply(cfg, v);
      greeting.Ok? && StatusOf(greeting) == cfg.reg.connectionAccepted ==>
        var (bad, v2) := SendClientIdent(cfg, AfterReply(cfg, v.(sock := Connected(host, port))));
        res == (if bad.Some? then Err(bad.value) else Ok(cfg.greetingContent(greeting.value)), v2)
    ensures var greeting := NextReply(cfg, v);
      (|res.1.sent| > |v.sent| ==>
        greeting.Ok? && StatusOf(greeting) == cfg.reg.connectionAccepted &&
        res.1.sent == v.sent + [ClientIdent(cfg.clientIdInfo)]) &&
      (greeting.Err? ==> res == (Err(greeting.error), AfterReply(cfg, v.(sock := Connected(host, port))))) &&
      (greeting.Ok? && StatusOf(greeting) != cfg.reg.connectionAccepted ==>
        res.0 == Err(UnexpectedStatus(StatusOf(greeting))) && res.1.sent == v.sent)
    ensures res.0.Ok? ==>
      var greeting := NextReply(cfg, v);
      var ack := NextReply(cfg, AfterReply(cfg, v));
      greeting.Ok? && StatusOf(greeting) == cfg.reg.connectionAccepted &&
      ack.Ok? && StatusOf(ack) == cfg.reg.ok &&
      res.0.value == cfg.greetingContent(greeting.value)
  {
    var v0 := v.(sock := Connected(host, port));
    var (greeting, v1) := (NextReply(cfg, v0), AfterReply(cfg, v0));
    match greeting
    case Err(e) => (Err(e), v1)
    case Ok(reply) =>
      var code := GetStatus(reply).value;
      if code != cfg.reg.connectionAccepted then (Err(UnexpectedStatus(code)), v1)
      else
        var (bad, v2) := SendClientIdent(cfg, v1);
        if bad.Some? then (Err(bad.value), v2) else (Ok(cfg.greetingContent(reply)), v2)
  }

  /**
   * `disconnect`: QUIT is sent, and the socket is closed only when the reply
   * carries the closing-connection status; any other reply is the error and
   * leaves the socket as it was.
   */
  function Disconnect(cfg: Config, v: View): (res: (Option<Error>, View))
    ensures res.1.sent == v.sent + [Quit] && res.1.cached == v.cached
    ensures var r := NextReply(cfg, v);
      (res.0.None? <==> r.Ok? && StatusOf(r) == cfg.reg.closingConnection) &&
      (res.1.sock == if res.0.None? then Closed else v.sock) &&
      (r.Ok? && StatusOf(r) != cfg.reg.closingConnection ==> res.0 == Some(UnexpectedQuitReply(r.value))) &&
      (r.Err? ==> res.0 == Some(r.error))
  {
    var (r, v1) := Request(cfg, v, Quit);
    match r
    case Err(e) => (Some(e), v1)
    case Ok(reply) =>
      if GetStatus(reply).value != cfg.reg.closingConnection then (Some(UnexpectedQuitReply(reply)), v1)
      else (None, v1.(sock := Closed))
  }

  /**
   * A server that greets with the connection-accepted status and answers
   * CLIENT with OK, each in one chunk whose status is terminal, takes the
   * client to a connected state that has sent exactly CLIENT.
   */
  lemma HandshakeSucceeds(cfg: Config, v: View, greeting: Bytes, ack: Bytes, rest: seq<Event>, host: string, port: int)
    requires GetStatus(greeting) == Some(cfg.reg.connectionAccepted) && cfg.reg.connectionAccepted in cfg.reg.terminal
    requires GetStatus(ack) == Some(cfg.reg.ok) && cfg.reg.ok in cfg.reg.terminal
    requires v.script == [Ready(greeting), Ready(ack)] + rest
    ensures Connect(cfg, v, host, port) ==
      (Ok(cfg.greetingContent(greeting)),
       v.(sock := Connected(host, port), script := rest, sent := v.sent + [ClientIdent(cfg.clientIdInfo)]))
  {
    assert v.script[1..] == [Ready(ack)] + rest;
    assert v.script[1..][1..] == rest;
  }

  /**
   * A QUIT answered by a single-chunk reply with the closing-connection
   * status closes the socket without error; any other well-formed status
   * leaves the socket as it was and reports the reply.
   */
  lemma QuitReply(cfg: Config, v: View, reply: Bytes, rest: seq<Event>)
    requires GetStatus(reply).Some? && GetStatus(reply).value in cfg.reg.terminal
    requires v.script == [Ready(reply)] + rest
    ensures var (e, v1) := Disconnect(cfg, v);
      v1.script == rest && v1.sent == v.sent + [Quit] &&
      (GetStatus(reply).value == cfg.reg.closingConnection ==> e == None && v1.sock == Closed) &&
      (GetStatus(reply).value != cfg.reg.closingConnection ==> e == Some(UnexpectedQuitReply(reply)) && v1.sock == v.sock)
  {
    assert v.script[1..] == rest;
  }
}
