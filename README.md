# DICT client reply framing, in Dafny

This project models the core of a client for the DICT protocol (RFC 2229). It covers the Python class `DictionaryClient` in `dictionary_client/dictionary_client.py`:

- how a server reply is assembled from socket reads (`_recv_all`);
- when a multi-line reply counts as complete (`_response_complete`);
- how the status code is read (`_get_status`);
- the status checkpoints of the handshake (`_connect`, `_send_client_ident`) and of `disconnect`;
- the compute-once caches behind the `strategies` and `databases` attributes;
- the name checks in `get_db_info`, `define` and `match`.

The socket is replaced by data:

- a *script*: one `Event` per readiness wait, either `Ready(chunk)` (the wait succeeded and `recv` returned `chunk`) or `TimedOut`. A script that has run out stands for a server that sends nothing more, so the next wait times out (a peer that closes the connection is not modelled; see Collect under "## Left out").
- a log of the commands passed to `sendall`, as `Command` values.
- a socket state: unconnected, connected to a host and port, or closed.

The model has five modules:

- `Framing` (`framing.dfy`): bytes, the completeness predicate as the code writes it, and the status code.
- `Protocol` (`protocol.dfy`): events, the status registry, commands and errors.
- `Assembly` (`assembly.dfy`): `Assemble` is reply assembly as a function of the script. The lemmas say what it reads and what it returns.
- `Session` (`session.dfy`): each client operation as a function from the client's state before the call to its result and the state after it. The handshake, cache and validation properties are stated here.
- `Client` (`client.dfy`): the class `DictionaryClient`. Its fields are the socket state, the script, the sent log and the caches. Its methods perform the source's steps in order, including the `while` loop of `_recv_all`. Each method that has a matching `Session` function is proved to produce exactly its result and new state. The others (`SendAll`, `WaitAndRecv`, `SetProperty`, `DeleteProperty`) state their result and new state directly.

The status-code table lives in `status_codes.py`, which is not part of this model. Here it is a `Registry` value:

- the set of codes for which `DictStatusCode.response_complete` holds;
- the codes `CONNECTION_ACCEPTED`, `OK` and `CLOSING_CONNECTION`.

The response classes (`HandshakeResponse`, `ServerPropertiesResponse`, …) are not part of this model either. A reply's status code is taken to be `_get_status` of its bytes. Its decoded content comes from the decoder functions in `Config`.

Some consequences of the code as written:

- Completeness searches for `\r\n250` anywhere in the buffer, not only in its last line. `Framing.BodyLineCompletes` proves the consequence: a body line starting with `250`, followed by any bytes that end in CRLF, counts as complete.
- A first chunk whose status the registry calls complete is returned without checking that it ends in CRLF (`Assembly.TerminalFirstChunk`).
- The model treats a first chunk whose first three bytes are not all ASCII digits as `MalformedStatus`, an error at once, without reading on. Python's `int()` would read some of these chunks, such as `b"22"` or `b"2\r\n"` (see the GetStatus line under "## Left out").
- When the reply to QUIT has the wrong status, `close` is not called. The socket stays as it was.

## Model

| member | source | states |
|---|---|---|
| `Framing.ContainsIff` | dictionary_client/dictionary_client.py:119 | the scan for `b"\r\n250" in response_bytes` succeeds exactly when the pattern occurs at some offset of the buffer |
| `Framing.ResponseComplete` | dictionary_client/dictionary_client.py:118-119 | the completeness test as the code writes it: the buffer starts with "250" or contains "\r\n250", and its last two bytes are CR LF |
| `Framing.ResponseCompleteIff` | dictionary_client/dictionary_client.py:118-119 | a buffer is complete iff it starts with "250" or holds "\r\n250" at some offset, and its last two bytes are CR LF; a buffer shorter than two bytes or not ending in CRLF is never complete |
| `Framing.BodyLineCompletes` | dictionary_client/dictionary_client.py:119 | any buffer holding "\r\n250" followed by any bytes and a final CRLF is complete, wherever that line stands: the check is a substring search, not a test of the last line |
| `Framing.NoLineBreakBefore` | dictionary_client/dictionary_client.py:119 | a buffer whose only CR is among its last two bytes holds no "\r\n250" |
| `Framing.GetStatus` | dictionary_client/dictionary_client.py:115-116 | the status is defined exactly when the first three bytes are ASCII digits |
| `Framing.GetStatusDigits` | dictionary_client/dictionary_client.py:116 | a status that was read is spelled, digit by digit, by the first three bytes of the reply |
| `Framing.GetStatusOfStatusBytes` | dictionary_client/dictionary_client.py:116 | reading the status of a reply that starts with a code's three digits gives back that code, whatever follows |
| `Framing.GetStatusOfPrefix` | dictionary_client/dictionary_client.py:88 | the status depends only on the first three bytes, so appending chunks never changes it |
| `Protocol.FetchCommand` | dictionary_client/dictionary_client.py:54-63 | filling a cache sends SHOW STRATEGIES or SHOW DATABASES and no other command |
| `Assembly.Collect` | dictionary_client/dictionary_client.py:91-99 | the loop consumes a front part of the script; a reply it returns extends what was already read and is complete; its only error is a timeout carrying the first chunk's status |
| `Assembly.Assemble` | dictionary_client/dictionary_client.py:83-99 | assembly consumes a front part of the script; a reply it returns began with a Ready event and has that first chunk's well-formed status; its only errors are a timeout and a malformed status |
| `Assembly.CollectOk` | dictionary_client/dictionary_client.py:91-98 | a reply from the loop is the bytes already read followed by the chunks of the events consumed, in order, and every one of those events was a successful wait |
| `Assembly.CollectErr` | dictionary_client/dictionary_client.py:92-97 | when the loop times out, all the events before the failing wait were successful, and the last consumed event timed out, unless the script ran out |
| `Assembly.CollectNotEarly` | dictionary_client/dictionary_client.py:91 | no buffer the loop held before its result was complete: it stops at the first complete buffer and reads no chunk beyond it |
| `Assembly.AssembleOk` | dictionary_client/dictionary_client.py:83-99 | a reply is the concatenation of the chunks of the k ≥ 1 events read, all of them successful waits |
| `Assembly.AssemblePreliminary` | dictionary_client/dictionary_client.py:87-99 | after a first chunk with a preliminary status, assembly is the loop started from that chunk, and a reply it returns starts with the first chunk and is complete |
| `Assembly.AssembleNotEarly` | dictionary_client/dictionary_client.py:91-99 | with a preliminary first status, no shorter run of the chunks read was complete |
| `Assembly.AssembleErr` | dictionary_client/dictionary_client.py:84-97 | the failures are: a timed-out first wait, giving Timeout with no status and consuming at most that event; a first chunk without a status, after exactly one read; or a timeout in the loop carrying the first chunk's status, which is not terminal |
| `Assembly.FirstWaitTimesOut` | dictionary_client/dictionary_client.py:84-86 | if the first wait fails, the result is a timeout with no status and no chunk is read |
| `Assembly.TerminalFirstChunk` | dictionary_client/dictionary_client.py:87-90 | a first chunk with a terminal status is returned unchanged after one read, whether or not it ends in CRLF, and the rest of the script is left unread |
| `Assembly.TwoChunkReply` | dictionary_client/dictionary_client.py:87-99 | a preliminary status line in one chunk, then a body holding a "250" line and ending in CRLF in the next, are returned joined, with the events after them unread |
| `Session.Request` | dictionary_client/dictionary_client.py:121-123 | sending a command appends it to the log and does not touch the script, so the reply is the next assembled one and the state after it is the state after that read |
| `Session.Cached` | dictionary_client/dictionary_client.py:53 | a listing counts as present when it was stored and is not empty, the truth test on `getattr(obj, private_name, None)` |
| `Session.NotListed` | dictionary_client/dictionary_client.py:133 | a name missing from the database listing is an invalid database, and one missing from the strategy listing an unknown strategy |
| `Session.Access` | dictionary_client/dictionary_client.py:51-66 | a cached, non-empty listing is returned and nothing changes; otherwise exactly the listing's fetch command is sent, one reply is read, and on success its decoded content is stored and returned; on error the cache is untouched |
| `Session.AccessMemoizes` | dictionary_client/dictionary_client.py:53-57 | after a successful read of a non-empty listing, reading it again returns the same listing and changes nothing; at most one fetch was sent; the other listing's cache is unchanged |
| `Session.CheckListed` | dictionary_client/dictionary_client.py:132-133 | the check passes iff the listing was obtained and holds the name, in which case the stored listing holds it; otherwise the error is the fetch's or the not-listed error for that name |
| `Session.CheckUnless` | dictionary_client/dictionary_client.py:140-148 | a name equal to the wildcard is not checked and leaves the state unchanged; any other name is checked against the listing |
| `Session.CheckUnlessPasses` | dictionary_client/dictionary_client.py:140-149 | a name the check lets through is the wildcard or is in the stored listing |
| `Session.CheckStrategyKeepsDatabase` | dictionary_client/dictionary_client.py:146-149 | checking the strategy keeps a database already in the stored database listing there |
| `Session.DbInfo` | dictionary_client/dictionary_client.py:131-134 | get_db_info reads the database listing; a failed read gives its error; a database not listed gives InvalidDatabase with nothing more sent; a listed one sends SHOW INFO and gives its reply; the log is only appended to and the socket is left alone |
| `Session.DbInfoChecksBeforeSending` | dictionary_client/dictionary_client.py:131-134 | an invalid database sends nothing but the fetch of the database listing; SHOW INFO is sent only for a database in the stored listing, and as the last command |
| `Session.Define` | dictionary_client/dictionary_client.py:139-143 | with database "*", define sends DEFINE at once without reading any listing; any other database is looked up in the listing: a failed read gives its error, an unlisted one InvalidDatabase with nothing more sent, a listed one the DEFINE reply; it only appends to the sent log |
| `Session.DefineChecksBeforeSending` | dictionary_client/dictionary_client.py:139-143 | an invalid database sends nothing but a fetch; DEFINE is sent only for "*" or a listed database, and as the last command |
| `Session.Match` | dictionary_client/dictionary_client.py:145-153 | with database "*" and strategy ".", match sends MATCH at once without reading either listing; it only appends to the sent log |
| `Session.MatchDbOutcome` | dictionary_client/dictionary_client.py:146-147 | a database other than "*" fails match with the listing read's error, or with InvalidDatabase when it is not listed, in the state after that read |
| `Session.MatchStrategyOutcome` | dictionary_client/dictionary_client.py:146-153 | once the database passed, strategy "." sends MATCH at once; another strategy fails with the listing read's error, or with UnknownStrategy when not listed; a listed one sends MATCH and gives its reply |
| `Session.MatchRejectSendsOnlyFetches` | dictionary_client/dictionary_client.py:145-149 | when match rejects the database or the strategy, every command it sent is a listing fetch |
| `Session.MatchDbRejected` | dictionary_client/dictionary_client.py:146-147 | a rejected database ends match with the state after the check, which holds no MATCH command |
| `Session.MatchStrategyRejected` | dictionary_client/dictionary_client.py:148-149 | after the database passes, a rejected strategy ends match with the state after both checks, which holds no MATCH command |
| `Session.MatchSendsOnlyChecked` | dictionary_client/dictionary_client.py:145-153 | MATCH is sent only when the database is "*" or in the stored listing and the strategy is "." or in the stored listing, and it is the last command sent |
| `Session.SendClientIdent` | dictionary_client/dictionary_client.py:109-113 | CLIENT is sent and one reply is read; identification succeeds iff that reply has the OK status; another status is an error carrying that code; a read failure is passed on |
| `Session.Connect` | dictionary_client/dictionary_client.py:101-107 | the socket is connected; CLIENT is sent only if the greeting has the connection-accepted status, and then it is the only command sent; another greeting status is an error carrying that code with nothing sent; after an accepted greeting the outcome is that of SendClientIdent: its error, or else the greeting's content; success means both checkpoints passed |
| `Session.Disconnect` | dictionary_client/dictionary_client.py:155-163 | QUIT is sent; the call succeeds and the socket is closed iff the reply has the closing-connection status; another status is an error carrying the reply, with the socket not closed |
| `Session.HandshakeSucceeds` | dictionary_client/dictionary_client.py:101-113 | a server that greets with connection-accepted and answers CLIENT with OK, each in a terminal single chunk, leaves the client connected, having sent exactly CLIENT, with the banner from the greeting |
| `Session.QuitReply` | dictionary_client/dictionary_client.py:155-163 | a single-chunk reply to QUIT with the closing status closes the socket without error; any other status reports the reply and leaves the socket as it was |
| `Client.DictionaryClient.constructor` | dictionary_client/dictionary_client.py:77-80 | a new client has an unconnected socket, has sent nothing and has no cached listings |
| `Client.DictionaryClient.Open` | dictionary_client/dictionary_client.py:77-81 | building a client runs the handshake of Session.Connect on a fresh client and keeps the banner only when it succeeds; host and port default to "localhost" and 2628 |
| `Client.DictionaryClient.WaitAndRecv` | dictionary_client/dictionary_client.py:84-87 | one wait consumes one event; it yields that event's chunk if the socket became readable, and nothing if the wait timed out or the script has run out |
| `Client.DictionaryClient.RecvAll` | dictionary_client/dictionary_client.py:83-99 | the wait/recv loop returns exactly the reply of Assembly.Assemble and consumes exactly the events it consumes |
| `Client.DictionaryClient.Connect` | dictionary_client/dictionary_client.py:101-107 | result and new state are those of Session.Connect |
| `Client.DictionaryClient.SendClientIdent` | dictionary_client/dictionary_client.py:109-113 | result and new state are those of Session.SendClientIdent |
| `Client.DictionaryClient.GetResponse` | dictionary_client/dictionary_client.py:121-123 | the command is appended to the sent log and the result is the next assembled reply |
| `Client.DictionaryClient.GetServerStatus` | dictionary_client/dictionary_client.py:125-126 | sends STATUS and returns its reply |
| `Client.DictionaryClient.GetServerInformation` | dictionary_client/dictionary_client.py:128-129 | sends SHOW SERVER and returns its reply |
| `Client.DictionaryClient.GetHelpText` | dictionary_client/dictionary_client.py:136-137 | sends HELP and returns its reply |
| `Client.DictionaryClient.Property` | dictionary_client/dictionary_client.py:51-66 | reading `strategies` or `databases` has the result and the new state of Session.Access |
| `Client.DictionaryClient.SetProperty` | dictionary_client/dictionary_client.py:44-45 | assigning a listing attribute always fails with the read-only error naming it, and changes nothing |
| `Client.DictionaryClient.DeleteProperty` | dictionary_client/dictionary_client.py:47-48 | deleting a listing attribute always fails with the read-only error naming it, and changes nothing |
| `Client.DictionaryClient.CheckUnless` | dictionary_client/dictionary_client.py:140-149 | the `x != wildcard and x not in listing` test has the result and the new state of Session.CheckUnless |
| `Client.DictionaryClient.GetDbInfo` | dictionary_client/dictionary_client.py:131-134 | result and new state are those of Session.DbInfo |
| `Client.DictionaryClient.Define` | dictionary_client/dictionary_client.py:139-143 | result and new state are those of Session.Define; the database defaults to "*" |
| `Client.DictionaryClient.Match` | dictionary_client/dictionary_client.py:145-153 | result and new state are those of Session.Match; the database defaults to "*" and the strategy to "." |
| `Client.DictionaryClient.Disconnect` | dictionary_client/dictionary_client.py:155-163 | result and new state are those of Session.Disconnect |

## Left out

- Collect: a peer that closes the connection makes `select` report the socket readable and `recv` return `b""` on every turn, so after a preliminary reply the loop at dictionary_client/dictionary_client.py:91-98 never ends and never raises `TimeoutError`. The script is finite, so the model can only hold finitely many `Ready([])` events and always ends with `Timeout(Some(code))` when they run out; its termination comes from the finite script, not from the code.
- Real I/O (`socket`, `select.select`, `sendall`, `recv`, `connect`, `close`) is replaced by the script, the sent log and the socket state. The 5-second wait bound is not modelled; only its outcome, a timed-out event, is.
- `BUF_SIZE`: a chunk in the script may have any length; the 4096-byte bound on `recv` is not modelled.
- Socket-level failures (a refused connection, an `OSError` from `sendall` on a closed socket) are not modelled, so neither is the `ConnectionError` the transport could raise.
- The identification string `client_id_info` comes from `getpass.getuser()`, `socket.gethostname()` and `datetime.now()`. It is a parameter of `Config`.
- The command builders of `commands.py` are not part of this model. A command is a `Command` value, with no wire encoding.
- The response classes of `response.py` are not part of this model. A handshake reply's content and a listing's content come from decoder functions in `Config`. A reply's status is taken to be its first three digits. Errors these classes might raise on odd replies are not modelled.
- `Word` from `word.py` is not part of this model. A word is passed through as a string, and anything `Word` raises is not modelled.
- `DictStatusCode` from `status_codes.py` is not part of this model. Its `response_complete` and its three codes are the fields of `Registry`.
- GetStatus: fails unless the first three bytes are ASCII digits. It does not model how Python's `int()` also accepts shorter buffers, spaces, signs or underscores in those bytes.
- The texts of the exceptions (class name and attribute in the read-only message, the decoded reply in the QUIT message) are modelled as structured `Error` values. A `UnicodeDecodeError` while building the QUIT message is not modelled.
- The Python descriptor machinery (`__set_name__`, attribute lookup) is not modelled. The two cached attributes are one map field, keyed by `Listing`.
