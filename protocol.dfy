/**
 * The vocabulary shared by the reply assembler and the client session: the
 * scripted socket, the status registry, the commands a client sends and the
 * errors it raises.
 */
module Protocol {
  import opened Wrappers
  import opened Framing

  /** The DICT port a client connects to unless told otherwise. */
  const DEFAULT_PORT: int := 2628

  /**
   * The outcome of one readiness wait on the socket: data became readable and
   * `recv` returned `chunk`, or the wait timed out.
   */
  datatype Event = Ready(chunk: Bytes) | TimedOut

  /**
   * What the client needs from its status-code table: the codes whose reply is
   * complete with its first chunk, and the three codes its checkpoints expect
   * (RFC 2229 gives them as 220, 250 and 221).
   */
  datatype Registry = Registry(
    terminal: set<Status>,
    connectionAccepted: Status,
    ok: Status,
    closingConnection: Status)

  /** The two server listings a client caches. */
  datatype Listing = Strategies | Databases

  /** A server listing: a name-keyed table of descriptions. */
  type Properties = map<string, string>

  /** The commands a client sends; their wire encoding is not modelled. */
  datatype Command =
    | ClientIdent(info: string)
    | ShowStrategies
    | ShowDatabases
    | ShowInfo(db: string)
    | DefineWord(word: string, db: string)
    | MatchWord(word: string, db: string, strategy: string)
    | ServerStatus
    | ShowServer
    | Help
    | Quit

  /** The command that fetches a listing. */
  function FetchCommand(which: Listing): (c: Command)
    ensures c == ShowStrategies || c == ShowDatabases
  {
    match which
    case Strategies => ShowStrategies
    case Databases => ShowDatabases
  }

  /** The attribute name under which a listing is exposed. */
  function ListingName(which: Listing): string
  {
    match which
    case Strategies => "strategies"
    case Databases => "databases"
  }

  datatype Error =
    /** No data within a wait: before any reply (None) or after a preliminary reply with this status. */
    | Timeout(pending: Option<Status>)
    /** The reply did not start with three decimal digits. */
    | MalformedStatus
    /** A well-formed status that a handshake checkpoint did not expect. */
    | UnexpectedStatus(code: Status)
    /** The reply to QUIT did not carry the closing-connection status. */
    | UnexpectedQuitReply(reply: Bytes)
    | InvalidDatabase(db: string)
    | UnknownStrategy(strategy: string)
    /** An attempt to assign or delete a cached listing attribute. */
    | ReadOnlyAttribute(name: string)
}
