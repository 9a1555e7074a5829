/** The optional value used by the lookup tables and the string searches. */
module Wrappers {

  datatype Option<+T> = None | Some(value: T)
}

/**
 * The vocabulary of the STOMP 1.2 frame codec: commands, header names,
 * error codes, the frame value and the fixed string tables that map
 * commands and header names to their wire spelling and back.
 */
module StompTypes {

  import opened Wrappers

  /** The commands of STOMP 1.2, plus `Unknown` for a frame that holds nothing. */
  datatype StompCommand =
    | Abort | Ack | Begin | Commit | Connect | Connected | Disconnect | Error
    | Message | Nack | Receipt | Send | Stomp | Subscribe | Unsubscribe
    | Unknown

  /** The header names the codec recognises, plus `Unknown`. */
  datatype StompHeader =
    | AcceptVersion | Ack | ContentLength | ContentType | Destination
    | HeartBeat | Host | Id | Login | Message | MessageId | Passcode
    | Receipt | ReceiptId | Session | Subscription | Transaction | Server
    | Version | Unknown

  /**
   * The outcome of parsing a frame. `Ok` is the only success code.
   * `ErrorBodyEmpty` is part of the enumeration but is never produced.
   */
  datatype StompError =
    | Ok
    | ErrorCommandInvalid
    | ErrorHeaderMissing
    | ErrorHeaderEmpty
    | ErrorHeaderMissingNewLine
    | ErrorHeaderInvalidKey
    | ErrorHeaderEmptyValue
    | ErrorHeaderMissingSemicolon
    | ErrorHeaderContentLength
    | ErrorBodyNoNewLine
    | ErrorBodyEmpty
    | ErrorBodyLength
    | ErrorBodyMissingNull
    | ErrorWrongSymbolAfterBody
    | ErrorUnknown

  /** A map keyed by header name: at most one value per header kind. */
  type Headers = map<StompHeader, string>

  /** The value held by a frame object: its command, headers and body. */
  datatype Frame = Frame(command: StompCommand, headers: Headers, body: string)

  /** What a default-constructed or failed frame holds. */
  const EmptyFrame: Frame := Frame(StompCommand.Unknown, map[], [])

  /** The wire spelling of a command. */
  function CommandString(c: StompCommand): (s: string)
    ensures s != [] && '\n' !in s
  {
    match c
    case Abort => "ABORT"
    case Ack => "ACK"
    case Begin => "BEGIN"
    case Commit => "COMMIT"
    case Connect => "CONNECT"
    case Connected => "CONNECTED"
    case Disconnect => "DISCONNECT"
    case Error => "ERROR"
    case Message => "MESSAGE"
    case Nack => "NACK"
    case Receipt => "RECEIPT"
    case Send => "SEND"
    case Stomp => "STOMP"
    case Subscribe => "SUBSCRIBE"
    case Unsubscribe => "UNSUBSCRIBE"
    case Unknown => "UNKNOWN COMMAND"
  }

  /** The reverse lookup of the command table: exact, case-sensitive match. */
  function CommandFromString(s: string): Option<StompCommand> {
    if s == "ABORT" then Some(StompCommand.Abort)
    else if s == "ACK" then Some(StompCommand.Ack)
    else if s == "BEGIN" then Some(StompCommand.Begin)
    else if s == "COMMIT" then Some(StompCommand.Commit)
    else if s == "CONNECT" then Some(StompCommand.Connect)
    else if s == "CONNECTED" then Some(StompCommand.Connected)
    else if s == "DISCONNECT" then Some(StompCommand.Disconnect)
    else if s == "ERROR" then Some(StompCommand.Error)
    else if s == "MESSAGE" then Some(StompCommand.Message)
    else if s == "NACK" then Some(StompCommand.Nack)
    else if s == "RECEIPT" then Some(StompCommand.Receipt)
    else if s == "SEND" then Some(StompCommand.Send)
    else if s == "STOMP" then Some(StompCommand.Stomp)
    else if s == "SUBSCRIBE" then Some(StompCommand.Subscribe)
    else if s == "UNSUBSCRIBE" then Some(StompCommand.Unsubscribe)
    else if s == "UNKNOWN COMMAND" then Some(StompCommand.Unknown)
    else None
  }

  /** The wire spelling of a header name. */
  function HeaderString(h: StompHeader): (s: string)
    ensures s != [] && '\n' !in s && ':' !in s
  {
    match h
    case AcceptVersion => "accept-version"
    case Ack => "ack"
    case ContentLength => "content-length"
    case ContentType => "content-type"
    case Destination => "destination"
    case HeartBeat => "heart-beat"
    case Host => "host"
    case Id => "id"
    case Login => "login"
    case Message => "message"
    case MessageId => "message-id"
    case Passcode => "passcode"
    case Receipt => "receipt"
    case ReceiptId => "receipt-id"
    case Session => "session"
    case Subscription => "subscription"
    case Transaction => "transaction"
    case Server => "server"
    case Version => "version"
    case Unknown => "unknown header"
  }

  /** The reverse lookup of the header table: exact, case-sensitive match. */
  function HeaderFromString(s: string): Option<StompHeader> {
    if s == "accept-version" then Some(StompHeader.AcceptVersion)
    else if s == "ack" then Some(StompHeader.Ack)
    else if s == "content-length" then Some(StompHeader.ContentLength)
    else if s == "content-type" then Some(StompHeader.ContentType)
    else if s == "destination" then Some(StompHeader.Destination)
    else if s == "heart-beat" then Some(StompHeader.HeartBeat)
    else if s == "host" then Some(StompHeader.Host)
    else if s == "id" then Some(StompHeader.Id)
    else if s == "login" then Some(StompHeader.Login)
    else if s == "message" then Some(StompHeader.Message)
    else if s == "message-id" then Some(StompHeader.MessageId)
    else if s == "passcode" then Some(StompHeader.Passcode)
    else if s == "receipt" then Some(StompHeader.Receipt)
    else if s == "receipt-id" then Some(StompHeader.ReceiptId)
    else if s == "session" then Some(StompHeader.Session)
    else if s == "subscription" then Some(StompHeader.Subscription)
    else if s == "transaction" then Some(StompHeader.Transaction)
    else if s == "server" then Some(StompHeader.Server)
    else if s == "version" then Some(StompHeader.Version)
    else if s == "unknown header" then Some(StompHeader.Unknown)
    else None
  }

  /** Every command's spelling looks up to that command. */
  lemma CommandTableRoundTrip(c: StompCommand)
    ensures CommandFromString(CommandString(c)) == Some(c)
  {
    match c
    case Abort => case Ack => case Begin => case Commit => case Connect =>
    case Connected => case Disconnect => case Error => case Message =>
    case Nack => case Receipt => case Send => case Stomp => case Subscribe =>
    case Unsubscribe => case Unknown =>
  }

  /**
   * The command lookup is exact: a found command is spelled `s`, and no
   * command is spelled `s` when none is found.
   */
  lemma CommandFromStringSound(s: string)
    ensures CommandFromString(s).Some? ==> CommandString(CommandFromString(s).value) == s
    ensures CommandFromString(s).None? ==> forall c :: CommandString(c) != s
  {
    forall c | CommandString(c) == s
      ensures CommandFromString(s).Some?
    {
      CommandTableRoundTrip(c);
    }
  }

  /** Every header name's spelling looks up to that header name. */
  lemma HeaderTableRoundTrip(h: StompHeader)
    ensures HeaderFromString(HeaderString(h)) == Some(h)
  {
    if h in EarlyHeaders {
      EarlyHeadersRoundTrip(h);
    } else {
      LateHeadersRoundTrip(h);
    }
  }

  /** The first ten rows of the header table. */
  const EarlyHeaders: set<StompHeader> := {
    StompHeader.AcceptVersion, StompHeader.Ack, StompHeader.ContentLength,
    StompHeader.ContentType, StompHeader.Destination, StompHeader.HeartBeat,
    StompHeader.Host, StompHeader.Id, StompHeader.Login, StompHeader.Message
  }

  lemma EarlyHeadersRoundTrip(h: StompHeader)
    requires h in EarlyHeaders
    ensures HeaderFromString(HeaderString(h)) == Some(h)
  {
    match h
    case AcceptVersion => case Ack => case ContentLength => case ContentType =>
    case Destination => case HeartBeat => case Host => case Id => case Login =>
    case Message =>
    case _ => assert false;
  }

  lemma LateHeadersRoundTrip(h: StompHeader)
    requires h !in EarlyHeaders
    ensures HeaderFromString(HeaderString(h)) == Some(h)
  {
    match h
    case MessageId => case Passcode => case Receipt =>
    case ReceiptId => case Session => case Subscription => case Transaction =>
    case Server => case Version => case Unknown =>
    case _ => assert false;
  }

  /**
   * The header lookup is exact: a found header name is spelled `s`, and no
   * header name is spelled `s` when none is found.
   */
  lemma HeaderFromStringSound(s: string)
    ensures HeaderFromString(s).Some? ==> HeaderString(HeaderFromString(s).value) == s
    ensures HeaderFromString(s).None? ==> forall h :: HeaderString(h) != s
  {
    forall h | HeaderString(h) == s
      ensures HeaderFromString(s).Some?
    {
      HeaderTableRoundTrip(h);
    }
  }

  /**
   * The headers a frame with command `c` must carry. `Unknown` has no row:
   * validation rejects it before this table is consulted.
   */
  function RequiredHeaders(c: StompCommand): set<StompHeader> {
    match c
    case Connect | Stomp => {StompHeader.AcceptVersion, StompHeader.Host}
    case Connected => {StompHeader.Version}
    case Send => {StompHeader.Destination}
    case Subscribe => {StompHeader.Destination, StompHeader.Id}
    case Unsubscribe | Ack | Nack => {StompHeader.Id}
    case Begin | Commit | Abort => {StompHeader.Transaction}
    case Message => {StompHeader.Destination, StompHeader.MessageId, StompHeader.Subscription}
    case Receipt => {StompHeader.ReceiptId}
    case Disconnect | Error | Unknown => {}
  }
}
