/**
 The connection form shown before a game: a nickname, a host and a port.
 Pressing "Connect" checks the three fields in order and, when all pass,
 opens a connection and constructs the client.
 */
module ClientLauncher {
  import opened Wrappers
  import opened JavaInt
  import PokerClient

  const DEFAULT_NAME: string := "Unnamed"
  const DEFAULT_HOST: string := "localhost"
  const DEFAULT_PORT: int := 3232
  const MIN_NAME_LENGTH: int := 3
  const MAX_NAME_LENGTH: int := 10

  /** The value held by the port spinner: normally an `Integer`, but not necessarily. */
  datatype PortValue = IntPort(port: I32) | NotAnInteger

  datatype Form = Form(name: string, host: string, port: PortValue)

  /** The three refusals, in the order they are checked. */
  datatype FormError = InvalidName | InvalidHost | InvalidPort

  function ErrorTitle(e: FormError): string {
    match e
    case InvalidName => "Invalid Name"
    case InvalidHost => "Invalid Host"
    case InvalidPort => "Invalid Port"
  }

  function ErrorMessage(e: FormError): string {
    match e
    case InvalidName => "Enter a name between 3 and 10 characters long."
    case InvalidHost => "Enter a valid host (IP address)"
    case InvalidPort => "Enter a valid port (default 3232)"
  }

  predicate NameOk(name: string) {
    MIN_NAME_LENGTH <= |name| <= MAX_NAME_LENGTH
  }

  predicate HostOk(host: string) {
    |host| != 0
  }

  predicate PortOk(port: PortValue) {
    port.IntPort? && port.port >= 0
  }

  /** The form as it opens. */
  function DefaultForm(): (f: Form)
    ensures f.name == DEFAULT_NAME && f.host == DEFAULT_HOST && f.port == IntPort(DEFAULT_PORT)
  {
    Form(DEFAULT_NAME, DEFAULT_HOST, IntPort(DEFAULT_PORT))
  }

  /**
   The checks of the Connect button: name length, then host, then port. The
   first failing check decides the error; a form passing all three is
   returned unchanged for the connection attempt.
   */
  function Validate(f: Form): (r: Result<Form, FormError>)
    ensures r.Ok? <==> NameOk(f.name) && HostOk(f.host) && PortOk(f.port)
    ensures r.Ok? ==> r.value == f
    ensures r == Err(InvalidName) <==> !NameOk(f.name)
    ensures r == Err(InvalidHost) <==> NameOk(f.name) && !HostOk(f.host)
    ensures r == Err(InvalidPort) <==> NameOk(f.name) && HostOk(f.host) && !PortOk(f.port)
  {
    var len := |f.name|;
    if len < MIN_NAME_LENGTH || len > MAX_NAME_LENGTH then Err(InvalidName)
    else if |f.host| == 0 then Err(InvalidHost)
    else if !f.port.IntPort? || f.port.port < 0 then Err(InvalidPort)
    else Ok(f)
  }

  /** The form's defaults pass every check. */
  lemma DefaultsPass()
    ensures Validate(DefaultForm()) == Ok(DefaultForm())
  {
  }

  /** The largest port a socket accepts; larger ones make the socket constructor throw. */
  const MAX_SOCKET_PORT: int := 65535

  /** An error dialog: its window title and its message. */
  datatype Dialog = Dialog(title: string, message: string)

  /** The dialog shown for a refused form. */
  function FormErrorDialog(e: FormError): Dialog {
    Dialog(ErrorTitle(e), ErrorMessage(e))
  }

  /** The title of both connection error dialogs. */
  const CONNECT_ERROR_TITLE: string := "Error"

  /** What pressing Connect leaves behind. */
  datatype Outcome = Outcome(dialog: Option<Dialog>, formVisible: bool, wire: seq<PokerClient.Wire>, clientStarted: bool)

  /**
   Pressing Connect. A refused form shows its error and stays open without
   touching the network. A port above 65535 passes the checks, but the socket
   constructor then throws an exception neither handler catches: the press
   ends with no dialog, the form still open and nothing written. Otherwise a
   socket is opened (`socketOpens` says whether that succeeds) and the client
   is constructed over `link`; a failure shows an error dialog, and in every
   case the form is then hidden.
   */
  function PressConnect(f: Form, socketOpens: bool, link: PokerClient.Link): (o: Outcome)
    ensures Validate(f).Err? ==>
              o == Outcome(Some(FormErrorDialog(Validate(f).error)), true, [], false)
    ensures Validate(f).Ok? && f.port.port > MAX_SOCKET_PORT ==> o == Outcome(None, true, [], false)
    ensures Validate(f).Ok? && f.port.port <= MAX_SOCKET_PORT ==> !o.formVisible
    ensures o.clientStarted <==>
              Validate(f).Ok? && f.port.port <= MAX_SOCKET_PORT && socketOpens && PokerClient.Connect(link, f.name).1.Ok?
    ensures o.clientStarted ==> o.dialog == None
    ensures Validate(f).Ok? && f.port.port <= MAX_SOCKET_PORT && !socketOpens ==>
              o == Outcome(Some(Dialog(CONNECT_ERROR_TITLE, "Connection failed!")), false, [], false)
    ensures Validate(f).Ok? && f.port.port <= MAX_SOCKET_PORT && socketOpens ==>
              o.wire == PokerClient.Connect(link, f.name).0
    ensures Validate(f).Ok? && f.port.port <= MAX_SOCKET_PORT && socketOpens && PokerClient.Connect(link, f.name).1.Err? ==>
              o.dialog == Some(Dialog(CONNECT_ERROR_TITLE, "Error connecting: " + PokerClient.Connect(link, f.name).1.error))
  {
    match Validate(f)
    case Err(e) => Outcome(Some(FormErrorDialog(e)), true, [], false)
    case Ok(_) =>
      if f.port.port > MAX_SOCKET_PORT then Outcome(None, true, [], false)
      else if !socketOpens then Outcome(Some(Dialog(CONNECT_ERROR_TITLE, "Connection failed!")), false, [], false)
      else
        var (wire, result) := PokerClient.Connect(link, f.name);
        match result
        case Err(m) => Outcome(Some(Dialog(CONNECT_ERROR_TITLE, "Error connecting: " + m)), false, wire, false)
        case Ok(_) => Outcome(None, false, wire, true)
  }

  /**
   A port the socket refuses passes every check of the form, and the press
   then leaves the user with no answer at all: no dialog, no client, and the
   form still showing.
   */
  lemma LargePortUnanswered(socketOpens: bool, link: PokerClient.Link)
    ensures var f := Form("Alice", "localhost", IntPort(70000));
            && Validate(f) == Ok(f)
            && PressConnect(f, socketOpens, link) == Outcome(None, true, [], false)
  {
  }

  /** The port check with the socket's upper bound added. */
  predicate PortInSocketRange(port: PortValue) {
    port.IntPort? && 0 <= port.port <= MAX_SOCKET_PORT
  }

  /**
   The checks of the Connect button with the port bounded by 65535 as well, so
   that the "Invalid Port" message also covers ports the socket refuses.
   */
  function ValidateChecked(f: Form): (r: Result<Form, FormError>)
    ensures r.Ok? <==> NameOk(f.name) && HostOk(f.host) && PortInSocketRange(f.port)
    ensures r.Ok? ==> r.value == f
    ensures r == Err(InvalidName) <==> !NameOk(f.name)
    ensures r == Err(InvalidHost) <==> NameOk(f.name) && !HostOk(f.host)
    ensures r == Err(InvalidPort) <==> NameOk(f.name) && HostOk(f.host) && !PortInSocketRange(f.port)
  {
    match Validate(f)
    case Err(e) => Err(e)
    case Ok(_) => if f.port.port > MAX_SOCKET_PORT then Err(InvalidPort) else Ok(f)
  }

  /** Pressing Connect with the bounded port check in front of the socket. */
  function PressConnectChecked(f: Form, socketOpens: bool, link: PokerClient.Link): (o: Outcome)
    ensures ValidateChecked(f).Err? ==>
              o == Outcome(Some(FormErrorDialog(ValidateChecked(f).error)), true, [], false)
    ensures ValidateChecked(f).Ok? ==> o == PressConnect(f, socketOpens, link)
  {
    match ValidateChecked(f)
    case Err(e) => Outcome(Some(FormErrorDialog(e)), true, [], false)
    case Ok(_) => PressConnect(f, socketOpens, link)
  }

  /**
   With the bounded check every press is answered: an error dialog, or a
   started client, and the form is hidden exactly when the checks pass.
   */
  lemma CheckedConnectAlwaysAnswers(f: Form, socketOpens: bool, link: PokerClient.Link)
    ensures var o := PressConnectChecked(f, socketOpens, link);
            && (o.dialog.Some? || o.clientStarted)
            && (o.formVisible <==> ValidateChecked(f).Err?)
  {
  }
}
