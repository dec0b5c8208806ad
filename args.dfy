/**
 * The command-line arguments of the file-exchange tool and the checks that
 * decide whether they may start a session (src/utils/args.rs).
 *
 * Whether a path exists on disk is not read here: every check takes the set
 * of paths that currently exist as an explicit input.
 */
module Arguments {
  import opened Wrappers

  /** A filesystem path as the user wrote it. */
  type Path = string

  /** The parsed arguments: two mode flags, an optional ticket and one path. */
  datatype Args = Args(send: bool, receive: bool, ticket: Option<string>, path: Path)

  /** The error raised when receiving without a usable ticket. */
  const EmptyTicketMessage: string := "A non-empty ticket must be specified."

  /** The error raised when the receiving destination already exists (spelling as in the program). */
  const ExistingPathMessage: string := "The recieving path can't be an existing one."

  /** Why `Args::new_cli` did not hand back arguments. */
  datatype CliFailure =
    | UsageExit              // clap refused the command line and ended the process
    | Invalid(message: string)  // the arguments parsed but failed the checks

  /** A ticket that is absent or empty counts as missing. */
  predicate TicketMissing(ticket: Option<string>)
  {
    ticket.None? || ticket.value == ""
  }

  /**
   * What a receive session needs before any network activity: a non-empty
   * ticket and a destination that does not exist yet. Sessions that do not
   * receive need nothing.
   */
  predicate ReceiveReady(args: Args, existing: set<Path>)
  {
    args.receive ==> args.ticket.Some? && |args.ticket.value| > 0 && args.path !in existing
  }

  /**
   * `Args::run_checks`: the ticket guard first, then the destination guard.
   * It accepts exactly the arguments that are ready to receive (or do not
   * receive at all), and when both guards fail it reports the ticket.
   */
  function RunChecks(args: Args, existing: set<Path>): (r: Result<(), string>)
    ensures r.Ok? <==> ReceiveReady(args, existing)
    ensures !args.receive ==> r.Ok?
    ensures r == Err(EmptyTicketMessage) <==> args.receive && TicketMissing(args.ticket)
    ensures r == Err(ExistingPathMessage) <==>
              args.receive && !TicketMissing(args.ticket) && args.path in existing
    ensures r.Err? ==> r.error == EmptyTicketMessage || r.error == ExistingPathMessage
  {
    if args.receive && TicketMissing(args.ticket) then
      Err(EmptyTicketMessage)
    else if args.receive && args.path in existing then
      Err(ExistingPathMessage)
    else
      Ok(())
  }

  /**
   * `Args::new`: builds the record from its four fields and returns it
   * untouched when the checks pass; the check's error is passed on as is.
   * No clap rule is applied on this path.
   */
  function New(send: bool, receive: bool, ticket: Option<string>, path: Path, existing: set<Path>)
    : (r: Result<Args, string>)
    ensures r.Ok? <==> ReceiveReady(Args(send, receive, ticket, path), existing)
    ensures r.Ok? ==> r.value.send == send && r.value.receive == receive
                      && r.value.ticket == ticket && r.value.path == path
    ensures r.Err? ==> r.error == RunChecks(Args(send, receive, ticket, path), existing).error
  {
    var args := Args(send, receive, ticket, path);
    match RunChecks(args, existing)
    case Err(e) => Err(e)
    case Ok(_) => Ok(args)
  }

  /** `group = "send/recv"`: at most one of `--send` and `--receive` (the group is not required). */
  predicate SendReceiveExclusive(args: Args)
  {
    !(args.send && args.receive)
  }

  /** `requires = "ticket"` on `--receive`. */
  predicate ReceiveRequiresTicket(args: Args)
  {
    args.receive ==> args.ticket.Some?
  }

  /** `requires = "receive"` on `--ticket`. */
  predicate TicketRequiresReceive(args: Args)
  {
    args.ticket.Some? ==> args.receive
  }

  /** The command lines clap turns into `Args` instead of exiting with a usage error. */
  predicate ClapAccepts(args: Args)
  {
    SendReceiveExclusive(args) && ReceiveRequiresTicket(args) && TicketRequiresReceive(args)
  }

  /**
   * `Args::new_cli`: `parsed` holds the values clap read from the command
   * line. clap's own rules come first, then the same checks as `Args::new`.
   */
  function NewCli(parsed: Args, existing: set<Path>): (r: Result<Args, CliFailure>)
    ensures r.Ok? ==> r.value == parsed
    ensures r.Ok? ==> !(parsed.send && parsed.receive)
    ensures r.Ok? ==> (parsed.receive <==> parsed.ticket.Some?)
    ensures r.Ok? <==> ClapAccepts(parsed) && ReceiveReady(parsed, existing)
    ensures r == Err(UsageExit) <==> !ClapAccepts(parsed)
    ensures r.Err? && r.error.Invalid? ==>
              r.error.message == RunChecks(parsed, existing).error
  {
    if !ClapAccepts(parsed) then
      Err(UsageExit)
    else
      match RunChecks(parsed, existing)
      case Err(e) => Err(Invalid(e))
      case Ok(_) => Ok(parsed)
  }
}
