/**
 * Properties of the argument checks: what each entry point accepts, how the
 * two entry points differ, and that `Args::new` lets through argument
 * combinations the command line never produces.
 */
module ArgumentsProperties {
  import opened Wrappers
  import opened Arguments

  /** The length of the longest path in a finite set of paths. */
  ghost function MaxLength(paths: set<Path>): (n: nat)
    ensures forall p :: p in paths ==> |p| <= n
    ensures paths != {} ==> exists p :: p in paths && |p| == n
    decreases paths
  {
    if paths == {} then 0
    else
      var p :| p in paths;
      var rest := MaxLength(paths - {p});
      if |p| <= rest then rest else |p|
  }

  /** A path that does not exist in the given filesystem state. */
  ghost function FreshPath(existing: set<Path>): (p: Path)
    ensures p !in existing
  {
    seq(MaxLength(existing) + 1, _ => '_')
  }

  /** The only filesystem fact the checks read is whether the arguments' own path exists. */
  lemma ChecksReadOnlyOwnPath(args: Args, existing1: set<Path>, existing2: set<Path>)
    requires args.path in existing1 <==> args.path in existing2
    ensures RunChecks(args, existing1) == RunChecks(args, existing2)
  {
  }

  /** A receive request with a missing or empty ticket reports the ticket, whether or not its path exists. */
  lemma TicketCheckPrecedesPathCheck(args: Args, existing: set<Path>)
    requires args.receive && TicketMissing(args.ticket)
    ensures RunChecks(args, existing) == Err(EmptyTicketMessage)
    ensures RunChecks(args, existing + {args.path}) == Err(EmptyTicketMessage)
  {
  }

  /**
   * The command line admits exactly three shapes: send without a ticket,
   * receive with a non-empty ticket into a fresh path, or neither flag and no
   * ticket.
   */
  lemma CliAcceptedShapes(parsed: Args, existing: set<Path>)
    ensures NewCli(parsed, existing).Ok? <==>
              || (parsed.send && !parsed.receive && parsed.ticket.None?)
              || (!parsed.send && parsed.receive && parsed.ticket.Some?
                  && parsed.ticket.value != "" && parsed.path !in existing)
              || (!parsed.send && !parsed.receive && parsed.ticket.None?)
  {
  }

  /** Whatever the command line accepts, `Args::new` accepts with the same result. */
  lemma CliAcceptedImpliesNewAccepted(parsed: Args, existing: set<Path>)
    requires NewCli(parsed, existing).Ok?
    ensures New(parsed.send, parsed.receive, parsed.ticket, parsed.path, existing) == Ok(parsed)
  {
  }

  /** `Args::new` accepts both flags for any non-empty ticket and any path that does not exist. */
  lemma NewAcceptsBothFlagsWithFreshPath(ticket: string, path: Path, existing: set<Path>)
    requires ticket != "" && path !in existing
    ensures New(true, true, Some(ticket), path, existing) == Ok(Args(true, true, Some(ticket), path))
  {
  }

  /**
   * `Args::new` does not apply the send/recv group: in every filesystem
   * state some arguments with both flags set are accepted.
   */
  lemma {:induction false} NewAcceptsBothModes(existing: set<Path>)
    ensures exists args: Args :: args.send && args.receive
              && New(args.send, args.receive, args.ticket, args.path, existing) == Ok(args)
  {
    var path := FreshPath(existing);
    NewAcceptsBothFlagsWithFreshPath("t", path, existing);
    var args := Args(true, true, Some("t"), path);
    assert New(args.send, args.receive, args.ticket, args.path, existing) == Ok(args);
  }

  /** `Args::new` accepts a session with neither flag, whatever path it names. */
  lemma NewAcceptsNoMode(ticket: Option<string>, path: Path, existing: set<Path>)
    ensures New(false, false, ticket, path, existing) == Ok(Args(false, false, ticket, path))
  {
  }

  /**
   * In every filesystem state, `Args::new` accepts arguments that the
   * command line refuses for each of clap's three rules.
   */
  lemma {:induction false} NewSkipsEveryClapRule(existing: set<Path>)
    ensures exists args: Args :: !SendReceiveExclusive(args)
              && New(args.send, args.receive, args.ticket, args.path, existing) == Ok(args)
              && NewCli(args, existing) == Err(UsageExit)
    ensures exists args: Args :: !TicketRequiresReceive(args)
              && New(args.send, args.receive, args.ticket, args.path, existing) == Ok(args)
              && NewCli(args, existing) == Err(UsageExit)
    ensures exists args: Args :: !ReceiveRequiresTicket(args)
              && NewCli(args, existing) == Err(UsageExit)
  {
    var both := Args(true, true, Some("t"), FreshPath(existing));
    assert New(both.send, both.receive, both.ticket, both.path, existing) == Ok(both);
    assert NewCli(both, existing) == Err(UsageExit);
    var stray := Args(true, false, Some("t"), "");
    assert New(stray.send, stray.receive, stray.ticket, stray.path, existing) == Ok(stray);
    assert NewCli(stray, existing) == Err(UsageExit);
    var bare := Args(false, true, None, "");
    assert NewCli(bare, existing) == Err(UsageExit);
  }
}
