/**
 * Which transfer flows a session runs for its arguments (src/app/mod.rs,
 * `process_all`): the receive flow, then the send flow, each guarded by its
 * own flag. The flows themselves are calls into the transfer library and are
 * not modelled; only what they are handed is.
 */
module Session {
  import opened Wrappers
  import opened Arguments
  import opened ArgumentsProperties

  /** One transfer flow with the inputs it receives. */
  datatype Flow =
    | Download(ticket: string, destination: Path)  // `process_recieve`
    | Offer(source: Path)                          // `process_send`

  /**
   * The text `process_recieve` hands to the ticket parser: the ticket, or ""
   * when there is none. The parser is handed "" exactly when the ticket guard
   * of `run_checks` would have refused the ticket.
   */
  function TicketText(args: Args): (t: string)
    ensures t == "" <==> TicketMissing(args.ticket)
    ensures !TicketMissing(args.ticket) ==> t == args.ticket.value
  {
    match args.ticket
    case Some(text) => text
    case None => ""
  }

  /**
   * The flows `process_all` attempts, in order. The receive flow comes first;
   * `downloadSucceeds` is whether it completes (parsing the ticket,
   * downloading within the timeout and writing the destination), which
   * depends on the transfer library and the filesystem. A failed receive flow
   * ends `process_all` before the send flow is attempted.
   */
  function Flows(args: Args, downloadSucceeds: bool): (flows: seq<Flow>)
    ensures |flows| <= 2
    ensures forall i, j :: 0 <= i < j < |flows| ==> flows[i] != flows[j]
    ensures Download(TicketText(args), args.path) in flows <==> args.receive
    ensures Offer(args.path) in flows <==> args.send && (!args.receive || downloadSucceeds)
    ensures forall f :: f in flows ==> f == Download(TicketText(args), args.path) || f == Offer(args.path)
    ensures args.receive ==> flows[0] == Download(TicketText(args), args.path)
  {
    if args.receive then
      [Download(TicketText(args), args.path)] + (if downloadSucceeds && args.send then [Offer(args.path)] else [])
    else if args.send then
      [Offer(args.path)]
    else
      []
  }

  /** A download started from checked arguments gets a non-empty ticket and a fresh destination. */
  lemma CheckedDownloadIsReady(args: Args, existing: set<Path>, downloadSucceeds: bool)
    requires RunChecks(args, existing).Ok?
    ensures forall f :: f in Flows(args, downloadSucceeds) && f.Download? ==>
              f.ticket != "" && f.destination !in existing
  {
  }

  /** A session started from the command line runs at most one flow. */
  lemma CliSessionRunsAtMostOneFlow(parsed: Args, existing: set<Path>, downloadSucceeds: bool)
    requires NewCli(parsed, existing).Ok?
    ensures |Flows(parsed, downloadSucceeds)| <= 1
  {
  }

  /** When the receive flow fails, the send flow is never attempted. */
  lemma FailedDownloadSkipsOffer(args: Args)
    requires args.receive
    ensures Flows(args, false) == [Download(TicketText(args), args.path)]
  {
  }

  /**
   * A session built through `Args::new` can attempt both flows, downloading
   * into its path and, once that succeeds, offering that same path, in every
   * filesystem state.
   */
  lemma {:induction false} NewSessionCanRunBothFlows(existing: set<Path>)
    ensures exists args: Args ::
              New(args.send, args.receive, args.ticket, args.path, existing) == Ok(args)
              && Flows(args, true) == [Download(TicketText(args), args.path), Offer(args.path)]
  {
    var args := Args(true, true, Some("t"), FreshPath(existing));
    assert New(args.send, args.receive, args.ticket, args.path, existing) == Ok(args);
    assert Flows(args, true) == [Download("t", args.path), Offer(args.path)];
  }
}
