# Argument validation of iroh-cli

iroh-cli sends and receives one file peer to peer. A sender offers a local file and gets a ticket. A receiver passes that ticket on the command line and downloads the file into a new path. Before any network activity, the tool checks its arguments. This project models that check (`src/utils/args.rs`) and proves what it accepts.

The two entry points are:

- `Args::new_cli` reads the command line through clap. clap applies three rules from the field attributes:
  - `--send` and `--receive` are mutually exclusive;
  - `--receive` requires `--ticket`;
  - `--ticket` requires `--receive`.
  
  Then `run_checks` runs.
- `Args::new` builds the record from four values given by a program. It runs only `run_checks`.

`run_checks` applies two guards, in this order:

1. A receive session needs a ticket that is present and non-empty.
2. A receive session's destination must not already exist.

Each guard fails with its own literal message.

The model also covers what the session does with checked arguments (`process_all` in `src/app/mod.rs`). It records which transfer flows are attempted, in which order, and with which ticket text and path. Whether the receive flow succeeds is an input, because a failed receive flow ends the session before the send flow. The flows themselves are not modelled.

Files:

- `wrappers.dfy` holds `Option` and `Result`.
- `args.dfy` (module `Arguments`) holds the record, the checks and both constructors.
- `args_properties.dfy` (module `ArgumentsProperties`) holds the lemmas that relate the entry points.
- `session.dfy` (module `Session`) holds the flow dispatch.

Modelling choices:

- The filesystem is an input. `existing: set<Path>` is the set of paths for which `path.exists()` returns true. A path is the string the user wrote, and no normalisation is applied.
- An `anyhow` error is its message string. The messages are the constants `EmptyTicketMessage` and `ExistingPathMessage`. The second keeps the program's spelling "recieving".
- When clap rejects a command line, `Args::parse` ends the process with a usage error, so `new_cli` never returns. The model gives that outcome the value `CliFailure.UsageExit`.
- clap's `String` value parser accepts an empty value. So `--receive --ticket ""` passes clap, and `run_checks` then rejects it.
- The send/recv group is not marked required. So clap accepts a command line with neither flag. A session with neither flag runs no flow and shuts down. One might expect exactly one flag to be required, but the code accepts neither. The model follows the code: `CliAcceptedShapes` lists the neither-flag shape as accepted.
- `process_recieve` tests `self.args.recieve` (src/app/mod.rs:54). `Args` has no such field; its field is `receive` (src/utils/args.rs:12). So that file does not compile as written. `Session.Flows` reads the line as the evidently intended `receive`.

## Model

| member | source | states |
|---|---|---|
| Arguments.RunChecks | src/utils/args.rs:24-34 | accepts exactly when a receive session has a non-empty ticket and a destination that does not exist; never fails without receive; reports the ticket message exactly when receive has a missing or empty ticket (so it takes precedence over the path guard), and the path message exactly when the ticket is usable but the path exists; no other error |
| Arguments.New | src/utils/args.rs:45-61 | succeeds exactly when the receive-readiness conditions hold; on success returns a record whose four fields are the arguments given; on failure passes on the check's message unchanged |
| Arguments.NewCli | src/utils/args.rs:7-42 | on success returns the parsed record unchanged, with at most one mode flag and with receive set exactly when a ticket is present; succeeds exactly when clap's three rules and the checks all hold; clap's rejection (usage exit) happens exactly when one of clap's rules is broken; otherwise the failure carries the check's message |
| ArgumentsProperties.ChecksReadOnlyOwnPath | src/utils/args.rs:29 | the only filesystem fact the checks depend on is whether the arguments' own path exists |
| ArgumentsProperties.TicketCheckPrecedesPathCheck | src/utils/args.rs:25-31 | a receive request with a missing or empty ticket reports the ticket message both when its path is absent and when it exists |
| ArgumentsProperties.CliAcceptedShapes | src/utils/args.rs:7-16 | the command line accepts exactly three shapes: send without a ticket; receive with a non-empty ticket into a fresh path; neither flag and no ticket |
| ArgumentsProperties.CliAcceptedImpliesNewAccepted | src/utils/args.rs:36-61 | anything `new_cli` accepts, `new` accepts with the same record |
| ArgumentsProperties.NewAcceptsBothModes | src/utils/args.rs:45-61 | in every filesystem state there are arguments with both send and receive set that `new` accepts unchanged |
| ArgumentsProperties.NewAcceptsBothFlagsWithFreshPath | src/utils/args.rs:45-61 | `new` accepts both flags unchanged for any non-empty ticket and any path that does not exist |
| ArgumentsProperties.NewAcceptsNoMode | src/utils/args.rs:45-61 | `new` with neither flag is accepted for any ticket and any path, existing or not |
| ArgumentsProperties.NewSkipsEveryClapRule | src/utils/args.rs:7-16 | in every filesystem state, `new` accepts arguments that break the send/recv group and arguments that carry a ticket without receive, while `new_cli` rejects them; receive without a ticket is also rejected by clap |
| Session.TicketText | src/app/mod.rs:62-64 | the ticket parser is handed the empty string exactly when the ticket guard of `run_checks` would refuse the ticket (absent or empty); otherwise it is handed the ticket itself |
| Session.Flows | src/app/mod.rs:46-98 | the flows `process_all` attempts, in order: the download exactly when receive is set, and always first; the offer exactly when send is set and either receive is not set or the download succeeded; no flow twice, so at most these two; the download gets the ticket text and the path as destination, and the offer gets the path as source |
| Session.FailedDownloadSkipsOffer | src/app/mod.rs:46-51 | when the receive flow fails, the download is the only flow attempted, whatever the send flag says |
| Session.CheckedDownloadIsReady | src/app/mod.rs:53-64 | a download started from arguments that passed the checks is handed a non-empty ticket and a destination that does not exist |
| Session.CliSessionRunsAtMostOneFlow | src/app/mod.rs:46-51 | a session whose arguments came from the command line attempts at most one flow, whether or not a download succeeds |
| Session.NewSessionCanRunBothFlows | src/app/mod.rs:46-51 | in every filesystem state, a session built through `new` can download into a fresh path and, once that succeeds, offer that same path |

## Left out

- The transfer flows are not modelled. This covers downloading with its 5-second timeout, writing the destination file, ingesting the source, minting and printing the ticket, and waiting for an interrupt (src/app/mod.rs:58-118). Each step is an asynchronous call into the iroh and iroh-blobs libraries, the filesystem or the clock.
- The ticket encoding and decoding (`BlobTicket`) belong to the iroh-blobs library. Their round trip is not part of this model.
- Endpoint, router and worker-pool startup and shutdown (src/utils/data.rs) are calls on library handles and are not modelled.
- clap's parsing of the raw command line is not modelled. Only its accept/reject effect on the parsed values is (`ClapAccepts`). This leaves out repeated flags, unknown flags and the missing positional path.
- Session.Flows: whether the receive flow succeeds is an input (`downloadSucceeds`), not derived. What decides it are library and filesystem calls: the ticket parse, the 5-second timeout, creating and writing the destination, and reading the blob back with `read_at`/`read_to_bytes` (src/app/mod.rs:62-88). A download or finish error inside the timeout hits `.unwrap()` (src/app/mod.rs:73,76) and panics instead of returning an error; the model does not distinguish a panic from a failed flow. A failure of the send flow itself is not modelled, because nothing runs after it.
- `path.exists()` is not performed. It is an input, so a path created or removed between the check and the download is outside the model.
- `main` and the prelude only wire the pieces together and re-export names.
