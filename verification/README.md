# Inventory parser of androider, in Dafny

androider manages Android virtual machines that run as libvirt domains.
The domains it owns have names that start with the reserved prefix `android`.
The part modelled here is the inventory parser in
`internal/pkg/command/command.go`. It has three parts:

- `Command.List` reads the table printed by `virsh list --all`. It splits
  the table into lines and skips the header and blank lines. It splits each
  line on white space, classifies the state column, keeps the domains whose
  names carry the reserved prefix, and builds `domain.Instance` records with
  the prefix stripped.
- `parseStatus` maps a state token, trimmed and lower-cased, onto the closed
  status enum. On any other token it panics.
- `getVMIP` and `extractIP` ask the guest agent of a domain for its network
  interfaces. They decode the reply into `QemuAgentCommandResponse` and keep
  every `ip-address` that parses, in interface-then-entry order.

The project is organised as follows:

- `wrappers.dfy` holds `Option`, `Result`, and `Exec`, the outcome of running a
  subprocess.
- `gostrings.dfy` holds the Go library functions the parser relies on:
  `strings.Split` on newlines, `strings.Fields`, `strings.TrimSpace`,
  `strings.ToLower`, `strings.HasPrefix` and `strings.TrimPrefix`, with the
  exact `unicode.IsSpace` table. Each comes with a partner that pins it down:
  - `Lines` is paired with `JoinLines`, and `Fields` with `Interleave`, each
    with a round trip.
  - `TrimSpace` is characterised by its padding.
- `domain.dfy` holds `Instance` and `Status`.
- `agent.dfy` holds the decoded agent reply, `GetVMIP` and `ExtractIP`.
  `ExtractIP` is the nested loop of the source. It is proved equal to the
  functional reference `KeepParsed` over `AddressTexts`.
- `command.dfy` holds `ParseStatus`, the per-line step `ParseLine`, the line
  loop `ParseFrom`, and `List`, with the listing-level properties.
- `scenarios.dfy` works concrete listings and agent replies through the model.

The model follows the code as written:

- The address loop of `extractIP` (`internal/pkg/command/command.go:139-148`)
  keeps every address that parses. Loopback addresses and repeated
  addresses are kept.
- The comment at `internal/pkg/command/command.go:82` says a stopped VM has
  no IP address, but it sits only in the two-column branch. A line with an id
  column asks the guest agent for addresses whatever its state
  (`internal/pkg/command/command.go:57`), so stopped domains listed with the
  `-` id are queried too.
- Starting and stopping instances exist only as the sentinel errors at
  `internal/pkg/virtualmachine/errors.go:6-7`. There is no lifecycle code to
  model.

Two consequences of `command.go` as written are proved as lemmas:

- `Command.ShutOffUnreachable`: the token `"shut off"` that `parseStatus`
  accepts can never come out of a listing line, because a field never holds
  white space.
- `Scenarios.IdLessShutOff`: an id-less line `android0 shut off` is read as
  id `android0`, name `shut` and state `off`, and so fails the whole listing.

The status constants of `internal/pkg/domain/instance.go:13-16` do not all
read back: `Scenarios.StatusTextReadBack` shows that `"stopped"` is not a
token `parseStatus` accepts.

## Model

| member | source | states |
|---|---|---|
| GoStrings.Lines | internal/pkg/command/command.go:34 | splitting on newlines gives one more piece than there are newlines, and no piece holds a newline |
| GoStrings.JoinLinesOfLines | internal/pkg/command/command.go:34 | joining the pieces of a split with newlines gives back the text: nothing is lost |
| GoStrings.LinesOfJoinLines | internal/pkg/command/command.go:34 | splitting the newline-join of newline-free lines gives back exactly those lines |
| GoStrings.Fields | internal/pkg/command/command.go:46 | every field is non-empty and holds no white space |
| GoStrings.FieldsAndGapsCover | internal/pkg/command/command.go:46 | every text is its fields laid out between white-space gaps, with a non-empty gap between two fields |
| GoStrings.FieldsOfInterleave | internal/pkg/command/command.go:46 | words laid out with white-space separators split back into exactly those words |
| GoStrings.FieldsEmptyIffAllSpace | internal/pkg/command/command.go:41-47 | a line has no fields exactly when it is all white space |
| GoStrings.TrimSpace | internal/pkg/command/command.go:41 | the trimmed text is empty exactly when the text is all white space, otherwise it starts and ends with a non-space, and a text without white space is unchanged |
| GoStrings.TrimSpaceSplit | internal/pkg/command/command.go:93 | the text is white space, then the trimmed text, then white space |
| GoStrings.TrimSpacePadded | internal/pkg/command/command.go:93 | trimming white-space padding off a text that neither starts nor ends with a space gives that text |
| GoStrings.TrimSpaceToLower | internal/pkg/command/command.go:93 | trimming and lower-casing commute |
| GoStrings.TrimPrefix | internal/pkg/command/command.go:55 | with the prefix present, prefix plus result is the input; without it, the input is returned unchanged |
| GoStrings.PrefixRoundTrip | internal/pkg/command/command.go:53-55 | re-applying a stripped prefix gives the original name, and stripping an applied prefix gives the suffix back |
| Command.ParseStatusClosed | internal/pkg/command/command.go:92-103 | "running" and "r" give Running, "shut", "shut off" and "s" give Stopped, every other normalised token is an error naming it |
| Command.ParseStatusIgnoresSpace | internal/pkg/command/command.go:93 | surrounding white space never changes the verdict |
| Command.ParseStatusIgnoresCase | internal/pkg/command/command.go:93 | letter case never changes the verdict |
| Command.ParseStatusOfNormalized | internal/pkg/command/command.go:93 | the verdict depends only on the trimmed, lower-cased token |
| Command.ParseLine | internal/pkg/command/command.go:40-86 | the header, blank lines and lines of fewer than two fields yield nothing; a yielded instance comes from a prefixed name, and prefix plus instance name is that name |
| Command.ParseLineSpec | internal/pkg/command/command.go:40-86 | the per-line decision: the header and lines without a row yield nothing, an unknown state is an error before the prefix is looked at, a prefixed name yields its instance, any other name yields nothing |
| Command.RowOfLayout | internal/pkg/command/command.go:47-49 | with three or more fields the name and state are the second and third, with exactly two they are the first and second, with fewer there is no row |
| Command.ParseFromOrigin | internal/pkg/command/command.go:53-55 | every parsed instance comes from a qualifying line whose name is the reserved prefix plus the instance name |
| Command.List | internal/pkg/command/command.go:24-34 | a failed `virsh list` is a ListCommandFailed error carrying its reason; every listed instance comes from a prefixed line of the output with the prefix round trip |
| Command.QualifyingLines | internal/pkg/command/command.go:40-55 | the qualifying line numbers, strictly increasing, all in range, and every qualifying line among them |
| Command.ParseFromOkIff | internal/pkg/command/command.go:50-53 | the line loop succeeds exactly when every counted line from the start point has a known state |
| Command.ListOkIff | internal/pkg/command/command.go:70-73 | a listing succeeds exactly when `virsh` ran and every counted line has a known state, prefixed or not |
| Command.ParseFromContents | internal/pkg/command/command.go:40-89 | on success the result holds one instance per qualifying line, in line order, each built from its own line |
| Command.ListContents | internal/pkg/command/command.go:59-64 | a successful listing is, position by position, the instances of the qualifying lines in output order |
| Command.ParseFromFailure | internal/pkg/command/command.go:101 | a failed loop reports the state of the first counted line the classifier rejects |
| Command.ListFailure | internal/pkg/command/command.go:28-31 | a failed listing is the command failure, or the first rejected state of the output |
| Command.ForeignLineFails | internal/pkg/command/command.go:47-53 | an unknown state on a line without the prefix still fails the listing |
| Command.ShutOffUnreachable | internal/pkg/command/command.go:98 | the normalised state of a listing line is never "shut off" |
| Command.InstanceAddresses | internal/pkg/command/command.go:57 | an id-column line gets the agent reply of exactly the listed domain name; a two-column line gets no addresses |
| Command.ListOfLines | internal/pkg/command/command.go:34-40 | a listing printed as newline-free lines is parsed line by line |
| Agent.KeepParsed | internal/pkg/command/command.go:141-146 | never more addresses than texts, and each address is the parse of one of the texts |
| Agent.DecodeAddresses | internal/pkg/command/command.go:130-135 | an undecodable reply gives no addresses; otherwise each address is the parse of an `ip-address` of the reply |
| Agent.ExtractIP | internal/pkg/command/command.go:127-151 | the nested loop returns nothing on a decode failure and otherwise the parsed `ip-address` values of every interface and entry, in order |
| Agent.GetVMIP | internal/pkg/command/command.go:106-124 | the agent is asked with the prefix re-applied; a failed call gives no addresses, otherwise the reply's addresses |
| Agent.KeepParsedAppend | internal/pkg/command/command.go:139-140 | keeping parsed texts distributes over concatenation, so input order is output order |
| Agent.KeepParsedComplete | internal/pkg/command/command.go:141-146 | every text that parses contributes its address: nothing, loopback included, is filtered beyond parse failures |
| Agent.KeepParsedAllParse | internal/pkg/command/command.go:139-148 | when every text parses the result is the parses one for one: no deduplication, no reordering |
| Agent.AddressTextsAppend | internal/pkg/command/command.go:139-140 | the texts of consecutive interfaces are the texts of the first followed by those of the rest |
| Agent.InterfaceOrder | internal/pkg/command/command.go:139-148 | a reply's addresses are its first interface's followed by the rest's |
| Scenarios.SampleShape | internal/pkg/command/command.go:40-89 | header and trailing blank skipped, a foreign domain dropped, a running and a shut-off domain listed in order with their agent addresses |
| Scenarios.SampleListing | internal/pkg/command/command.go:24-89 | the literal five-piece `virsh list --all` sample lists exactly android0 (running) and android1 (stopped, still asked for addresses), in that order |
| Scenarios.RunningLineRow | internal/pkg/command/command.go:46-49 | the line " 1 android0 running" reads as name android0, state running, with an id |
| Scenarios.IdLessShutOff | internal/pkg/command/command.go:47-50 | an id-less shut-off line is misread and fails the listing with state "off" |
| Scenarios.TwoColumnShape | internal/pkg/command/command.go:66-85 | a two-column line yields an instance without addresses |
| Scenarios.UpperCaseToken | internal/pkg/command/command.go:93-97 | "RUNNING" reads as Running |
| Scenarios.PaddedToken | internal/pkg/command/command.go:93-99 | " Shut Off " reads as Stopped |
| Scenarios.StatusTextReadBack | internal/pkg/domain/instance.go:13-16 | the constant of Running reads back, that of Stopped is an unknown state |
| Scenarios.ReplyAddresses | internal/pkg/command/command.go:139-148 | a three-interface reply gives the loopback address, then a LAN address twice, with the unparsable entry skipped |
| Scenarios.AgentReply | internal/pkg/command/command.go:106-124 | the same addresses end to end through the guest agent of `android0` |
| Scenarios.AgentUnavailable | internal/pkg/command/command.go:114-118 | an unreachable agent or an undecodable reply gives no addresses |

## Left out

- Running `virsh` (`exec.CommandContext`, `cmd.Output`) and context cancellation: the listing is an `Exec<string>` input, and the guest-agent call is the `agent` field of `Env`.
- `json.Unmarshal`: the decoder is the `decode` field of `Env`. It returns the decoded `Response`, or `None` on error. The JSON grammar is not modelled.
- `netip.ParseAddr`: the parser is the `parseAddr` field of `Env`. The IP literal grammar is not modelled; `Addr` only needs equality.
- The byte-to-string conversion of the listing output (`string(output)`) is not modelled: the listing is taken as text.
- GoStrings.ToLower: folds ASCII letters and the two non-ASCII runes whose lower case is ASCII, and leaves other runes unchanged. The status verdict is exact; only the text of an `UnknownState` error can differ from Go's for other scripts.
- Command.ParseStatus: the Go panic is modelled as an `UnknownState` error that fails the whole listing. The panic message prefix `"unknown state: "` is not kept.
- The difference between a nil and an empty Go slice: both are the empty sequence.
- `*domain.Instance` references: the result holds `Instance` values.
- `cmd/androider/main.go` (command-line wiring) and `waydroid_runner.py` (calls into external tools): process plumbing outside the parser.
- `internal/pkg/flow/service.go`: an older variant that only prints the same tokenisation; its other methods are empty.
- `internal/app/flow/service.go`: a thin wrapper around `List`. Its `Start` calls a method that the `VirtualMachine` interface does not declare.
- The start/stop guard: it exists only as sentinel errors (`internal/pkg/virtualmachine/errors.go`) and tests that need a live `virsh`, with no implementation to model.
- Loopback preference and address suppression for stopped instances: the code does neither, so the model does neither.
