# A verified model of ebpf-guard's stateful core

ebpf-guard watches a host through eBPF programs and a Go agent. This project models the parts of it whose correctness
spans many steps, and proves what holds of every byte string, every interleaving or every reachable state. Methods and
classes follow the code that updates things in place; each is proved against a specification function, and the main
theorems are about runs of those functions.

| files | what they model |
|---|---|
| `Bytes`, `DnsName`, `DnsMessage`, `DnsQuestions`, `DnsEvent` | the DNS wire decoder (RFC 1035, sections 4.1 and 4.1.4) and the kernel record around it |
| `AggregationKey`, `AlertWindows`, `AlertAggregator` | aggregation of alerts into time windows per key |
| `LiveUpdate` | replacement of attached programs with rollback |
| `AnalysisCache` | the bounded domain-analysis cache under concurrent callers |
| `LoadControl`, `Sampler`, `SamplingStack` | load levels, rate quantisation and the 1-in-N samplers of kernel and agent |
| `Blocklist`, `BlocklistFailures`, `BlocklistHistory`, `LsmConnect` | hot reload of the network blocklist, what failed reloads leave, its histories and the kernel's connect decision |
| `ConnTracking`, `PrivEsc` | the paired connection maps and the capability event stream |
| `DropLogger`, `HeaderMask` | the lock-free drop logger and the in-place header masker |
| `Wrappers` | the type of optional values |

What the environment decides is a parameter: clock readings, the order in which Go visits a map, ring-buffer space,
which map or link operation fails, and the interleaving of callers. Every theorem holds for all of them.

## Where the code differs from what it says of itself

The model follows the code. Each difference is a lemma that says exactly when the promise holds, and each promise that
fails has a lemma at one concrete input or a lemma that constructs one.

- The aggregator says that different alerts never collapse into one key. An alert shares its key with a different one
  exactly when its rule, command, namespace or pod contains a `|`, or some stretch of its normalised path between bars
  is itself a normalised path (`AlertCollisionIff`, with `BarMoves` for one). Any other bar in a path does no harm (`HarmlessBar` for one).
- A comment says that `/etc/passwd` and `/etc/shadow` share a prefix. The code keeps two segments, so they do not
  (`SamePrefixIff`, `PasswdAndShadowApart`).
- A live update says that a partial failure rolls back all swapped links. The code puts back the active collection's
  programs, and nothing if there is no active collection. The exact condition is `AllOrNothingIff`.
- A blocklist reload is announced as atomic. A failed attempt can leave a key that no later reload removes
  (`FailureLeaks`), and can make a later reload remove an entry that was added by hand (`FailureClaims`). Exactly when
  neither can happen, over all three maps and all failing operations, is `FailureForgottenIff`, a condition on the old
  state and the two configurations. Retrying the same configuration always converges.
- The record of a closed connection is said to carry its tuple and its duration. The duration is written over the first
  eight octets of the destination address, which the agent reads from the same place. The record carries the destination
  exactly if those octets, read as a number, are the duration (`DestinationKeptIff`); an IPv4 destination never survives
  2^32 nanoseconds (`Ipv4KeptIff`, `MinuteOverwrites`).
- The kernel sampler's upper bound of one event in N, rounded up, holds across the 64-bit counter wrap exactly when N
  divides 2^64 (`SamplingCeilingIff`). The lower bound always holds.
- The two samplers differ on a rate of 0 and on one event at the counter wrap (`DecisionsAgreeIff`, `SamplersDiffer`).
- The capability events of a process form a chain exactly when the process got a place in the map or has at most one
  event (`ChainIff`); a full map breaks the chain (`FullMapBreaksChain`). Replaying them gives the effective set exactly
  when the last commit was reported or equals what the events replay to (`ReplayIff`); a process the full map refused can
  drop its capabilities unseen (`RefusedDropUnseen`).
- The header masker says that credentials never propagate. The output is the same for all credential bytes exactly when
  the buffer does not end in a sensitive header with a value that no line feed ends (`CredentialsHiddenIff`); an
  unfinished cookie line is passed on as it is (`OpenCookieShows`).
- The setters of the entropy calculator do not clear the cache. Over all interleavings of calls and setters, every call
  gets a result that is current at some moment of the call exactly when the settings make no difference to any analysis
  (`TransparentIff`). A domain that was not cached when a setting changed can still get an old answer later
  (`LateStoreIsOld`).
- The DNS decoder takes length octets 64 to 191, which section 4.1.4 of RFC 1035 reserves, as plain labels. It agrees with
  a reader that reserves them exactly on names of labels shorter than 64 octets (`ReservedRefused`, `LongLabelRead`).
- The DNS decoder takes one question, whatever number the header gives, and goes on with the answers. It agrees with a
  reader that takes as many questions as the header counts exactly when that count is 1 (`QuestionCountIff`); for every
  other count there is a response with an address that it does not see (`QuestionsDiffer`). On queries it always agrees
  (`CountedAgrees`).

## Model

| member | source | states |
|---|---|---|
| `HeaderMask.MatchesPrefix` | internal/collector/tls.go:681-689 | The comparison loop accepts exactly the lines that start with the prefix, ASCII case ignored. |
| `HeaderMask.Overwrite` | internal/collector/tls.go:690-695 | The inner loop replaces exactly the non-CR bytes of its range. |
| `HeaderMask.MaskLine` | internal/collector/tls.go:672-698 | One iteration masks exactly the value of its own line, whichever prefix of the list matches first and with or without a trailing CR. |
| `HeaderMask.MaskSensitiveHeaders` | internal/collector/tls.go:665-701 | The in-place loop turns any buffer into its line-wise specification, although later iterations read a buffer that earlier ones changed. |
| `HeaderMask.HeaderLineMasked` | internal/collector/tls.go:665-701 | A line with a listed header, its letters in either case, and any value keeps its name and its end; every byte of the value but CR becomes an asterisk. |
| `HeaderMask.LowerIsAscii` | internal/collector/tls.go:684-688 | Lower-casing takes each capital to its small letter and leaves every other byte. |
| `HeaderMask.FirstListed` | internal/collector/tls.go:648-656 | The first four listed headers. |
| `HeaderMask.LastListed` | internal/collector/tls.go:648-656 | The last three, and there are seven. |
| `HeaderMask.AuthorizationMasked` | internal/collector/tls.go:665-701 | An authorization header in mixed case, octet by octet. |
| `HeaderMask.PrefixUnique` | internal/collector/tls.go:648-656 | A line cannot start with two different listed prefixes, so neither the order of the list nor the early exit matters. |
| `HeaderMask.SecretsDoNotPropagate` | internal/collector/tls.go:658-665 | Non-interference on the lines that a line feed ends: two buffers that differ only in the non-CR bytes of sensitive values there are masked to the same buffer. |
| `HeaderMask.MaskIdempotent` | internal/collector/tls.go:665-701 | Masking a masked buffer changes nothing. |
| `HeaderMask.MaskConcat` | internal/collector/tls.go:665-701 | Masking distributes over concatenation when the first part ends at a line boundary. |
| `HeaderMask.UnterminatedTailKept` | internal/collector/tls.go:668-700 | A tail that no line feed ends is left as it is. |
| `HeaderMask.CredentialsHiddenIff` | internal/collector/tls.go:658-701 | Over all lines, the last one too: the masked buffer is the same for all credential bytes exactly when the buffer does not end in a sensitive header with a non-CR value byte that no line feed ends. |
| `HeaderMask.OpenCredentialShows` | internal/collector/tls.go:668-700 | For every credential byte on an unfinished last line, another buffer that differs in that byte only and is masked differently. |
| `HeaderMask.OpenCookieShows` | internal/collector/tls.go:668-700 | The buffer `cookie: x` is passed on unmasked. |
| `DnsName.ReadExact` | internal/collector/dns_parse.go:193-250 | Soundness and completeness: reading with a pointer budget gives a walk exactly when the bytes denote that walk and it follows at most that many pointers. |
| `DnsName.DecoderLimit` | internal/collector/dns_parse.go:23-26 | The decoder reads exactly the names that need at most 32 pointers. |
| `DnsName.DenotesUnique` | internal/collector/dns_parse.go:193-250 | The bytes at a position denote at most one name, with one end position. |
| `DnsName.DecodeName` | internal/collector/dns_parse.go:198-250 | The loop never indexes out of range and ends; it accepts exactly the names readable with 32 pointers, and returns the dot-joined labels and the position after the first terminator or first pointer. |
| `DnsName.PointerTargetIsMasked` | internal/collector/dns_parse.go:218-232 | Taking the marker bits off a pointer keeps the low 14 bits of its two octets. |
| `DnsName.AppendIsJoin` | internal/collector/dns_parse.go:239-249 | Appending each label with a dot in front of all but the first is joining the labels with dots, as no label is empty. |
| `DnsName.ReadExtends` | internal/collector/dns_parse.go:193-250 | Truncation-monotone: a name that reads keeps its labels and its end whatever bytes are added behind. |
| `DnsName.EndInRange` | internal/collector/dns_parse.go:193-250 | The end of a name lies after its start and within the payload. |
| `DnsName.NameLengthBound` | internal/collector/dns_parse.go:23-26 | With at most 32 pointers a decoded name is at most 33 times as long as the payload. |
| `DnsName.ReservedRefused` | internal/collector/dns_parse.go:234-244 | A reader that refuses length octets 64 to 191 reads what the decoder reads where every label is shorter than 64 octets, and nothing elsewhere. |
| `DnsName.LongLabelRead` | internal/collector/dns_parse.go:234-244 | A payload with a label of 64 octets that the decoder reads and the other reader refuses. |
| `DnsMessage.DecodeRecord` | internal/collector/dns_parse.go:167-180 | One answer record reads as its owner name, fixed fields and data, or stops the walk if anything is cut off. |
| `DnsMessage.AppendAddress` | internal/collector/dns_parse.go:185-188 | Appends the address of a four-octet A record and of no other. |
| `DnsMessage.DecodeAnswerIPs` | internal/collector/dns_parse.go:163-191 | The answer loop returns the addresses of the leading readable records, up to the claimed count. |
| `DnsMessage.ParseWireMessage` | internal/collector/dns_parse.go:123-161 | Header, question and, for responses, answers; fails exactly on a short header, no question or an unreadable name; a name without type and class still counts. |
| `DnsMessage.RefusedIff` | internal/collector/dns_parse.go:123-145 | A payload is refused exactly if it is shorter than 12 octets, counts no question, or no name of at most 32 pointers starts behind the header. |
| `DnsMessage.MessageExtends` | internal/collector/dns_parse.go:123-191 | More captured bytes keep the name and the response code, may only fill in a missing query type, and only append addresses. |
| `DnsMessage.AddressesExtend` | internal/collector/dns_parse.go:163-191 | The addresses of a capture are a prefix of those of every longer capture. |
| `DnsMessage.RecordSize` | internal/collector/dns_parse.go:167-190 | A record takes at least 11 octets besides its data and ends within the payload. |
| `DnsMessage.RecordsSize` | internal/collector/dns_parse.go:163-191 | Eleven octets per readable record and four more per address fit in the bytes left, whatever count the header claims. |
| `DnsMessage.AddressBound` | internal/collector/dns_parse.go:163-191 | At most one address per 15 octets is returned. |
| `DnsMessage.NameRoundTrip` | internal/collector/dns_parse.go:193-250 | An encoded name reads back as itself, inside any surrounding bytes. |
| `DnsMessage.OwnerRoundTrip` | internal/collector/dns_parse.go:193-250 | An owner name written as any labels followed by the root or by a pointer at any earlier position that denotes a name, through chains of up to 32 pointers, reads back as the name it stands for and ends after its own bytes. |
| `DnsMessage.QuestionSharable` | internal/collector/dns_parse.go:218-232 | Every suffix of the question name is such a position, and denotes that suffix. |
| `DnsMessage.OwnerSharable` | internal/collector/dns_parse.go:218-232 | Every owner name that takes fewer than 32 pointers is such a position for the answers after it, and denotes the name it stands for. |
| `DnsMessage.RecordRoundTrip` | internal/collector/dns_parse.go:167-190 | An encoded answer reads back with its type and data, and the next record starts right behind it. |
| `DnsMessage.AnswersRead` | internal/collector/dns_parse.go:163-191 | A sequence of encoded answers reads back record by record, each where the last ended. |
| `DnsMessage.AnswersAddresses` | internal/collector/dns_parse.go:163-191 | Against a sender that writes address answers and others apart: the addresses read are exactly those of its address answers, in order, whatever types and data the others have. |
| `DnsMessage.MessageRoundTrip` | internal/collector/dns_parse.go:110-191 | Encoding any message, given by its response bit, response code, question and answers of either sort, with pointers at any earlier names, and decoding it gives back the name, the type, the code and, for a response, the addresses, whatever bytes follow. |
| `DnsMessage.FlagsRoundTrip` | internal/collector/dns_parse.go:130-132 | Of the flags word the top bit is the response bit and the low four bits are the response code, whatever the others are. |
| `DnsQuestions.CountedAgrees` | internal/collector/dns_parse.go:134-160 | On every payload with a question count of 1, and on every query, the decoder gives what a reader gives that takes as many questions as the header counts. |
| `DnsQuestions.QuestionsDiffer` | internal/collector/dns_parse.go:134-160 | For every count above 1, a response with one address that such a reader sees and the decoder does not: it takes the second question for an answer. |
| `DnsQuestions.QuestionCountIff` | internal/collector/dns_parse.go:134-160 | On all payloads with a given question count the two agree exactly when the count is 1. |
| `DnsEvent.CaptureRoundTrip` | internal/collector/dns_parse.go:12-75 | The fixed little-endian fields of a kernel record read back as what was captured. |
| `DnsEvent.EventRoundTrip` | internal/collector/dns_parse.go:37-108 | A kernel record of kind 5 with at most 256 octets of payload decodes to its fields and the message its payload denotes, or to nothing if it denotes none, whatever fills the reserved space; a record of any other kind or length is refused. |
| `DnsEvent.TruncatedRefused` | internal/collector/dns_parse.go:37-80 | A record cut off anywhere is refused. |
| `AggregationKey.KeyInjective` | internal/correlator/aggregator.go:134-151 | Bar-free component lists with the same key are the same. |
| `AggregationKey.Collision` | internal/correlator/aggregator.go:134-151 | Any component list with a bar shares its key with another list, which is constructed. |
| `AggregationKey.UnambiguousIffBarFree` | internal/correlator/aggregator.go:134-151 | As a format: a key stands for one list of five strings exactly when none of them contains the separator. |
| `AggregationKey.OtherCut` | internal/correlator/aggregator.go:134-151 | If only the path has bars, any other list with the same key has for its path a stretch of that path between bars. |
| `AggregationKey.StretchIsCut` | internal/correlator/aggregator.go:134-151 | And every such stretch is the path of another list with the same key. |
| `AggregationKey.IsNumeric` | internal/correlator/aggregator.go:193-204 | The loop accepts exactly the non-empty strings of digits. |
| `AggregationKey.NormalizePathPrefix` | internal/correlator/aggregator.go:166-191 | The loop gives the first two non-empty segments with numeric ones replaced by a placeholder, and the empty string for an empty path. |
| `AggregationKey.TwoSegments` | internal/correlator/aggregator.go:163-191 | A path gives its first two segments, those made of digits as an asterisk, whatever follows them. |
| `AggregationKey.NormalIffFixed` | internal/correlator/aggregator.go:166-191 | The normal forms, described on their own, are exactly the paths that normalisation leaves alone. |
| `AggregationKey.NormalizeIdempotent` | internal/correlator/aggregator.go:166-191 | Normalising twice is normalising once. |
| `AggregationKey.SamePrefixIff` | internal/correlator/aggregator.go:163-191 | Two paths give the same prefix exactly when both or neither are empty and their first two non-empty segments agree, segments of digits being alike. |
| `AggregationKey.PasswdAndShadowApart` | internal/correlator/aggregator.go:163-191 | The two files that a comment gives as sharing a prefix have different ones. |
| `AlertWindows.AlertKeysSeparate` | internal/correlator/aggregator.go:134-161 | An alert without a bar shares its key with exactly the alerts of equal components. |
| `AlertWindows.PathChosen` | internal/correlator/aggregator.go:153-161 | The path resolved from the descriptor counts if there is one, otherwise the file name, and none without a file. |
| `AlertWindows.AlertCollisionIff` | internal/correlator/aggregator.go:134-161 | For every alert: some alert of other components shares the key exactly when the rule, command, namespace or pod has a bar, or a stretch of the normalised path between bars is itself a normalised path. |
| `AlertWindows.BarMoves` | internal/correlator/aggregator.go:134-151 | A bar that moves from the rule to the command leaves the key as it is. |
| `AlertWindows.HarmlessBar` | internal/correlator/aggregator.go:134-191 | No other alert shares the key of an alert whose path is slash, 1, bar, b and that has no bar elsewhere. |
| `AlertWindows.LedgerWellKept` | internal/correlator/aggregator.go:71-132 | In the independent ledger of one key's windows every window has a count of at least 1 and only the last may be open. |
| `AlertWindows.EntryIsOpenWindow` | internal/correlator/aggregator.go:71-132 | The stored entry of a key is the open window of its ledger, after every sequence of arrivals and reaps. |
| `AlertWindows.OpenWindowIff` | internal/correlator/aggregator.go:71-132 | From the occurrences alone: a key has an entry exactly if the last window opened has not been ended by a reap at or after its end or an arrival after it; the entry carries the opener, its time, the number of arrivals since and the time of the last. |
| `AlertWindows.HeadIff` | internal/correlator/aggregator.go:82-100 | An arrival is forwarded at once exactly if it opens a window. |
| `AlertWindows.OutputsAreEmissions` | internal/correlator/aggregator.go:71-132 | A key's outputs are, in order, one head per window and one final alert per closed window with repeats: never a second of either. |
| `AlertWindows.WindowsConserve` | internal/correlator/aggregator.go:71-132 | Every arrival is counted in exactly one window. |
| `AlertWindows.EmissionsAccount` | internal/correlator/aggregator.go:71-132 | What the emissions account for, plus the repeats held in the open window, is the total count. |
| `AlertWindows.LedgerSpaced` | internal/correlator/aggregator.go:71-132 | With a clock that never runs backwards window starts are a window length apart and a window's last sighting lies within it, although arrival and reap treat the boundary instant differently. |
| `AlertAggregator.Aggregator.constructor` | internal/correlator/aggregator.go:52-60 | Starts empty, with the default window of one minute for a window that is not positive. |
| `AlertAggregator.Aggregator.IngestOne` | internal/correlator/aggregator.go:79-104 | One alert moves exactly its own key's entry by one machine step and returns that step's output. |
| `AlertAggregator.Aggregator.Ingest` | internal/correlator/aggregator.go:71-106 | A batch is its alerts one after the other; disabled, it passes everything through and keeps no state. |
| `AlertAggregator.Aggregator.Reap` | internal/correlator/aggregator.go:114-132 | Whatever order the map is visited in, exactly the expired entries go and each gives its final alert if it has repeats. |
| `AlertAggregator.RunProjects` | internal/correlator/aggregator.go:71-132 | Over every run each key behaves as a machine of its own: its entry and its outputs depend on its own arrivals and the reaps only. |
| `AlertAggregator.EntryIff` | internal/correlator/aggregator.go:71-132 | Over every interleaving a key has an entry exactly if the last window it opened has not ended. |
| `AlertAggregator.Conservation` | internal/correlator/aggregator.go:71-132 | Over every interleaving of batches and reaps the alerts ingested for a key are the counts of its windows, its outputs are exactly those windows' emissions, and its entry is the open window. |
| `AlertAggregator.NothingLost` | internal/correlator/aggregator.go:71-132 | Seen from downstream: the emitted alerts account for every ingested alert of a key except the repeats still held in its open window. |
| `AlertAggregator.WindowTiming` | internal/correlator/aggregator.go:71-132 | With a non-decreasing clock windows of a key start at least a window length apart, and every emitted alert has FirstSeen <= LastSeen <= FirstSeen + window. |
| `LiveUpdate.Link.Update` | internal/bpf/live_update.go:19-26 | A link update replaces the program or, failing, leaves it. |
| `LiveUpdate.LiveUpdater.constructor` | internal/bpf/live_update.go:90-115 | Starts without links, without an active collection and with both counters at 0. |
| `LiveUpdate.LiveUpdater.RegisterLink` | internal/bpf/live_update.go:128-132 | Adds or replaces one link and touches nothing else. |
| `LiveUpdate.LiveUpdater.SetCurrentCollection` | internal/bpf/live_update.go:136-140 | Makes a collection, or none, the active one; no link moves and the one before stays open. |
| `LiveUpdate.LiveUpdater.UpdateLink` | internal/bpf/live_update.go:202-202 | An update through one registered name changes the program of that name only. |
| `LiveUpdate.LiveUpdater.SwapLinks` | internal/bpf/live_update.go:194-210 | For some visiting order of all links, the loop swaps up to the first failure and records what it swapped. |
| `LiveUpdate.LiveUpdater.Rollback` | internal/bpf/live_update.go:232-251 | Puts the active collection's programs back on swapped links, skipping links it has no program for and updates that fail, and does nothing without an active collection. |
| `LiveUpdate.LiveUpdater.SwapOrRollback` | internal/bpf/live_update.go:194-210 | For some visiting order all concerned links are swapped, or those swapped before the failure are rolled back. |
| `LiveUpdate.LiveUpdater.Settle` | internal/bpf/live_update.go:202-223 | Success closes the old collection and installs the new one; failure closes the new one. Exactly one counter moves. |
| `LiveUpdate.LiveUpdater.Replace` | internal/bpf/live_update.go:194-227 | From a staged collection on, the call does what the specification says, for some visiting order. |
| `LiveUpdate.LiveUpdater.LiveUpdate` | internal/bpf/live_update.go:161-228 | The whole call does what the specification says for the load result, the staging result, some visiting order and the failing updates. |
| `LiveUpdate.SwapEffect` | internal/bpf/live_update.go:193-210 | After the swap loop every swapped link has its new program and every other its old one; a failure leaves some concerned link unswapped, success none. |
| `LiveUpdate.SwapStops` | internal/bpf/live_update.go:194-210 | The swap loop fails exactly if some update that is due fails, and the links it swapped are exactly those due before the first such update. |
| `LiveUpdate.SucceedsIff` | internal/bpf/live_update.go:161-228 | A call succeeds exactly if the collection loads, the staging directory is there and no update of a link that the collection has a program for fails. |
| `LiveUpdate.CallLeaves` | internal/bpf/live_update.go:194-251 | What every link runs after a call that got to the swap loop, from the visiting order, the failing updates, the active collection and the failing rollback updates alone. |
| `LiveUpdate.CallWithoutSwaps` | internal/bpf/live_update.go:165-180 | A call whose collection does not load or cannot be staged fails and changes no link. |
| `LiveUpdate.RollbackEffect` | internal/bpf/live_update.go:232-251 | Rollback changes swapped links only, each to the active collection's program where there is one and the update succeeds. |
| `LiveUpdate.UndoneWhenRestoring` | internal/bpf/live_update.go:161-251 | The sufficient half of the next row, for one call. |
| `LiveUpdate.AllOrNothingIff` | internal/bpf/live_update.go:161-251 | Every failed call restores every link, for all visiting orders and failure points with rollback succeeding, exactly when at most one link is concerned or the active collection holds the program of each concerned link. |
| `LiveUpdate.NotUndone` | internal/bpf/live_update.go:193-251 | Where that condition fails, the call that leaves a link on the new program. |
| `LiveUpdate.ErrorChangesNothing` | internal/bpf/live_update.go:161-251 | From a state where every link runs the active collection, an error return with successful rollback changes nothing but the error counter. |
| `LiveUpdate.SuccessUniformIff` | internal/bpf/live_update.go:212-227 | After a success, whatever the links ran before, all of them run the new collection exactly when it has a program for each of them; if only the active collection was open, only the new one is now, and the update counter moved by one. |
| `LiveUpdate.RunStaysConsistent` | internal/bpf/live_update.go:128-251 | Over every run in which collections cover the registered names, rollback updates succeed, links are registered running the active program and no collection is made active by hand: all links run one collection, and only that one is open. |
| `LiveUpdate.CallsCounted` | internal/bpf/live_update.go:161-227 | Over every run, without conditions, each call is counted once, as an update or as an error. |
| `LiveUpdate.OnlyActiveOpen` | internal/bpf/live_update.go:161-227 | Over every run without activation by hand, with collections that cover any of the links, any registered programs and any failing updates and rollback updates, only the active collection is open. |
| `LiveUpdate.LinksFollowCollections` | internal/bpf/live_update.go:128-251 | Over every run of registrations, activations and calls, with collections that cover any of the links, in which each failed call left the links as they were, each link runs the program of the last successful collection that has its name, or the one it was registered with since. |
| `LiveUpdate.LinksFollowIff` | internal/bpf/live_update.go:128-251 | And that is exact: over a run links follow the collections after every step if and only if each failed call of the run is undone. |
| `LiveUpdate.NextCallIff` | internal/bpf/live_update.go:161-251 | After every such run, exactly when the next call is all-or-nothing: at most one link is concerned, or for each concerned link the active collection has the program of the last successful collection with its name, or lacks the name and the new one has that program. |
| `LiveUpdate.FailedLinks` | internal/bpf/live_update.go:202-251 | What any failed call leaves, with any failing rollback updates: the swapped links after their rollback and all others as before. |
| `AnalysisCache.RingAppends` | internal/correlator/dns_entropy.go:192-194 | Writing at the slot after the last entry appends to the ring read from head, around the end of the array. |
| `AnalysisCache.RingRotates` | internal/correlator/dns_entropy.go:185-194 | In a full ring, overwriting the head slot and moving head on drops the oldest entry and appends. |
| `AnalysisCache.StoreIsPush` | internal/correlator/dns_entropy.go:181-196 | Map, ring and the two indices together implement a bounded first-in first-out queue. |
| `AnalysisCache.Calculator.constructor` | internal/correlator/dns_entropy.go:50-68 | Starts with an empty, well-formed cache. |
| `AnalysisCache.Calculator.Find` | internal/correlator/dns_entropy.go:155-160 | The locked lookup returns the cached result exactly if there is one. |
| `AnalysisCache.Calculator.Insert` | internal/correlator/dns_entropy.go:185-194 | Eviction of the oldest entry when full, ring write and map write are one store of the specification. |
| `AnalysisCache.Calculator.Remember` | internal/correlator/dns_entropy.go:181-196 | The locked re-check, eviction and store are one step of the specification and keep the cache well formed. |
| `AnalysisCache.Calculator.AnalyzeDomain` | internal/correlator/dns_entropy.go:152-199 | A call that nobody interrupts, whatever is cached: returns the cached result or else the computed one, and stores it; from a cache of current results it returns what direct analysis gives. |
| `AnalysisCache.NextKeeps` | internal/correlator/dns_entropy.go:152-199 | Every lookup, computation and store of every caller, and every change of settings, keeps the invariant. |
| `AnalysisCache.EveryInterleaving` | internal/correlator/dns_entropy.go:42-46 | Under every interleaving of calls and setters the ring from head holds the latest insertions, these are the cached keys, there are at most 512, and every return is the analysis under the settings in force when its value was computed, during the call or before it. |
| `AnalysisCache.QueueIsKeys` | internal/correlator/dns_entropy.go:42-46 | No key is queued twice, and the queued keys are the cached ones. |
| `AnalysisCache.UnchangedSettings` | internal/correlator/dns_entropy.go:152-199 | While no setter runs, every return of every interleaving is what direct analysis gives. |
| `AnalysisCache.TransparentIff` | internal/correlator/dns_entropy.go:152-199 | Over all interleavings of calls and changes among given settings, every return is current at some moment of its call exactly when those settings make no difference to any analysis. |
| `AnalysisCache.OldAnswer` | internal/correlator/dns_entropy.go:287-311 | One call, a change of settings, another call: the second gets the analysis under the old settings. |
| `AnalysisCache.HitCurrentIff` | internal/correlator/dns_entropy.go:155-160 | After any run a cached answer has been current at every moment since its computation exactly when no step since then changed the analysis of its domain; if at most one did, it is current now exactly when none did. |
| `AnalysisCache.LateStoreIsOld` | internal/correlator/dns_entropy.go:181-196 | A domain not cached when a setting changes, stored afterwards by a caller that computed before, is answered with the old analysis. |
| `Sampler.KernelSampler.ShouldSample` | bpf/common.h:281-328 | The kernel helper: everything passes without a configuration or when disabled, rate 0 drops, rate 1 passes, otherwise the counter before its increment decides, and only the counter of that kind moves. |
| `Sampler.RateLimiter.constructor` | internal/bpf/sampling.go:207-213 | Starts disabled with the given rates and counters at 0. |
| `Sampler.RateLimiter.Allow` | internal/bpf/sampling.go:216-241 | The agent's limiter: the counter after its increment decides, and rates 0 and 1 pass without counting. |
| `Sampler.DecisionsAgreeIff` | internal/bpf/sampling.go:216-241 | From equal counters the two decide alike exactly unless sampling is on and the rate is 0, or the counter is at 2^64 - 1 and the rate, above 1, divides that. |
| `Sampler.SamplersDiffer` | internal/bpf/sampling.go:216-241 | One event of each exception: rate 0, and rate 3 at the wrap. |
| `Sampler.MachinesStayEqual` | internal/bpf/sampling.go:195-259 | Run side by side from one state, each by its own counting rule, the two samplers have the same counters and configuration after every run. |
| `Sampler.RunsAgreeIff` | internal/bpf/sampling.go:195-259 | Over every run of events, switches and rate changes the two machines, each in its own state, give the same decisions, event by event, exactly when no event meets such an exception. |
| `Sampler.OrdinaryRunsAgree` | internal/bpf/sampling.go:195-259 | With rates from 1 on and fewer events of each kind than its counter has room for, however many switches and rate changes, no event meets an exception. |
| `Sampler.WindowPasses` | bpf/common.h:312-327 | Any N consecutive events hold one that passes, from any counter value and across the wrap. |
| `Sampler.SamplingFloor` | bpf/common.h:312-327 | Of any m consecutive events at least floor(m/N) pass, from any counter value and across the wrap. |
| `Sampler.SamplingCeiling` | bpf/common.h:312-327 | Before the counter wraps at most ceil(m/N) pass. |
| `Sampler.WrapOvershoots` | bpf/common.h:312-327 | For every N that does not divide 2^64, a stretch around the wrap in which more pass. |
| `Sampler.SamplingCeilingIff` | bpf/common.h:312-327 | The upper bound holds for all counter values and lengths exactly when N divides 2^64. |
| `LoadControl.SinceRecoveryIsSuffix` | internal/bpf/adaptive_ringbuf.go:257-284 | The samples since recovery are the longest suffix of the history without a sample below the recovery threshold. |
| `LoadControl.TransitionsIff` | internal/bpf/adaptive_ringbuf.go:257-284 | Exactly which samples change the level: at or above a threshold into its level, strictly below recovery back to Normal, and never from Critical to Degraded. |
| `LoadControl.LevelIsWorst` | internal/bpf/adaptive_ringbuf.go:257-284 | After any history the level is the classification of the peak since the last sample below recovery. |
| `LoadControl.LevelIsWorstIff` | internal/bpf/adaptive_ringbuf.go:257-284 | That closed form holds on every history exactly when recovery lies at or below both other thresholds. |
| `LoadControl.Clamp` | internal/bpf/adaptive_ringbuf.go:413-425 | With a floor in (0, 1] the result lies between the floor and 1. |
| `LoadControl.TableRate` | internal/bpf/adaptive_ringbuf.go:289-338 | For every floor in (0, 1], every rate a level applies lies between the kind's floor and 1. |
| `LoadControl.TableFollowsConfig` | internal/bpf/adaptive_ringbuf.go:289-338 | Which configured rate each level applies to each kind: as it is between the floor and 1, the floor below it and 1 above 1; Normal keeps everything and Degraded every network event. |
| `LoadControl.WorseLoadLowersRates` | internal/bpf/adaptive_ringbuf.go:289-338 | Worse load never raises a rate; Normal keeps everything and Degraded every network event. |
| `LoadControl.DivisorBounds` | internal/bpf/sampling.go:573-585 | Quantising r < 1 to N = floor(1/r) gives r <= 1/N < 2r, with N from 1 on and within 32 bits. |
| `LoadControl.DivisorFits` | internal/bpf/sampling.go:573-585 | Every accepted rate gives a 32-bit divisor, which is 0 exactly for rates up to 0. |
| `LoadControl.ScaleFactorNearDivisor` | internal/bpf/adaptive_ringbuf.go:393-404 | The correction factor is the inverse of the rate, at least floor(1/rate) and less than one above it. |
| `SamplingStack.SamplingController.constructor` | internal/bpf/sampling.go:39-50 | Starts disabled with all rates at 1; the kernel's array entry is zero. |
| `SamplingStack.SamplingController.UpdateConfig` | internal/bpf/sampling.go:53-60 | A failed map write leaves both the stored and the kernel configuration as they were. |
| `SamplingStack.SamplingController.SetSamplingRate` | internal/bpf/sampling.go:573-597 | For every rate: sets the divisor of one kind, switches sampling on, keeps the other kinds, and keeps the kernel in step with the stored configuration; an unknown kind or a failed write changes nothing. |
| `SamplingStack.SamplingController.Enable` | internal/bpf/sampling.go:101-106 | Switches sampling on and keeps the rates, or, failing, changes nothing; the kernel stays in step. |
| `SamplingStack.SamplingController.Disable` | internal/bpf/sampling.go:108-113 | Switches sampling off and keeps the rates, or, failing, changes nothing; the kernel stays in step. |
| `SamplingStack.QuantisedIsDivisor` | internal/bpf/sampling.go:573-585 | Where the quotient fits 32 bits the divisor written is floor(1/rate), or 1 from rate 1 on and 0 up to rate 0. |
| `SamplingStack.KernelDecidesByConfig` | bpf/common.h:281-328 | The kernel decides and counts as the stored configuration says, before the first write too. |
| `SamplingStack.RingBufLoadController.constructor` | internal/bpf/adaptive_ringbuf.go:151-197 | Starts at the normal level with that level's table. |
| `SamplingStack.RingBufLoadController.ApplyRates` | internal/bpf/adaptive_ringbuf.go:341-355 | In any visiting order, stores the table and pushes exactly the rates whose writes succeed. |
| `SamplingStack.RingBufLoadController.Check` | internal/bpf/adaptive_ringbuf.go:257-287 | One tick takes the level's transition; the stored rates are always the table of the level, and exactly the writes that succeed reach the configuration. |
| `SamplingStack.RingBufLoadController.EnterLevel` | internal/bpf/adaptive_ringbuf.go:289-338 | Entering a level stores its table and pushes exactly the rates whose writes succeed. |
| `SamplingStack.RingBufLoadController.Restore` | internal/bpf/adaptive_ringbuf.go:358-372 | Shutdown goes back to full rates, and does nothing at the normal level. |
| `SamplingStack.RingBufLoadController.EWMAScaleFactor` | internal/bpf/adaptive_ringbuf.go:393-404 | The factor is the inverse of the current level's table rate. |
| `SamplingStack.PushOf` | internal/bpf/adaptive_ringbuf.go:341-355 | A pushed table gives each kind whose write succeeds the divisor of its rate and leaves the others; sampling is on afterwards exactly if it was on or some write succeeded. |
| `SamplingStack.StackFollowsLoad` | internal/bpf/adaptive_ringbuf.go:257-372 | For every configuration, after any mix of ticks, shutdowns, switches by hand, failing writes and events: the level is that of the load since the last shutdown, each kind has the divisor of the last level entered with a successful write for it, and sampling is on or off as the last successful write says. |
| `SamplingStack.CriticalApplied` | internal/bpf/adaptive_ringbuf.go:257-338 | A sample that takes the stack into Critical without failing writes gives each kind the divisor of its configured critical rate, or of its floor or of 1 outside those, and switches sampling on. |
| `SamplingStack.DegradedApplied` | internal/bpf/adaptive_ringbuf.go:257-338 | The same for Degraded: the configured degraded rates, and divisor 1 for network events. |
| `SamplingStack.NormalApplied` | internal/bpf/adaptive_ringbuf.go:257-372 | Recovery and shutdown without failing writes give every kind divisor 1. |
| `SamplingStack.WrittenIsCurrent` | internal/bpf/adaptive_ringbuf.go:257-372 | If no write for a kind fails, that level is the current one. |
| `SamplingStack.SteadySampled` | bpf/common.h:281-328 | While the level is steady the events of a kind that pass are those its own counter selects at one divisor, whatever other events come between. |
| `SamplingStack.SteadyCounter` | bpf/common.h:312-327 | While the level is steady the counter of a kind advances by that kind's events only, around the wrap. |
| `SamplingStack.DivisorGuarantees` | internal/bpf/sampling.go:573-585 | For every rate from min to 1, whatever the machine makes of a quotient beyond 32 bits, the divisor is at least 1 and passes at least floor(m * min) of any m events. |
| `SamplingStack.SamplingFloorEndToEnd` | internal/bpf/adaptive_ringbuf.go:289-338 | For every floor min in (0, 1] of a kind, after any such history, while neither the level nor the switch changes, of m events of the kind at least floor(m * min) pass. |
| `SamplingStack.SamplingCeilingEndToEnd` | internal/bpf/adaptive_ringbuf.go:289-338 | For every configuration, at most ceil(m/N) pass until the counter wraps, N being the divisor in force: the one the kind got last, or 1 while sampling is off; none pass if N is 0. |
| `Blocklist.KeyMatchesIff` | internal/bpf/network_blocklist.go:258-290 | The key of a subnet matches an address exactly when the subnet contains it (section 3.1 of RFC 4632). |
| `Blocklist.SameKeyIff` | internal/bpf/network_blocklist.go:258-290 | Two subnets of a family get the same key exactly when they contain the same addresses. |
| `Blocklist.SyncKeepsTarget` | internal/bpf/network_blocklist.go:105-156 | An attempt, failed or not, never moves the set a success would reach, and a success reaches it. |
| `Blocklist.UntrackedSurvive` | internal/bpf/network_blocklist.go:88-159 | After a successful call each map holds exactly the configured keys and the entries that were there untracked. |
| `BlocklistFailures.FailureForgottenIff` | internal/bpf/network_blocklist.go:88-159 | For all three maps: no failing operation of one call changes what the next configuration gives, exactly when every key but the last of each failed list is present, tracked or wanted next, and every untracked entry the failed lists claim in a map before one with operations is wanted next. |
| `BlocklistFailures.FailureLeaks` | internal/bpf/network_blocklist.go:88-159 | Two ports of which the second fails to go in: withdrawing the list leaves the first. |
| `BlocklistFailures.FailureClaims` | internal/bpf/network_blocklist.go:88-159 | A list claims a subnet added by hand and fails at the next map: withdrawing the list removes the subnet. |
| `BlocklistFailures.LastingFailure` | internal/bpf/network_blocklist.go:88-159 | Wherever the condition fails, an operation whose failure changes what the next configuration gives. |
| `Blocklist.AttemptKeepsGoal` | internal/bpf/network_blocklist.go:88-159 | Over all three maps: a parse error changes nothing, any other attempt keeps the goal, a success reaches it. |
| `Blocklist.RetriesConverge` | internal/bpf/network_blocklist.go:88-159 | Any number of failed attempts with one configuration followed by a success leaves exactly what one success would have left. |
| `Blocklist.NoFailures` | internal/bpf/network_blocklist.go:88-159 | A configuration that parses succeeds if no map operation fails. |
| `Blocklist.RemoveStaleKeys` | internal/bpf/network_blocklist.go:293-351 | The deletion loop: tracked keys that are no longer wanted go, up to the first failing delete. |
| `Blocklist.InsertKeys` | internal/bpf/network_blocklist.go:111-121 | The insertion loop, up to the first failing update. |
| `Blocklist.SyncFamily` | internal/bpf/network_blocklist.go:107-122 | Stale keys out, new keys in, and the new keys tracked only if nothing failed. |
| `Blocklist.Controller.constructor` | internal/bpf/network_blocklist.go:67-82 | Starts from any map contents and tracks nothing. |
| `Blocklist.Controller.ParseSubnets` | internal/bpf/network_blocklist.go:89-103 | Splits the configured subnets into keys of the two families and fails on any malformed one. |
| `Blocklist.Controller.SetBlocklist` | internal/bpf/network_blocklist.go:88-159 | The whole reload does what the specification of an attempt says, for every choice of failing operations. |
| `Blocklist.Controller.AddSubnet` | internal/bpf/network_blocklist.go:163-186 | Adds one untracked entry to its family, or changes nothing. |
| `Blocklist.Controller.RemoveSubnet` | internal/bpf/network_blocklist.go:189-211 | Removes one entry from its family's map, tracking untouched, or changes nothing. |
| `Blocklist.Controller.AddPort` | internal/bpf/network_blocklist.go:214-223 | Adds one untracked port, or changes nothing. |
| `Blocklist.Controller.RemovePort` | internal/bpf/network_blocklist.go:226-235 | Removes one port, tracking untouched, or changes nothing. |
| `Blocklist.AddedBlocksIff` | internal/bpf/network_blocklist.go:163-186 | An address is blocked after adding a subnet by hand exactly if it was before or the subnet contains it. |
| `Blocklist.RemovedKeyGone` | internal/bpf/network_blocklist.go:189-211 | After removing a subnet by hand exactly its own key is gone from its own map. |
| `BlocklistHistory.HistoryDecides` | internal/bpf/network_blocklist.go:88-235 | Over every history of one map an entry is present exactly when a reload or an insertion brought it in, or it was there from the start, and no deletion or first reload without it after one with it has taken it out since; it is tracked exactly when the last reload that got through asked for it. |
| `BlocklistHistory.SyncIsMoves` | internal/bpf/network_blocklist.go:107-122 | A reload of one map, whatever fails, is the steps it made: one reload if it got through, and else single deletions and insertions. |
| `BlocklistHistory.FailedReload` | internal/bpf/network_blocklist.go:107-122 | A failed reload of one map deleted some tracked keys that are not wanted and inserted a proper part of the list from its start on, none of it tracked. |
| `BlocklistHistory.ActIsMoves` | internal/bpf/network_blocklist.go:88-235 | Every call, a configuration that is retried or given up included, is exactly the steps it makes on each map. |
| `BlocklistHistory.MapsHoldHistory` | internal/bpf/network_blocklist.go:88-235 | After any interleaving of configurations, successful or given up, additions and removals, each of the three maps holds exactly what its own steps decide. |
| `LsmConnect.LookupTrie` | bpf/common.h:392-430 | A lookup with all host bits succeeds exactly if some stored prefix matches the address. |
| `LsmConnect.Hook.SocketConnect` | bpf/lsm.bpf.c:193-291 | Return value, statistics, drop counter and audit record of one connect, for every family and process. |
| `LsmConnect.KeysMatchV4` | internal/bpf/network_blocklist.go:258-290 | Some generated IPv4 key matches an address exactly when some configured IPv4 subnet contains it. |
| `LsmConnect.KeysMatchV6` | internal/bpf/network_blocklist.go:258-290 | The same for IPv6. |
| `LsmConnect.ReloadsStayClean` | internal/bpf/network_blocklist.go:88-159 | Through any history of configuration changes, each retried until it succeeded, the maps hold exactly the last configuration. |
| `LsmConnect.KernelMatches` | bpf/lsm.bpf.c:193-291 | Over maps that hold one configuration and nothing else, the kernel denies a connection exactly when it is not the agent's and a configured subnet contains the destination, the port is listed or the process is blocked. |
| `LsmConnect.KernelAgreesWithConfig` | bpf/lsm.bpf.c:193-291 | After any such history the kernel denies a connection exactly when it is not the agent's and a configured subnet contains the destination, the port is listed or the process is blocked. |
| `LsmConnect.KernelAgreesWithHistory` | bpf/lsm.bpf.c:193-291 | After any history of configurations, successful or given up, additions and removals, from any maps, the kernel denies a connection exactly when it is not the agent's and the history holds a prefix of the destination or its port, or the process is blocked. |
| `ConnTracking.Tracker.TraceConnect` | bpf/network.bpf.c:51-156 | The connect handler on both insert-if-absent maps, including a full map; from equal key sets it keeps them equal and the two overflow counters in step. |
| `ConnTracking.Tracker.TraceClose` | bpf/network.bpf.c:175-235 | The close handler, with and without ring-buffer space, including the fallback re-read, the 64-bit subtraction and the duration written over the start of the destination. |
| `ConnTracking.DomainsEqual` | bpf/network.bpf.c:20-45 | In every reachable state the two maps have the same keys and at most 65536 of them. |
| `ConnTracking.StoredTogether` | bpf/network.bpf.c:51-156 | The stored start time and tuple of a socket come from one and the same connect, which nothing has closed since. |
| `ConnTracking.ConnectStores` | bpf/network.bpf.c:94-154 | An accepted connect of a socket that is not stored, below capacity, stores exactly its own start time and tuple, whether or not its event is emitted. |
| `ConnTracking.TrackedIff` | bpf/network.bpf.c:51-235 | In every reachable state a socket is stored exactly if some accepted connect of it that found room was not closed since, and what is stored is the first such connect since the last close. |
| `ConnTracking.TrackedWithRoom` | bpf/network.bpf.c:51-235 | While no connect meets a full map, a socket is stored exactly if some accepted connect of it was not closed since. |
| `ConnTracking.ReportedIff` | bpf/network.bpf.c:97-235 | A connect is reported exactly if it is accepted, sampled and finds space, and a close exactly if its socket is tracked and there is space. |
| `ConnTracking.FirstConnectReported` | bpf/network.bpf.c:51-235 | A connect on empty maps and its close 100 nanoseconds later, with the record it gives. |
| `ConnTracking.CloseReportsItsConnect` | bpf/network.bpf.c:175-235 | The record of a close of a tracked socket is filled from that connect, never from the re-read: its duration, source, ports, family and the last eight destination octets are right, and its destination exactly when the first eight octets are the duration. |
| `ConnTracking.OverlayReads` | internal/bpf/events.go:509-549 | The agent reads back the duration that the kernel wrote, and the last eight octets of the destination. |
| `ConnTracking.DestinationKeptIff` | bpf/network.bpf.c:230-231 | A record carries the destination exactly if its first eight octets, read little-endian, are the duration. |
| `ConnTracking.Ipv4KeptIff` | bpf/network.bpf.c:230-231 | An IPv4 destination a.b.c.d survives exactly in a connection of a + 256b + 256^2 c + 256^3 d nanoseconds, so never in one of 2^32 nanoseconds or more. |
| `ConnTracking.MinuteOverwrites` | bpf/network.bpf.c:230-231 | A connection to 10.0.0.1 that lasts a minute is reported with another destination. |
| `ConnTracking.CloseForgets` | bpf/network.bpf.c:175-235 | After a close the socket is in neither map. |
| `ConnTracking.ReportedOnce` | bpf/network.bpf.c:175-235 | Of two closes of a tracked socket in one run, the later is filled from a connect that came after the earlier: no connect is reported twice. |
| `PrivEsc.Monitor.EmitPrivesc` | bpf/privesc.bpf.c:38-63 | Submits a change and stores the new set, unless nothing changed or there is no space; the store is refused for a new process in a full map. |
| `PrivEsc.Monitor.TraceCapset` | bpf/privesc.bpf.c:71-93 | Stores the empty set for a process that has none, if the map has room. |
| `PrivEsc.Monitor.TraceCommitCreds` | bpf/privesc.bpf.c:101-127 | Emits the change from the stored set, or from nothing, to the committed one. |
| `PrivEsc.EveryPidTracked` | bpf/privesc.bpf.c:38-127 | In every reachable state a stored set is the end of the process's chain of events, and a process without a place has only events that start from nothing. |
| `PrivEsc.ChainIff` | bpf/privesc.bpf.c:38-127 | Over every run with any ring-buffer failures a process's events form a chain, each from where the last ended, the first from nothing and each a change, exactly when it got a place in the map or has at most one event. |
| `PrivEsc.ChainWithRoom` | bpf/privesc.bpf.c:38-127 | While the map is not full every process has a chain. |
| `PrivEsc.FullMapBreaksChain` | bpf/privesc.bpf.c:20-63 | After any run that fills the map, two reported commits of a new process give events that both start from nothing. |
| `PrivEsc.FillStores` | bpf/privesc.bpf.c:71-93 | There is such a run. |
| `PrivEsc.ReplayIff` | bpf/privesc.bpf.c:38-127 | For every process, refused by a full map or not: replaying its events gives its current effective set exactly when its last commit was reported, or committed what its events replay to anyway. |
| `PrivEsc.AdmittedReplayIff` | bpf/privesc.bpf.c:38-127 | For a process the map did not refuse: exactly when its last commit found ring-buffer space or made no change. |
| `PrivEsc.RefusedReplayIff` | bpf/privesc.bpf.c:38-127 | For a process without a place in the map, in terms of its commits alone: exactly when its last commit is a non-empty one with ring-buffer space, or equals the last such one before, empty if there is none. |
| `PrivEsc.RefusedDropUnseen` | bpf/privesc.bpf.c:20-127 | After any run that fills the map, a new process gains capabilities and drops them, both with ring-buffer space: its one event is a chain, and its replay is not the effective set. |
| `DropLogger.Logger.constructor` | internal/collector/collector.go:76-78 | Starts with nothing pending and no log time. |
| `DropLogger.Logger.Record` | internal/collector/collector.go:82-101 | A call that nobody interrupts: if the interval has passed since the installed time it installs its clock reading and logs all pending drops with its own, otherwise it only counts; and that is what its six atomic actions do in a row. |
| `DropLogger.DropsConserved` | internal/collector/collector.go:82-101 | Under every interleaving of the atomic operations of any number of callers, logged, taken and pending counts add up to the recorded drops. |
| `DropLogger.SilentOnlyIf` | internal/collector/collector.go:82-101 | Under every interleaving a call ends without a line only if its clock reading was less than the interval past the installed time it read, another caller installed a time after it had read it, or its count had been taken. |
| `DropLogger.WinnerLogs` | internal/collector/collector.go:91-99 | The caller that installs its time takes all pending counts and writes them with its own clock reading. |
| `DropLogger.CallsAdvance` | internal/collector/collector.go:82-101 | No caller waits for another: each atomic action of a call comes one step further or ends it. |
| `DropLogger.AlwaysThrottled` | internal/collector/collector.go:82-101 | Under every interleaving successive installed times grow by at least the interval, and no span holds more lines than installed times. |
| `DropLogger.SpacedCount` | internal/collector/collector.go:67-74 | A list of times that far apart has at most span / interval + 1 entries in any span. |
| `DropLogger.LinesThrottled` | internal/collector/collector.go:67-101 | Under every interleaving at most span / interval + 1 log lines carry times within any span. |

## Left out

- Loading and attaching eBPF objects, reading ring buffers, scanning `/proc` and discovering uprobes: foreign calls without visible semantics.
- Cloud collectors, API client, admission webhook, BTF download and `cmd/ebpf-guard/main.go`: network clients and wiring.
- The fixed-offset parsers of `internal/bpf/events.go` and the C struct layouts: easy members, except that the two readings of a close record are modelled.
- The kernel side of DNS capture in `bpf/dns.bpf.c`: the model starts from the payload in the agent.
- The syscall argument map of `bpf/syscall.bpf.c`: enter and exit are not matched under sampling.
- `KernelFilterController`, `GetStats` and the limiter's own `SetSamplingRate`: single writes and reads.
- `applyRingBufLoadDefaults`: the load configuration is the one after defaulting.
- Prometheus gauges, log text, pinning to bpffs and drain sleeps: no effect on the modelled state; the two update counters are kept.
- Entropy, bigram and other scores of a domain: the analysis is an arbitrary function of the settings and the lower-cased name. A computation reads its settings at one moment.
- Floating-point rounding: rates and thresholds are exact reals, and a fill level is any real.
- Overflow of times and of the 64-bit drop counts: integers are unbounded there. Sampling counters do wrap.
- Rendering of addresses, query types and response codes as text, and textual CIDR parsing: a configured subnet is already malformed, IPv4 or IPv6.
- Interleaving inside one BPF handler: handlers are atomic steps. Per-CPU sampling counters: one CPU is modelled.
- Nil blocklist maps and the rate of a nil event counter: all maps exist.
- LiveUpdate.LiveUpdater.RegisterLink: requires that the link is not registered under another name, so that links are independent; one link under two names is not modelled. A program in a collection is never nil.
- LsmConnect.ReloadsStayClean: the maps start with tracked entries only and none is added by hand; `KernelAgreesWithHistory` is without these.
- HeaderMask.SecretsDoNotPropagate: covers the lines that a line feed ends; what holds of all credentials is `CredentialsHiddenIff`.
- LiveUpdate.RunStaysConsistent: is about runs whose collections cover the links; other runs are in `CallsCounted`, `OnlyActiveOpen` and `LinksFollowIff`. What a failed call that is not undone leaves, failing rollback updates included, is `FailedLinks`.
- SamplingStack.SamplingCeilingEndToEnd: no wrap of the counter, beyond which `SamplingCeilingIff` says what holds.
- LoadControl.DivisorBounds: rates above 2^-32; what a float conversion gives beyond 32 bits is the machine's, and the floor holds all the same.
