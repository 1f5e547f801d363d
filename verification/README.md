# NetDash: a verified model of its algorithms and protocols

NetDash watches the switches, firewalls, servers and plant devices of a factory network. Around a web
front end and an SQLite file it contains a number of small algorithms and protocols whose mistakes would be
silent: an SNMP codec and table walk, a collection queue shared by several threads, a facility scan that
decides which devices are offline, the election of the one server that may write, a rate limiter, and
arithmetic over times and counters. This project models those in Dafny and proves what they promise.

Run `dafny verify dfyconfig.toml` here to check everything.

## How the model is built

Each module models one component; a code path that changes state step by step is a method (in a class where
the program keeps the state in an object or in module variables), proved equal to a specification function,
and the properties are lemmas about that function. Threads and processes are modelled as step relations over
atomic steps, and the theorems about them quantify over every sequence of steps.

- `Decimal`, `Text`, `Wrappers`: numerals, dotted strings, string helpers, `Option`/`Result`.
- `Ber`, `SnmpMessage`, `SnmpRequest`, `SnmpWalk`, `SnmpAgent`: the codec, the message parser, the exchange, the layout
  of requests as the standards have it, the GETBULK walk and an agent for it (ITU-T X.690 sections 8.1.3, 8.3, 8.19;
  RFC 3416 sections 3 and 4.2.3).
- `CollectQueue`, `CollectCredentials`: the collection queue and its credential store, in every interleaving.
- `Attachment`, `Uplinks`, `BandSweep`, `SweepScript`, `FacilityScan`, `FacilityTable`, `ScanMonitor`: the facility scan,
  from the ping loop to the table, and the monitor between scans.
- `Election`, `RateLimit`: the writing server and the sliding-window limiter.
- `LogWindow`, `Schedule`, `ScheduleRuns`, `Counters`, `Rack`, `RackItems`, `RackRace`, `Notifier`: time windows,
  daily slots, counter increments, rack positions, the rack-item table with saves one at a time and at once, and
  the alarm mailer.

Where a method and its specification share a definition (which ports are physical, what counts as recent, which
requests are sent), a second definition, written from the documentation or the standard and without the first, is
proved to agree with it on all inputs.

What comes from outside (datagrams, switch sessions, ARP reads, clocks, settings, the mail server, the
operating system's byte lock) is a parameter, often a script of everything that may happen, so the theorems
hold for every behaviour of it unless they say otherwise.

## What the model found

Where the code does less than its documentation says, the model keeps the code, gives the failing input and
proves exactly when the promise holds.

- An identifier whose second arc is 40 or more is decoded differently from what was encoded: `2.100`
  becomes `4.20` (`Ber.JointIsoArcIsMisread`; exact condition in `Ber.OidRoundTripIff`).
- Stopping a queued collection and submitting it again at once can delete the new submission's credential,
  because the canceller unmarks the id before it clears the entry
  (`CollectQueue.LateDisposalLosesCredential`). A waiting job is sure of its credential exactly when no thread
  is between those two steps for its id (`CollectCredentials.CredentialSafeIff`). It never gets somebody
  else's (`CollectQueue.CredentialsAlways`).
- A scan that breaks off with an exception whose message is empty counts as complete. After 32 pings and a
  first ARP read, a dead session and a reconnect that fails without a message put hosts up for judgement that
  were never pinged (`BandSweep.MutedAbortJudgesUnpinged`). In every other run exactly the hosts with a completed
  ping are judged (`BandSweep.SweepJudgesIff`). A host stored under an address that is not a host address of the
  band is never pinged, and is judged by a complete scan.
- A silent host whose MAC is still in a MAC table comes back online without an event
  (`FacilityScan.SilentRecovery`; exact condition in `FacilityScan.SilentRecoveryIff`).
- One known member marks its port-channel as an uplink but not its fellow members (`Uplinks.OneMemberKnown`;
  exact condition in `Uplinks.OnePassIff`; a second pass would do, `Uplinks.TwoPassesSuffice`).
- A band scan does not wipe the monitor's slate: a host missed once, then found by a scan, goes offline at its next
  miss (`ScanMonitor.ScanBetweenMisses`; exact condition in `ScanMonitor.OfflineIff`).
- A start that cannot open the lock file opens its gate beside the holder's
  (`Election.UnlockedStartOpensTwoGates`), and a promotion that fails after it opened the gate leaves two gates
  open for a moment (`Election.LateFailureOpensTwoGates`). From any state, two open gates can come about without
  another such step exactly when some gate is already open without the lock or on the way to losing it
  (`Election.TwoGatesIff`).
- A failed promotion releases the lock before it takes back write access to the database
  (`Election.DatabaseFlagsOverlap`; exact condition in `Election.TwoWritableIff`).
- The year repair of log times leaves a 29 February in its own year, out of order, when the year it belongs
  to has none (`LogWindow.LeapDayStaysBehind`; exact condition in `LogWindow.OrderRestoredIff`).
- A scheduler pass that fails after starting its slots leaves only the last of them remembered, so the next
  pass can start one again. Collections are started at most once for each occurrence, over every run with any
  failures, exactly when the times of the day are at least five minutes apart
  (`ScheduleRuns.AtMostOnceIff`; for a single retry `ScheduleRuns.RestartedIff`).
- An occurrence is remembered before it is started, so one whose start raises is never started again
  (`ScheduleRuns.RaisedStartIsLost`; exact condition, gaps above 300 seconds included, in
  `ScheduleRuns.StartedExactly`).
- Two rack-item saves at the same time can both find their place free and end up overlapping
  (`RackItems.InterleavedSavesOverlap`). With any number of requests, and whatever they have checked so far, an overlap
  can come about without a further check exactly when a checked row overlaps a stored one, or two checked rows
  overlap, without starting at the same unit, which the unique key would see (`RackRace.OverlapComesIff`, which also
  settles when two updates block each other).
- A letter prints its first fifty events and gives only the number of the others
  (`Notifier.ConservedAlways` keeps the two apart).

A limit of zero would admit the first request of a key (`RateLimit.ZeroLimitAdmitsFirst`), but every call site
in app.py passes a limit of 4 or more, and from 1 on the limiter is exact (`RateLimit.IdealIff`). Likewise `_enc_len`
would leave the long-form bit out once the length itself needs 128 octets (`Ber.LengthRoundTripIff`), but contents of
256^127 octets or more fit in no computer.

## Model

| member | source | states |
|---|---|---|
| Decimal.ArcsOfDotted | core/snmp_collect.py:93 | splitting and converting a printed identifier gives back its arcs, for every list of arcs |
| Decimal.EmptyPartsIgnored | core/snmp_collect.py:93 | superfluous dots before and between the numbers change nothing |
| Text.CaseFolds | core/facility.py:119 | two texts have the same lower case, and the same upper case, if and only if they differ in the case of the 26 letters only |
| Text.Stripped | core/facility.py:119 | stripping takes away blanks at both ends, all of them there, and nothing else |
| Decimal.PrefixIsSubtree | core/snmp_collect.py:331 | the string test for the base followed by a dot is exactly membership in the subtree below the base |
| Ber.EncodeLength | core/snmp_collect.py:68-75 | the loop computes the short or long form, and fails exactly from 256 length octets on |
| Ber.ReadLength | core/snmp_collect.py:111-121 | the loop computes the length at an index and the index after it, or runs off the end exactly when the octets are missing |
| Ber.LengthRoundTripIff | core/snmp_collect.py:68-121 | a length is read back in front of any trailing octets if and only if its long form has fewer than 128 octets (X.690 section 8.1.3) |
| Ber.TlvRead | core/snmp_collect.py:78-121 | in any buffer, tag, length and contents of a TLV are found where it was placed |
| Ber.EncodeInteger | core/snmp_collect.py:82-89 | the wide conversion never overflows, and stripping octets ends in the one shortest content of the value (tag and length are checked by the reader of SnmpRequest.BuiltAsStandard) |
| Ber.BitLengthBounds | core/snmp_collect.py:85 | `bit_length() // 8 + 1` octets hold every integer |
| Ber.SignedIsTwosComplement | core/snmp_collect.py:124-132 | the signed and the unsigned reading of octets differ by the weight of the sign bit |
| Ber.IntegerRoundTrip | core/snmp_collect.py:82-128 | every integer is decoded from its content octets, and these are not redundant (X.690 section 8.3.2) |
| Ber.IntegerContentUnique | core/snmp_collect.py:82-128 | every octet string that is not redundant is the content the encoder gives for the integer it denotes |
| Ber.IntegerContentShortest | core/snmp_collect.py:82-89 | no octets denoting the same integer are fewer |
| Ber.EncodeOid | core/snmp_collect.py:92-107 | the two nested loops compute the content octets, and fail exactly for fewer than two arcs or a first octet above 255 |
| Ber.DecodeOid | core/snmp_collect.py:135-145 | the accumulator loop computes the printed identifier of any octets |
| Ber.DecodeArcs | core/snmp_collect.py:97-145 | base-128 decoding gives back every list of arcs, of any size |
| Ber.ArcIsShortest | core/snmp_collect.py:101-106 | no arc starts with a padding octet (X.690 section 8.19.2) |
| Ber.OidRoundTripIff | core/snmp_collect.py:92-145 | arcs from the third on always come back; the whole identifier does if and only if its second arc is below 40 |
| Ber.JointIsoArcIsMisread | core/snmp_collect.py:96-138 | 2.100 is encoded as one octet and printed as 4.20 |
| SnmpMessage.Parse | core/snmp_collect.py:148-232 | on arbitrary octets the cursor loop ends, returns what the specification reads, and never more than one varbind per two octets |
| SnmpMessage.AcceptedForOneRequestOnly | core/snmp_collect.py:179-192 | a datagram that is taken for the answer to one request id and community is dropped under any other |
| SnmpMessage.MessageRoundTrip | core/snmp_collect.py:170-232 | a well-formed message parses to its identifiers and values in order, or to the agent's error, or is refused for its kind, a foreign community or request id, in exactly these cases |
| SnmpMessage.StrangerEndsList | core/snmp_collect.py:203-232 | an element that is no varbind ends the list without an error, and what stood before it is kept |
| SnmpMessage.SliceIs | core/snmp_collect.py:182-218 | contents that run past the end of the datagram are cut short |
| SnmpMessage.RequestRoundTrip | core/snmp_collect.py:252-259 | a built GET or GETBULK request reads back as the identifiers asked for, in order and with null values, under its own id and community |
| SnmpMessage.ValueRoundTrip | core/snmp_collect.py:219-231 | INTEGER, unsigned, identifier, NULL, string, the three exceptions of a missing row, and values of any other tag are understood as what the agent meant |
| SnmpMessage.JunkIsIgnored | core/snmp_collect.py:279-291 | any number of forged, cut or foreign datagrams before the genuine one changes nothing |
| SnmpMessage.ExchangeDecides | core/snmp_collect.py:270-303 | the first attempt that brings a datagram to go by, or a refusal, decides: reply, error status or closed port; if there is none, the agent is silent |
| SnmpRequest.BuiltAsStandard | core/snmp_collect.py:68-259 | every message built reads back, by a reader that checks each tag and the shortest form of each number, as its version, community, kind, request id, both fields and varbinds |
| SnmpRequest.RequestIsGetBulk | core/snmp_collect.py:318-322 | what a walk asks is, to that reader, GETBULK of version 2c for the twenty successors of one identifier, with a null value |
| SnmpRequest.OneQuestion | core/snmp_collect.py:252-259 | the octets of a request tell its community, id and identifier |
| SnmpRequest.IdsDiffer | core/snmp_collect.py:252-254 | of 2^31 requests in a row no two have the same id |
| SnmpRequest.RequestOctets | core/snmp_collect.py:252-259 | one request, octet by octet |
| SnmpWalk.Session.Pdu | core/snmp_collect.py:252-259 | the request id moves on by one modulo 2^31 and the message is built from it |
| SnmpWalk.Session.Send | core/snmp_collect.py:261-303 | the first datagram that is not dropped decides, a refusal ends at once, silence is retried |
| SnmpWalk.Session.Walk | core/snmp_collect.py:308-342 | the nested loops collect what the recursive specification of the walk gives, for any network; every message sent is GETBULK for the base or a row collected by then, under the next request id |
| SnmpWalk.WalkIsBounded | core/snmp_collect.py:308-342 | against any agent or forger at most `max_rows` rows come back, all printed under the base and none null |
| SnmpWalk.NothingIsLost | core/snmp_collect.py:311-326 | rows once collected are returned, whatever fails afterwards |
| SnmpWalk.NothingAfterDeadline | core/snmp_collect.py:318-321 | nothing that could come back after the budget is spent makes a difference |
| SnmpWalk.RetriesAreHarmless | core/snmp_collect.py:270-303 | attempts that bring only dropped datagrams do not change the outcome of the exchange |
| SnmpWalk.SubtreeIsContiguous | core/snmp_collect.py:331-332 | between a root and a member of its subtree, in lexicographic order, lie only members: stopping at the first stranger loses nothing |
| SnmpWalk.SubtreeIsRun | core/snmp_collect.py:330-332 | in a sorted table, the rows under a base are one run starting right after it |
| SnmpWalk.AbsorbRun | core/snmp_collect.py:330-339 | one reply carries the walk along that run and stops only at the row limit or at the end of the run |
| SnmpWalk.WalkFollowsRun | core/snmp_collect.py:318-342 | from any point of the run, the remaining rounds collect the rest of it |
| SnmpWalk.WalkIsSubtree | core/snmp_collect.py:308-342 | against an agent that answers octets which are a GETBULK request, and no others, with some non-empty run of successors, the walk is the first `max_rows` rows strictly under the base, in order (RFC 3416 section 4.2.3) |
| SnmpWalk.WalkIsPrefix | core/snmp_collect.py:308-342 | partial results are right as far as they go: with unanswered, refused or rejected requests and the time running out in any round, against an agent that tells nothing but its table, the walk is a beginning of the rows strictly under the base |
| SnmpAgent.EveryTableIsServed | core/snmp_collect.py:308-342 | for every sorted table of moderate size there is an agent that reads the octets by the standard and answers as the walk theorem asks |
| SnmpAgent.ServedWalk | core/snmp_collect.py:308-342 | and, for one table of two rows, the walk of that agent finds the one row under its base |
| CollectQueue.Collector.CollectSwitch | core/collector.py:728-774 | which of the four answers is given, and the whole shared state after each |
| CollectQueue.AnswersTell | core/collector.py:728-774 | queued exactly when the job is at the end of the old queue, marked and with its credential; in progress exactly when the id was marked, and then nothing changes; the two errors each by its own cause, with the id unmarked and no entry left |
| CollectQueue.Collector.AbortEnqueue | core/collector.py:777-781 | the id is unmarked and its credential cleared |
| CollectQueue.Collector.CancelPending | core/collector.py:794-812 | every queued switch and nothing else is released, and the count is right |
| CollectQueue.Collector.WorkerLoopOnce | core/collector.py:1204-1217 | whatever becomes of the job, its id is released and its credential disposed of |
| CollectQueue.SubmitIsRun | core/collector.py:728-781 | an uninterrupted `CollectSwitch` is a run of one idle thread in the step relation, from any state of the others, with the same result |
| CollectQueue.WorkIsRun | core/collector.py:1204-1217 | so is an uninterrupted `WorkerLoopOnce`, with the credential it loads on the way |
| CollectQueue.CancelIsRun | core/collector.py:794-812 | and an uninterrupted `CancelPending`, for every queue |
| CollectQueue.FirstInFirstOut | core/collector.py:749-803 | in every run, with any number of threads, the jobs taken to collect or to cancel, followed by those queued, are the jobs put in, in the order of putting |
| CollectQueue.StepBalance | core/collector.py:728-812 | no atomic step of any thread makes or loses the ownership of an id |
| CollectQueue.OwnedAlways | core/collector.py:728-812 | in every state of every interleaving, the in-progress set is the disjoint union of ids held by submitters, the queue, workers and cancellers |
| CollectQueue.OneOwner | core/collector.py:728-736 | so no id is queued twice, held by two threads, or held while it is queued |
| CollectQueue.CredentialsAlways | core/credentials.py:38-87 | when every submission carries credentials, what a worker loads is its own job's credential or nothing, in every interleaving |
| CollectQueue.EntryNeverReplaced | core/credentials.py:38-40 | a rejected duplicate, or any other step of another thread, never replaces the entry of a job that is queued or in hand |
| CollectQueue.CredentialKept | core/collector.py:777-812 | while nobody has unmarked the id without clearing it, each step leaves a queued job its credential, or takes the job up |
| CollectCredentials.CredentialSafeIff | core/collector.py:777-914 | from saving to pick-up, a job with its own credential stored loads it in every continuation if and only if no thread is between unmarking and clearing its id |
| CollectQueue.LateDisposalLosesCredential | core/collector.py:809-812 | a run in which a resubmitted job finds its credential deleted by the canceller |
| CollectQueue.AccountedAlways | core/credentials.py:79-87 | every stored credential has a queued job or a thread that will still clear it |
| CollectQueue.EveryStepDrains | core/collector.py:777-812 | without new submissions every step lowers a measure |
| CollectQueue.NeverStuck | core/collector.py:1204-1217 | while the measure is positive some thread can take its next step |
| CollectQueue.DrainsToEmpty | core/collector.py:1204-1217 | a run without new submissions takes at most that many steps, and where the measure is zero no id is in progress, the queue is empty and no credential is in memory |
| CollectQueue.ReachesEmpty | core/collector.py:1204-1217 | from every reachable state there is a run without submissions to that empty state |
| Attachment.ChooseAttachment | core/facility.py:211-299 | the choice is the best observation by class, MAC count and position among those off uplinks; the direct flag is the declarative one; every other observation is listed once, in order; and all this in terms of the ports, see Attachment.ChoiceMeans |
| Attachment.ChoiceMeans | core/facility.py:109-299 | told from switch, port name, counts and uplinks alone: nothing on an uplink is direct or chosen before a port off uplinks; of the ports whose names begin like no logical interface the one with the fewest MACs is chosen, then channels with members, then the first; direct needs at most 4 MACs or half as many as on any rival |
| Attachment.PhysicalIff | core/facility.py:111-122 | a port is physical if and only if its stripped name begins with none of seven prefixes in any case |
| Attachment.SortByCount | core/facility.py:251-277 | the stable sort by MAC count: sorted, ties by position, same elements |
| Attachment.NeverDirectOnUplink | core/facility.py:289-295 | an attachment on a port known to lead to another switch is never direct |
| Attachment.LeastPhysicalChosen | core/facility.py:251-263 | whenever a physical port off uplinks has seen the MAC, one with the least count is chosen |
| Attachment.DirectByPhysical | core/facility.py:256-262 | comparing the two smallest counts decides the same as comparing all of them |
| Attachment.DirectIgnoresOrder | core/facility.py:211-299 | the direct flag does not depend on the order of the observations |
| Uplinks.Propagate | core/facility.py:202-208 | the loop computes the pass over the channels |
| Uplinks.PassAddsExactly | core/facility.py:202-208 | for separate channels, in any order, the pass adds the members of known channels and the channels of known members, and nothing else |
| Uplinks.OnePassIff | core/facility.py:197-208 | each channel ends up together with its members if and only if it was known itself, or none of its members was, or all were |
| Uplinks.OneMemberKnown | core/facility.py:202-208 | a channel of two members, of which one is known: afterwards the channel is known and the other member is not |
| Uplinks.TwoPassesSuffice | core/facility.py:197-208 | a second pass would bring them together always |
| BandSweep.JudgedIffCompleted | core/facility.py:852-864 | for the computed set: an address in no ARP read is up for judgement if and only if it was passed over without an error, except in a muted scan for addresses not reached |
| BandSweep.MutedAbortJudgesUnpinged | core/facility.py:738-858 | in every band of more than 32 addresses, 32 completed pings, one ARP read, a dead session and a reconnect that fails without a message put the 33rd address up for judgement |
| BandSweep.Sweep | core/facility.py:718-864 | the loop ends on every script of stops, ping outcomes, reconnects and reads, with the ARP entries, scanned set or failure that the script determines (told from the script alone in SweepScript) |
| BandSweep.SweepJudgesIff | core/facility.py:738-864 | for every script, an address of the band in no ARP read is up for judgement if and only if its ping is completed in the script's log, except in a muted run for pings that never ended |
| BandSweep.SweepOutside | core/facility.py:852-864 | an address outside the band is judged if and only if the run was not stopped and reported no error; then every ping was completed or the run was muted |
| SweepScript.EntriesIff | core/facility.py:703-834 | the ARP entries a scan ends with, from the script alone: an address of the last read, if that is made; else of the latest read, after a multiple of 32 addresses passed over, that held it, with that MAC; and of the search through the VRFs if and only if no read held anything |
| SweepScript.FailsIff | core/facility.py:724-795 | a scan fails if and only if it cannot connect, or an exception keeps it from its last read and nothing was read before |
| SweepScript.CompletedIff | core/facility.py:738-783 | which pings are completed, and which come to an end, from the script alone |
| SweepScript.JudgedByScript | core/facility.py:738-864 | who is up for judgement, from the script alone |
| SweepScript.MutedIff | core/facility.py:788-795 | a run is muted if and only if a turn with addresses left ends it with an empty message, or the sixth session is lost and the last read fails with one |
| SweepScript.CleanIff | core/facility.py:852-864 | a run is clean if and only if nobody stops it, no ping ends with an error of its own, and no error is reported |
| FacilityScan.ApplyScan | core/facility.py:1207-1280 | the two loops compute the merged rows, the events and the two counts |
| FacilityScan.MergeCoversUnion | core/facility.py:1207-1280 | one row for each address stored or seen and no other; a silent host keeps all but its flag, and the flag too outside the scanned set; inside, it is online exactly if its MAC is in a MAC table |
| FacilityScan.MergeCounts | core/facility.py:1207-1280 | the counts are the numbers of rows, of new addresses and of hosts that go offline |
| FacilityScan.EventsOnce | core/facility.py:1218-1272 | no event is recorded twice |
| FacilityScan.MovedEventIff | core/facility.py:1232-1246 | `device_moved` is recorded exactly for hosts stored and answering with the same MAC, both times directly attached at a named switch, now at another switch or port |
| FacilityScan.EventsMatchTransitions | core/facility.py:1220-1272 | `new_device` is recorded exactly for new addresses, `device_offline` exactly for rows that turn from online to offline |
| FacilityScan.RecoveryEventIff | core/facility.py:1227-1231 | `device_online` is recorded exactly for hosts stored as offline that answered |
| FacilityScan.SilentRecoveryIff | core/facility.py:1252-1257 | a row turns online without that event if and only if its host was stored as offline, did not answer, was up for judgement and has its MAC in a MAC table |
| FacilityScan.SilentRecovery | core/facility.py:1252-1257 | such a recovery |
| FacilityScan.BuildByIp | core/facility.py:837-850 | one online host for each ARP address, with the best attachment of its MAC |
| FacilityScan.CollectBand | core/facility.py:718-881 | from ping loop to table, for every script and told from it alone: hosts in the ARP reads are stored as online, with the MAC of the latest read and its best attachment; any other stored host keeps everything but its flag, and is judged by the MAC tables exactly if its ping was completed (or never ended, in a muted run; or the run was clean, for an address outside the band); one row is left for each address stored or seen that is no managed device; of the rows of other subnets exactly those go whose address the scan takes over; one row per address and the unique key survive; the three counts are right; a failed scan, or one without ARP over a populated band, changes nothing |
| FacilityTable.FacilityDb.SaveFacilityHosts | core/db.py:2047-2082 | the table after saving a batch |
| FacilityTable.FacilityDb.ReplaceFacilitySubnet | core/db.py:2097-2140 | the table after replacing a subnet |
| FacilityTable.FacilityDb.DedupeFacilityByIp | core/db.py:1997-2023 | one row for each address afterwards, and the number removed |
| FacilityTable.SavedKeepsIff | core/db.py:2026-2082 | saving keeps one row per address if and only if the batch does not put one address into two subnets |
| FacilityTable.ReplacedKeeps | core/db.py:2097-2140 | so does replacing a subnet, for such batches |
| FacilityTable.SavedOrigin | core/db.py:1932-1950 | every row after a save was there before or is a host of the batch that is no managed device and no virtual server |
| FacilityTable.ReplacedOrigin | core/db.py:2097-2140 | a replaced subnet holds hosts of the batch and nothing else |
| FacilityTable.ReplacedHolds | core/db.py:2097-2140 | and every host of it that is no managed device |
| FacilityTable.ReplacedOthers | core/db.py:2026-2140 | of the rows of other subnets, replacing a subnet deletes those with an address of the batch that is no managed device, and no more |
| FacilityTable.ReplacedUnique | core/db.py:2097-2140 | and no subnet and address appear twice afterwards |
| FacilityTable.DedupeEstablishes | core/db.py:1997-2023 | from any table: one row per address, the latest-updated row of each address survives, the one with the highest row id if there are several, and rows without an address stay |
| ScanMonitor.Monitor.MonitorKnownHosts | core/facility.py:1367-1460 | the table after one call, the miss entry of every host, the two counts, and which entries are forgotten |
| ScanMonitor.JudgeAll | core/facility.py:1382-1432 | the loop judges every host once, keeps its miss entry and counts the turns both ways |
| ScanMonitor.Visit | core/facility.py:1393-1432 | the branches of the loop body judge one host as specified |
| ScanMonitor.WriteAll | core/facility.py:1438-1446 | the loop over the changed subnets rewrites the table subnet by subnet, with any of the writes failing |
| ScanMonitor.RewrittenIff | core/facility.py:1438-1446 | after these writes, for any table, a row is stored if and only if it is a judged row of a written subnet, or a stored one of another, that no later write displaced by bringing its address |
| ScanMonitor.CallIsAfter | core/facility.py:1393-1432 | a call, seen from one host with a MAC, is one step of the runs below |
| ScanMonitor.NoMacNoJudgement | core/facility.py:1393-1395 | a host without a MAC is left alone |
| ScanMonitor.TurnedIs | core/facility.py:1413-1432 | the counts are the numbers of hosts taken from one flag to the other |
| ScanMonitor.MissHeldIff | core/facility.py:1337-1426 | over any run, band scans included, the miss table holds a miss of a generation if and only if a call of that generation missed the host while it was online with a clean slate, and it was neither seen nor missed again since; never more than one |
| ScanMonitor.OfflineIff | core/facility.py:1413-1425 | a call puts a host offline if and only if it misses the MAC in another generation than that of the miss held, and its write goes through |
| ScanMonitor.OfflineNeedsTwoGenerations | core/facility.py:1413-1425 | so only after an earlier miss in another snapshot generation, with no sighting by the monitor between |
| ScanMonitor.TwoGenerationsGoOffline | core/facility.py:1413-1425 | and it does go offline at such a call while writes succeed |
| ScanMonitor.OneGenerationIsNotEnough | core/facility.py:1417-1418 | any number of looks at one generation, with scans in between, puts no host offline |
| ScanMonitor.SightingRestores | core/facility.py:1410-1432 | a call that sees the MAC leaves the host online with a clean slate |
| ScanMonitor.ScanBetweenMisses | core/facility.py:1207-1280 | missed, found by a band scan, missed in the next generation: the host goes offline |
| Election.InstanceLock.Acquire | core/instance_lock.py:64-116 | when success is reported, who holds the byte lock, and whether a handle is kept |
| Election.InstanceLock.Release | core/instance_lock.py:119-144 | the lock is freed if and only if this instance held it |
| Election.LockAlways | core/instance_lock.py:64-144 | in every run, handle and lock go together and promotion holds the lock throughout |
| Election.AtMostOneWriter | app.py:822-882 | however many instances start, poll, fail, stop and crash: at most one request gate is open, and it is the lock holder's, unless a start could not open the lock file or a promotion failed after opening its gate |
| Election.TwoGatesIff | app.py:822-882 | from any reachable state of two or more instances, a run without a further step of those kinds can bring two open gates if and only if some gate is open without a lock to keep |
| Election.PromotionNeedsLock | app.py:850-871 | nobody is promoted without the lock, and an instance that cannot open the lock file keeps watching |
| Election.FailoverCompletes | app.py:850-871 | when the holder is gone, a watching instance that can open the file takes over |
| Election.StartOutcomes | core/instance_lock.py:64-116 | a start serves with the lock, watches read-only beside a holder, or serves without the lock where it cannot open the file |
| Election.FailureIsUndone | app.py:868-882 | a failed promotion leaves the instance watching as before, read-only, and the lock free |
| Election.StopFrees | core/instance_lock.py:119-144 | a stopped instance closes its gate at once and frees the lock it has, and so does a crash |
| Election.LockNotTaken | core/instance_lock.py:64-144 | nobody takes the lock from its holder |
| Election.TwoWritableIff | app.py:822-882 | two database flags can come to be set together, without a further such step, if and only if some instance has the flag without the lock; it then released a failed promotion's lock or started without the lock file |
| Election.DatabaseFlagsOverlap | app.py:877-882 | a run with two writable database flags and one open gate |
| Election.UnlockedStartOpensTwoGates | core/instance_lock.py:81-92 | a run with two open gates after a start that could not open the lock file |
| Election.LateFailureOpensTwoGates | app.py:822-882 | a run with two open gates after a promotion that failed late |
| RateLimit.Limiter.Admit | app.py:717-745 | the decision and the tracker after it |
| RateLimit.TrackerIsFaithful | app.py:723-743 | after any run, pruning and sweeping have kept every accepted request that can still matter |
| RateLimit.DecisionsAreIdeal | app.py:723-743 | for every chronological run, each decision is that of a limiter that remembers everything: the sweep never shows |
| RateLimit.IdealIff | app.py:723-743 | the decisions are the ideal ones if and only if no request of the run has a limit below one |
| RateLimit.ZeroLimitAdmitsFirst | app.py:727-734 | with a limit of zero the first request is admitted |
| RateLimit.AtMostLimitPerWindow | app.py:723-734 | in any window at most the limit is accepted for each key |
| RateLimit.RefusedIff | app.py:723-735 | a request is refused if and only if at least as many accepted requests of its key as the limit are later than the window before it |
| RateLimit.TrackerIsSmall | app.py:737-743 | after an accepted request the tracker has at most 512 keys, or each of them was used within the window |
| LogWindow.FixYearRollover | core/log_analyzer.py:69-87 | the loop shifts each entry by the rollovers before it, where that date exists |
| LogWindow.BumpCounts | core/log_analyzer.py:76-86 | an entry is moved by as many years as there are jumps back by more than 300 days up to it |
| LogWindow.NoJumpNoChange | core/log_analyzer.py:69-87 | a log without such a jump is left as it is |
| LogWindow.TomorrowIsNext | core/log_analyzer.py:80 | differences of times follow the calendar, over months, leap years and centuries |
| LogWindow.ValidIff | core/log_analyzer.py:82-85 | and the dates that exist are those of the calendar |
| LogWindow.CountIs | core/log_analyzer.py:97-102 | what counts as inside a window, both ends included |
| LogWindow.OrderRestoredIff | core/log_analyzer.py:69-87 | a yearless log that runs forward apart from year ends comes out in order if and only if every entry's date exists in its year |
| LogWindow.LeapDayStaysBehind | core/log_analyzer.py:69-87 | 31 December and 29 February of the year 2000 stay as they are, out of order |
| LogWindow.SortedFacts | core/log_analyzer.py:96 | sorting puts the times in order and keeps every window count |
| LogWindow.WidestSpan | core/log_analyzer.py:97-102 | the two pointers find the largest number of times that fit in one window |
| LogWindow.MaxInWindow | core/log_analyzer.py:90-102 | the same for the repaired, unsorted times of a log |
| LogWindow.Flapping | core/log_analyzer.py:138-154 | with enough readable times an interface is reported if and only if some window holds that many of its events; otherwise the bare count decides |
| Schedule.DueSlots | core/scheduler.py:50-75 | the loop computes the due occurrences of one check |
| Schedule.CandidateIff | core/scheduler.py:68-74 | of today's and yesterday's occurrence exactly the one inside the window is taken |
| Schedule.EntryNames | core/scheduler.py:64-69 | hours and minutes, with zeros before them, blanks around them and anything behind a second colon, name that minute if the day has it |
| Schedule.NoColonNoMinute | core/scheduler.py:64-69 | a text without a colon names nothing |
| Schedule.ListingOrder | core/scheduler.py:60-75 | a check yields its slots in the order of their entries |
| Schedule.ExactlyOnce | core/scheduler.py:50-75 | checks at most 300 seconds apart yield every occurrence in the span they cover exactly once per listing, midnights included, and nothing else |
| Schedule.Scheduler.Fire | core/scheduler.py:99-119 | the loop over due slots, with the remembered slot and a start that may raise |
| Schedule.Scheduler.RunPass | core/scheduler.py:92-144 | the bookkeeping after a pass that may raise anywhere |
| ScheduleRuns.RunFiresDue | core/scheduler.py:87-144 | passes that raise nothing start exactly the due slots of distinct times, each once, in order |
| ScheduleRuns.StartedIff | core/scheduler.py:99-107 | of a list of due slots an instant is started if and only if one of its entries does not follow an entry, or the remembered slot, of the same instant |
| ScheduleRuns.RestartedIff | core/scheduler.py:99-140 | after a pass that failed, the next pass over the longer window starts a slot again if and only if it was not the one remembered, or the longer list has another instant before one of its entries |
| ScheduleRuns.RetryIsQuietIff | core/scheduler.py:99-140 | so no slot is started twice if and only if the first window held one instant and the longer list has no other before it |
| ScheduleRuns.SpacedAtMostOnce | core/scheduler.py:87-144 | times at least five minutes apart are started at most once for each occurrence, in order, however passes fail |
| ScheduleRuns.AtMostOnceIff | core/scheduler.py:87-144 | at most one start of each occurrence over every run with any failures holds if and only if all different times are at least five minutes apart |
| ScheduleRuns.FacilityAtMostOnce | core/scheduler.py:110-121 | the one daily facility time is never started twice for the same occurrence, however the passes fail |
| ScheduleRuns.StartedExactly | core/scheduler.py:87-144 | with times at least five minutes apart, over every run with any failures, an occurrence is started if and only if the first pass that comes to its schedule with it in a window of at most 300 seconds can start it |
| ScheduleRuns.WindowMoves | core/scheduler.py:92-144 | only a pass without an exception moves the window on |
| ScheduleRuns.FailuresCostNothing | core/scheduler.py:92-144 | passes that raise before they come to a schedule cost no occurrence: the first that comes to it within 300 seconds starts what has come by then |
| ScheduleRuns.RaisedStartIsLost | core/scheduler.py:99-107 | a start that raises loses its occurrence, whatever passes follow |
| Counters.ErrorCounters.ComputeErrorDelta | core/metrics_poller.py:156-183 | the recorded increments and the new baseline after one poll |
| Counters.RecordedIsGains | core/metrics_poller.py:156-183 | over any run the recorded increments add up to the increases between consecutive sightings of the port, whatever polls it missed |
| Counters.RecordedIsDifferenceIff | core/metrics_poller.py:156-183 | they add up to last minus first plus the drops, so to last minus first if and only if the counter never drops |
| Counters.UnwantedRecordsNothing | core/metrics_poller.py:167-168 | a port outside the filter is never recorded |
| Counters.OnlyGrowth | core/metrics_poller.py:172-182 | a poll records nothing but what grew, by how much it grew |
| Counters.TrafficCounters.ComputeBps | core/metrics_poller.py:233-253 | which ports get a rate, which rate, and the readings kept |
| Counters.RateGivenIff | core/metrics_poller.py:240-252 | a port gets a rate if and only if it was seen before, time has passed and neither counter dropped; it is remembered either way |
| Counters.RateIsTight | core/metrics_poller.py:252 | a rate is not negative and falls short of the bits counted by less than one bit per second |
| Counters.VolumeIsTight | core/metrics_poller.py:246-252 | along a list of sightings without drops the rates give the traffic of the whole span to within one bit per second |
| Counters.RunIsVolume | core/metrics_poller.py:233-253 | over any run of polls, missed ones included, the recorded rates times their intervals are those of the consecutive sightings of the port |
| Counters.TrafficIsTight | core/metrics_poller.py:233-253 | so over any run of polls without drops they give the port's traffic to within one bit for each second of the span |
| Rack.ScanSound | core/serverroom.py:19-20 | what the scan finds are pieces of the text that fit the pattern |
| Rack.ScanComplete | core/serverroom.py:19-20 | the pattern is unambiguous and the scan finds the one match of every matching text |
| Rack.ParsedPosition | core/serverroom.py:25-74 | every parsed location has a capital rack name and 1 to 42 units, and those are the occupied ones |
| Rack.PositionMeans | core/serverroom.py:25-57 | two numbers in either order, or one, are the first and the last unit, a range of more than 42 is cut off, and the rack is written in capitals |
| Rack.NameIff | core/serverroom.py:19-20 | a rack name is letters up to some place and digits from there on |
| Rack.RackRoundTripIff | core/serverroom.py:25-67 | writing and reading a position gives back rack, unit and clamped height if and only if the rack is letters then digits and the unit is not negative |
| Rack.RackRoundTrip | core/serverroom.py:25-67 | and then the last unit as well |
| RackItems.OccupiedUnits | core/rackitems.py:45-66 | exactly the units held by registered devices or other items of the rack |
| RackItems.DeviceCoversIff | core/rackitems.py:53-59 | a registered device takes the occupied units of its parsed position |
| RackItems.NormIff | core/rackitems.py:24-42 | which input is accepted, and the row it gives |
| RackItems.OwnPlaceIsFree | core/rackitems.py:60-65 | an item never stands in its own way |
| RackItems.RackTable.SaveItem | core/rackitems.py:87-132 | refused for bad input, or with exactly the conflicting units, or written; items never overlap |
| RackItems.RackTable.DeleteItem | core/rackitems.py:135-142 | exactly the one row goes |
| RackItems.InterleavedSavesOverlap | core/rackitems.py:101-127 | two checks before two writes let two overlapping rows in |
| RackRace.OverlapComesIff | core/rackitems.py:101-142 | for any number of requests, updates and deletions included, from a table without overlaps: one can come about without a further check if and only if a checked row overlaps a stored one, or two checked ones overlap, without starting at the same unit (two updates that block each other excepted, unless a third frees them) |
| RackRace.NoDangerNoOverlap | core/rackitems.py:101-142 | without such rows, no run of writes and deletions brings an overlap or such rows |
| RackRace.TwoChecksAreEnough | core/rackitems.py:101-127 | two checks on an empty table lead there |
| RackRace.UninterruptedSaveKeeps | core/rackitems.py:101-127 | a save whose write follows its check at once keeps the table free of overlaps, whatever the others have checked |
| RackRace.TwoSavesIff | core/rackitems.py:101-127 | for two new rows checked against the same table: no overlap after both writes if and only if they lie apart or start at the same unit, where the unique key refuses the second |
| Notifier.Mailer.Notify | core/notifier.py:53-70 | an event goes to the end of the queue or into the drop count |
| Notifier.Mailer.Drain | core/notifier.py:238-245 | the loop moves the whole queue behind the batch |
| Notifier.DrainTakesAll | core/notifier.py:238-245 | taking one by one keeps the order |
| Notifier.Mailer.Flush | core/notifier.py:246-275 | what is mailed, kept and trimmed |
| Notifier.StepConserves | core/notifier.py:230-275 | each offer, take or flush accounts for every event and keeps the order of acceptance |
| Notifier.ConservedAlways | core/notifier.py:217-275 | in every interleaving each offered event is turned away, printed in exactly one letter, only counted in one (after the fiftieth), not wanted, switched off, trimmed or still held, exactly once, in order of acceptance |
| Notifier.ConservedFromStart | core/notifier.py:217-275 | from the start of the program |
| Notifier.TrimOnlyIff | core/notifier.py:265-274 | exactly a flush that fails with more than 500 events trims, and it leaves the newest 500 |
| Notifier.FlushOutcome | core/notifier.py:246-275 | the whole effect of a flush: when it happens, and when the batch is done with, kept, or cut to its newest 500 |
| Notifier.WantedAt | core/notifier.py:100-103 | a letter holds exactly the events severe enough under the setting, in order |
| Notifier.DigestIs | core/notifier.py:217-228 | a letter prints its first fifty events and counts the others |

## Left out

- SnmpWalk.WalkIsSubtree: the served table is limited to identifiers the codec can carry (second arc below 40, first octet at most 255), see Ber.OidRoundTripIff, community and identifiers fit a datagram, and the time budget is not spent.
- SnmpWalk.WalkIsPrefix: a message that fits no datagram is not answered.
- SnmpAgent.EveryTableIsServed: the agent gives one row for each request; the walk theorem itself allows any number.
- Ber.DecodeOid: newer Python versions refuse to print an arc of more than 4300 digits, which drops the datagram; the model prints it.
- CollectQueue.CredentialsAlways: a submission without credentials (which falls back to stored ones) is outside this claim; the ownership of ids is proved with such submissions included.
- CollectQueue.Collector.CollectSwitch: an exception raised after the job was queued is not modelled (it could come only from logging).
- CollectCredentials.CredentialSafeIff: a submission's serial stands for its identity, so the continuations do not submit the same serial again.
- FacilityScan.CollectBand: two stored rows with the same subnet and address are excluded, as the table's unique key does; the mutual exclusion of two scans is not claimed.
- ScanMonitor.Monitor.MonitorKnownHosts: two stored rows with the same subnet and address, and rows without a subnet, are excluded. The refill of attachment columns, and rows of devices registered in between are not modelled; a failed write of a subnet is.
- RackRace.OverlapComesIff: an item id given to a save was handed out before; registered devices only enter the check.
- Notifier.Mailer.Notify: the drop count is raised in one step, although two threads that find the queue full at once could lose a count.
- Notifier.StepConserves: an exception between a delivered letter and the end of the flush, which would mail the batch again, is not modelled.
- Schedule.DueSlots: `int()` is modelled on ASCII digits with surrounding blanks; signs and underscores are not.
- RackItems.RackTable.SaveItem: names, notes and types of items are not modelled, nor a failing read of the item table, which the program takes for an empty one.
- Decimal.ArcsOfDotted: the leniency of `int()` for signs, blanks and underscores in an identifier is not modelled.
- Text is ASCII, with all the blanks ASCII has: the wider digits, blanks and case rules of Unicode are not modelled.
- The labels and display texts built beside the results (rack labels, digest bodies, event messages).
- Sockets, SSH sessions, SMTP, the credential encryption of the operating system, Flask routing, SQL and schema migration; only their outcomes appear.
- The discovery of uplinks from neighbour tables and MAC tables, and the background caches of the database layer.
- Threshold and temperature alarms, the placement of devices in the rack sheet, snapshot retention and configuration backups: they would add only easier members.
- Vendor detection, CLI parsers, lifecycle tables, and the web front end.
