# Verified models of Oppenheimer's concurrent and stateful parts

Dafny models of the parts of the Oppenheimer repository whose correctness spans many
steps, calls or programs, and proofs about them. `dafny verify dfyconfig.toml` checks
everything. One module per file, and every module models one component:

- `FifoLink`, `LinkModel`, `PacketHeap`, `Router`, `Delivery`: the network simulator.
  `LinkModel` is the packet scheduler, whose clocks and random draws are arbitrary inputs;
  its times are shown to be those of two first-in first-out links, in closed form.
  `PacketHeap` is the binary heap of pending packets. `Router` is the whole pipeline as an
  interleaved system: readers, the shared model, the bounded channel, the deliverer.
  `Delivery` shows that it never gets stuck.
- `Hub`, `HubRuns`, `Pump`: the WebSocket hub. `Hub` holds the objects with their two-way
  subscription index, `HubRuns` every interleaving of handlers, publishers, writers and
  closes, `Pump` the single-writer loop against an arbitrary environment.
- `Quoting`, `Comments`, `Decorators`, `Literals`: the three hand-written scanners of the
  route scanner, each against a declarative description of what it should read, with what
  a quoted literal is told once, in `Quoting`. A character is one UTF-16 unit of the text.
- `Reservation`: claims and releases of Redis databases, command by command, with
  claimers that may die anywhere.
- `Migrations`: concurrent runs of the migration runner, with crashes, failures and lost
  commit answers.
- `Layout`: the versioned binary directory, with an interruption possible before any
  file-system action.
- `Bytes`, `Terminal`, `Frames`: the terminal stream of the herdr benchmark: escape
  stripping and needle search that do not depend on how reads cut the stream, the frame
  codec, and the credit given for what was read.
- `Dotenv`: the Go and the TypeScript loader of the same `.env` files.
- `BotPlan`: how a bot's request to create another bot becomes a plan, and what happens
  when the stored request is planned again on approval.

In each state machine a `Step` (or an `Action`) is one locked section, one channel
operation, one command or one system call, and `Play` (or `Run`) is any sequence of them.
Where the source changes an object step by step there is a class whose methods are tied
to a function on values, and the theorems are about that function over whole runs.

Where a promise turned out to need a condition, the condition is stated and shown needed:

- `packages/go/selfupdate/install.go` says there is no moment at which `current` is
  missing. `current` is kept by every run, and reported as the version last activated,
  exactly for binary names that have no path separator and under which no version's file
  can be another's half-made link (`Layout.SafeExactlyWhenGood`). With a separator even a
  finished activation is lost: its link names only the last part of the version's path
  (`Layout.SeparatedNamesAreLost`).
- A claim of a Redis database is to leave someone else's data alone. A returned claim
  does; but a release flushes a database that its claimer's probe had seen with keys
  exactly when that claimer died between its probe and its delete
  (`Reservation.FlushesWhatWasSeen`, `Reservation.DeathFlushesForeignData`).
- The two `.env` loaders document one rule. They agree exactly when, for every absent
  variable, the first and the last line of the file that decides it say the same, and no
  file names an absent variable that every JavaScript object inherits, such as
  `constructor`, which the TypeScript loader takes to be set (`Dotenv.LoadersAgree`).
- An approval is documented to make the bot its card showed. It does exactly when what was
  stored can still be had and the stored ids still pick out their own rows
  (`BotPlan.ReplanIsTheSame`). When in between the group is deleted and another is called
  as its id, or a new build gives an earlier model the stored id as its label, it makes
  another bot (`BotPlan.DeletedGroupMakesAnother`, `BotPlan.RebuiltCatalogMakesAnother`).
- A frame of 2^32 bytes or more does not read back, because its length field keeps 32 bits
  (`Frames.ReadsBack`). Reads after this end closed the stream are not credited
  (`Frames.CreditIsExact`).

## Model

| member | source | states |
|---|---|---|
| FifoLink.ExitIsMaxPlus | e2e/netsim/model.go:161-174 | the one variable a queue keeps is the closed form of a first-in first-out link: the latest, over earlier jobs, of arrival plus all work since |
| FifoLink.ExitsAreSpaced | e2e/netsim/model.go:167-174 | between two departures the link has carried all the work in between |
| LinkModel.TimesAreMaxPlus | e2e/netsim/model.go:149-182 | in every run, each packet's uplink departure and arrival time are the max-plus closed form over the packets before it, with no mention of state |
| LinkModel.BandwidthIsCapped | e2e/netsim/model.go:167-182 | in every run with any clock values, arrivals at one node are in scheduling order and at least the sum of the serializations in between apart, whatever their sources |
| LinkModel.DelayIsBounded | e2e/netsim/model.go:88-91 | an accepted packet takes its serializations and propagation, plus at most two full queues |
| LinkModel.UplinkBacklogIsBounded | e2e/netsim/model.go:149-166 | no uplink is booked beyond the latest time seen plus a full queue and its largest packet, though packets dropped at the downlink used it too |
| LinkModel.ClampNeverBinds | e2e/netsim/model.go:174-181 | in every reachable state the last arrival of a leg is no later than its downlink's free time, so the next arrival is exactly that time and the clamp changes nothing, across moves too |
| LinkModel.LegsAreRedundant | e2e/netsim/model.go:93-107 | a scheduler that forgets the per-leg times before every call has the same outcomes over every run |
| LinkModel.ApplyMovesForward | e2e/netsim/model.go:167-182 | no call moves a downlink's free time back, and an accepted packet arrives no earlier than any before it at that node |
| LinkModel.Model.Schedule | e2e/netsim/model.go:149-182 | the method changes the fields as the scheduling function does, over a path that depends on both placements, and answers its arrival, or a loss |
| LinkModel.Model.Place | e2e/netsim/model.go:122-131 | a placement at a place of the geography, with an access of the profiles, replaces the node's and touches no queue; any other changes nothing |
| LinkModel.GeoMsIsFirst | e2e/netsim/model.go:48-58 | the latency between two places is that of the first entry naming both, either way round, and zero when none does |
| LinkModel.PathIsDrawn | e2e/netsim/model.go:139-165 | two nodes of one non-empty LAN get a path of the `lan` access alone; any others go up the one's access and down the other's, with both latencies, the geography and both jitters; each part is the whole nanoseconds its bits or milliseconds take, and it is lost exactly when the draw is below the combined loss |
| LinkModel.NodesAreWhereLastPlaced | e2e/netsim/model.go:122-131 | in every run a node is where its last acceptable placement put it, or where it began when there was none |
| LinkModel.EveryFateIsClosedForm | e2e/netsim/model.go:149-182 | in every run a packet meets a path drawn for where its nodes are by then, and given that path its fate follows from the packets carried before: lost on the way or when its uplink's closed-form backlog is over 400 ms, dropped when its downlink's is over that on arrival, and else arriving when a first-in first-out downlink lets it |
| PacketHeap.Heap.Push | e2e/netsim/router_linux.go:158-168 | the heap stays ordered and holds one packet more, the same packets otherwise |
| PacketHeap.Heap.Pop | e2e/netsim/router_linux.go:161-174 | the popped packet goes before every other by time and then by number, and exactly it is gone |
| PacketHeap.RootIsNextInBag | e2e/netsim/router_linux.go:158-166 | the root of an ordered heap is a next packet of its whole contents |
| Router.EveryLegIsAPipeline | e2e/netsim/router_linux.go:63-156 | over every interleaving, the packets accepted for a leg are, in the order read, those written, then those pending, then those in the channel, then the one in the reader's hand |
| Router.RouteIsByDestination | e2e/netsim/router_linux.go:73-82 | a frame built of a header (RFC 791 section 3.1) and any payload goes to the node its destination is the address of, whatever its source, and nowhere when the version is not 4, no node has the address, or it is the reader's own |
| Router.FramesHaveHeaders | e2e/netsim/router_linux.go:73-76 | a frame under 20 bytes goes nowhere, and any other is such a header with a payload |
| Router.DeliveredWhereAddressed | e2e/netsim/router_linux.go:63-90 | over every interleaving, every packet accepted or written goes to the node its own bytes are addressed to, and not back to its reader |
| Router.RouterRunsTheModel | e2e/netsim/router_linux.go:63-90 | over every interleaving, the readers together run the scheduler on their frames, with their sizes, in the order of the reads, so all that is proved of its runs holds here; and accepted packets carry the arrivals it gave |
| Router.NothingIsEarly | e2e/netsim/router_linux.go:127-148 | no packet is written before its scheduled time, and the channel never exceeds its capacity |
| Router.QuietMeansDelivered | e2e/netsim/router_linux.go:63-156 | once a leg's reader is idle and channel and heap are empty, all that was accepted for the leg has been written, in order |
| Delivery.AllCanBeDelivered | e2e/netsim/router_linux.go:56-156 | after every interleaving, channel full or not, there are steps without another read after which every leg has written, in order, all that was accepted for it: the readers, the channel and the deliverer never lock each other up |
| Router.StatsAddUp | e2e/netsim/router_linux.go:83-106 | every packet scheduled is counted once, as carried with its bytes or as dropped |
| Router.StatsAreCounts | e2e/netsim/router_linux.go:92-106 | a leg's counters are how many of its scheduled packets were carried, the bytes of those, and how many were dropped |
| Router.Deliverer.Turn | e2e/netsim/router_linux.go:127-155 | one turn numbers and pushes what arrived, then writes in heap order everything that is due and nothing else |
| Router.DrainsInOrder | e2e/netsim/router_linux.go:142-148 | within a drain no packet is written after one it should go before |
| Router.TurnIsPlayed | e2e/netsim/router_linux.go:131-155 | a turn of the loop over the heap is a run of the interleaved system's steps, so the theorems over runs hold of the loop |
| Router.PlayKeepsInv | e2e/netsim/router_linux.go:56-156 | every interleaving keeps the pipeline invariant on every leg |
| Hub.SubscribedIsConsistent | packages/go/ws/hub.go:135-145 | a subscription keeps the two maps consistent and lists the connection |
| Hub.UnsubscribedIsConsistent | packages/go/ws/hub.go:147-161 | leaving a topic keeps them consistent, keeps no empty topic and takes the connection off |
| Hub.RemovedIsNowhere | packages/go/ws/hub.go:126-133 | a removed connection is on no list, even one it joined after the hub closed, and no other connection loses a topic |
| Hub.SubscribedAllAdds | packages/go/ws/handler.go:105-107 | an accepted frame adds exactly its topics to the connection and the connection to exactly those topics |
| Hub.UnsubscribedAllRemoves | packages/go/ws/handler.go:109-113 | an unsubscribe frame takes exactly its topics from the connection and the connection from exactly those, and nothing else changes |
| Hub.SubscribeNeedsEveryTopic | packages/go/ws/handler.go:83-106 | a subscribe frame is accepted exactly when it names topics, they fit under the bound and every one is allowed |
| Hub.EveryAnswer | packages/go/ws/handler.go:83-117 | a ping gets its pong, an unsubscribe frame all its topics, and a refused subscribe frame the first reason there is, naming the first topic forbidden |
| Hub.Hub.Handle | packages/go/ws/handler.go:83-117 | a frame is answered by the rules, and the index changes by all its topics or, refused, not at all |
| Hub.Hub.Add | packages/go/ws/hub.go:116-124 | a connection joins an open hub and is turned away by a closed one |
| Hub.Hub.Remove | packages/go/ws/hub.go:126-133 | the loop over the connection's topics leaves it on no list of the hub |
| Hub.Hub.SubscribeTo | packages/go/ws/hub.go:135-145 | the two maps change together as a subscription says |
| Hub.Hub.UnsubscribeFrom | packages/go/ws/hub.go:147-161 | the two maps change together as leaving says |
| Hub.Hub.Close | packages/go/ws/hub.go:87-113 | closing forgets connections and lists, and not what each connection follows, and calls the close of every connection it forgets, once, and of no other |
| Hub.Hub.Publish | packages/go/ws/hub.go:65-83 | every connection listed under the topic is offered the frame once, and no other connection is touched |
| Hub.Conn.Enqueue | packages/go/ws/conn.go:35-45 | on an open connection a frame is queued when there is room, and otherwise dropped with exactly one close called; on an ended one no close is called; it never waits |
| Hub.OfferedWhereThereIsRoom | packages/go/ws/conn.go:35-45 | what one offer does to the queue and to the calls of close, for an open or ended connection with or without room |
| HubRuns.ClosedAtMostOnce | packages/go/ws/conn.go:61-66 | over every interleaving and however many callers ask, at most one call of a connection's close closes its done channel, and exactly one has once any has run |
| HubRuns.IndexHolds | packages/go/ws/hub.go:87-161 | over every interleaving the maps agree while the hub is open and one way after, no empty topic is kept, no connection exceeds the bound, and a finished one is on no list |
| HubRuns.FramesAddUp | packages/go/ws/conn.go:35-66 | frames taken by the writer and those queued are exactly the appended ones in order, never over the buffer at once, in the order offered, and all of them unless a close was asked for |
| HubRuns.EveryOfferIsAccountedFor | packages/go/ws/conn.go:35-66 | over every interleaving, the frames taken and queued are exactly those offered while there was room (and not passed over because the connection had ended), in order; and the calls of close are exactly those asked for, those of the hub's close, and one for each offer at a full queue of an open connection |
| HubRuns.OfferedInTimeIsKept | packages/go/ws/conn.go:35-45 | a frame offered to an open connection with room is, ever after, taken or queued, right after the ones before it |
| HubRuns.ConnsAreServed | packages/go/ws/hub.go:87-133 | over every interleaving, an open hub knows exactly the connections being served, and a closed one none |
| HubRuns.FollowsWhatItAskedFor | packages/go/ws/handler.go:83-117 | over every interleaving, between two frames a connection follows exactly the topics its accepted frames asked for, and an open hub lists it under exactly those |
| HubRuns.SnapshotIsTheListed | packages/go/ws/hub.go:73-83 | a publication is addressed to exactly those its topic listed at its snapshot, for good |
| HubRuns.PublishedExactlyOnce | packages/go/ws/hub.go:65-83 | a publication that ran to its end is at each connection of its snapshot exactly once and at no other, unless a close of it was asked for |
| HubRuns.NobodyWaits | packages/go/ws/hub.go:62-83 | at every moment of every interleaving, a publisher's next offer, a reply and a leave are possible: full queues, ended connections and a closed hub hold none of them up |
| HubRuns.PublicationCanEnd | packages/go/ws/hub.go:79-83 | from every moment a publication can run to its end by itself, with one offer for each connection left |
| HubRuns.WriterCanDrain | packages/go/ws/conn.go:45-59 | from every moment the writer alone can take all that is queued, in order |
| Pump.Pump | packages/go/ws/pump.go:84-141 | what is seen and how it ends are those of the rounds up to the first that ends the pump; the frames taken are exactly those the environment handed over until then, in order; writes begun are a prefix of them with at most one missing, and pings are prompt |
| Pump.TraceIsFair | packages/go/ws/pump.go:84-141 | for every environment and wherever it ends: order kept, at most one frame taken and not begun, at most one write before a due ping, no ping without a tick |
| Pump.TakesWhatIsHanded | packages/go/ws/pump.go:95-135 | for every environment, the frames taken are, in order, exactly those that polls and else waits handed over in the rounds up to and with the one that ends the pump |
| Pump.EveryTickIsAnswered | packages/go/ws/pump.go:95-141 | a ping begins in exactly the rounds that have a tick to answer and are not idle, once and before the write, and the write is of the frame handed over |
| Pump.PromptMeans | packages/go/ws/pump.go:123-129 | between a tick firing and the next ping at most one write begins |
| Pump.EndOfIsReal | packages/go/ws/pump.go:47-52 | a round ends the pump exactly when its context, source, ping or write fails, and with a failure that happened: the last event seen is the ping or the write it reports |
| Pump.EndsInFirstFailure | packages/go/ws/pump.go:84-141 | the pump ends in the first round that does not let it go on, with a failure that happened in that round |
| Pump.OneRound | packages/go/ws/pump.go:99-140 | a round shows and reports what the environment's part in it calls for |
| Pump.PumpChan | packages/go/ws/pump.go:69-75 | the same events are seen and the same frames taken as handed over, and there is no error exactly when the rounds end the pump in none or its source stopped |
| Comments.WithoutComments | apps/api/src/__tests__/route-scopes.ts:67-90 | the index loop computes what a character-by-character lexer leaves of the text |
| Comments.CommentsAreBlanked | apps/api/src/__tests__/route-scopes.ts:62-66 | on every text: blanking twice is blanking once, the result has no comment, and it is the input line by line, with one line more exactly when the text ends in a line comment |
| Comments.BlankedByLine | apps/api/src/__tests__/route-scopes.ts:62-90 | line k of the output is line k of the input read by itself in the mode left by the lines before |
| Comments.LiteralsStayVerbatim | apps/api/src/__tests__/route-scopes.ts:73-80 | a string literal comes out unchanged up to its closing quote, or to the end when it has none, and code goes on after it |
| Comments.BlockCommentIsBlanked | apps/api/src/__tests__/route-scopes.ts:83-87 | a block comment is blanked up to its first end, newlines kept, and code goes on there |
| Comments.PiecesAreBlanked | apps/api/src/__tests__/route-scopes.ts:62-90 | of any text made of code, literals in any of the three quotes and comments of both kinds, code and literals come out unchanged, newlines stay and comments are blanked |
| Decorators.DecoratorsIn | apps/api/src/__tests__/route-scopes.ts:96-117 | the scan ends, with the chain of all decorators or at the first whose parenthesis never closes |
| Decorators.ReadArgs | apps/api/src/__tests__/route-scopes.ts:100-112 | arguments end where the depth outside literals first reaches zero, and there is no end only when it never does |
| Decorators.FindStart | apps/api/src/__tests__/route-scopes.ts:98-99 | the match found is the first from there, and none is found only when there is none |
| Decorators.StartsAre | apps/api/src/__tests__/route-scopes.ts:98-99 | a match is an at sign, a word that does not begin with a digit, and a parenthesis |
| Decorators.NestedArgumentsClose | apps/api/src/__tests__/route-scopes.ts:100-112 | arguments built of literals in any quotes, nested parentheses and other characters end at the parenthesis after them and nowhere before |
| Decorators.SpansAreDisjoint | apps/api/src/__tests__/route-scopes.ts:98-116 | decorators come in increasing order without overlap |
| Decorators.ChainsAgree | apps/api/src/__tests__/route-scopes.ts:98-116 | there is one way to read a text |
| Decorators.ReadOrRefused | apps/api/src/__tests__/route-scopes.ts:112 | no text both reads to its end and has an unclosed decorator in its way |
| Literals.LiteralsOf | apps/api/src/__tests__/route-scopes.ts:134-171 | the loop accepts and refuses as the recursive reader does |
| Literals.AcceptedExactlyWhenPrinted | apps/api/src/__tests__/route-scopes.ts:119-171 | arguments are accepted as these values exactly when they are white space and a printed list of literals with these values, within the limit |
| Literals.PrintedIsRead | apps/api/src/__tests__/route-scopes.ts:145-167 | any list printed with any spacing, either quote and an optional trailing comma reads back as the list |
| Literals.ReadIsPrinted | apps/api/src/__tests__/route-scopes.ts:145-167 | anything read is such a printed list, with these values |
| Literals.TokensAreBodies | apps/api/src/__tests__/route-scopes.ts:155-158 | a token between quotes ends at its closing quote, with nothing to escape |
| Literals.ValidMeans | apps/api/src/__tests__/route-scopes.ts:119-128 | which text may stand between which quotes: any the quotes can hold, without five characters for a token and without a substitution between backticks |
| Reservation.ClaimsAreExclusive | apps/api/src/__tests__/integration-servers.ts:54-67 | over every interleaving, two returned and unreleased claims of one database are one claim |
| Reservation.DeletesOnlyItsOwn | apps/api/src/__tests__/integration-servers.ts:54-67 | the key a claimer is about to delete is the one it set itself |
| Reservation.ReleasesOnlyItsOwn | apps/api/src/__tests__/integration-servers.ts:69-76 | a release flushes and frees only a database that a claimer of its own run, now over, reserved, and that nobody else holds |
| Reservation.ReturnedHoldsNothingForeign | apps/api/src/__tests__/integration-servers.ts:58-61 | a returned claim's probe saw no keys, and until its run's release passes, its database holds nothing written outside a reservation |
| Reservation.FlushesWhatWasSeen | apps/api/src/__tests__/integration-servers.ts:59-76 | a release flushes a database its claimer's probe saw with keys exactly when the claimer died between probe and delete, and foreign data only when it died |
| Reservation.ReleasedLeavesNone | apps/api/src/__tests__/integration-servers.ts:69-76 | a finished release leaves no reservation of its run |
| Reservation.NoDatabaseIsPassedOver | apps/api/src/__tests__/integration-servers.ts:54-67 | over every interleaving, each database below the one a claimer returned, and every one when it found none, was already reserved when tried or had keys when probed |
| Reservation.FreesWhatItFlushed | apps/api/src/__tests__/integration-servers.ts:69-76 | a release frees a database only after flushing it, and a flush empties that database and no other |
| Reservation.DeathFlushesForeignData | apps/api/src/__tests__/integration-servers.ts:54-76 | a run in which a claimer dies after seeing keys, and its run's release flushes them |
| Reservation.PlayKeepsInv | apps/api/src/__tests__/integration-servers.ts:54-76 | every interleaving keeps the reservation keys equal to what the claimers hold |
| Reservation.Server.Claim | apps/api/src/__tests__/integration-servers.ts:54-67 | alone with the server, the first free and empty database from 1 is reserved, or nothing changes |
| Reservation.Server.Release | apps/api/src/__tests__/integration-servers.ts:69-76 | alone with the server, exactly the run's databases are emptied and freed |
| Migrations.SqlFiles | packages/go/postgres/migrate.go:105-121 | the listing holds exactly the walked paths that end in `.sql` after more, each before those it comes before in dictionary order: as a proper beginning, or by the first character that differs |
| Migrations.SortedIsUnique | packages/go/postgres/migrate.go:119 | a set of files has one listing in name order |
| Migrations.PrecedesMeans | packages/go/postgres/migrate.go:119 | a name comes first exactly when it is a proper beginning of the other, or has the lesser character where they first differ |
| Migrations.EachFileRunsOnce | packages/go/postgres/migrate.go:16-103 | over every interleaving with crashes, the bodies committed for a service are a prefix of its files, in dictionary order by first difference, each once, and the recorded rows are exactly those |
| Migrations.ReturnedMeansApplied | packages/go/postgres/migrate.go:27-87 | once a run has returned without error, all files of its service have run |
| Migrations.RerunIsNoOp | packages/go/postgres/migrate.go:20-24 | once a run of a service has returned, nothing that happens later commits a body or a row of it |
| Migrations.NextRunCanComplete | packages/go/postgres/migrate.go:27-103 | whatever has failed, crashed or lost an answer, an instance that begins under a free lock can by itself apply all that has not run, and return with the lock free |
| Migrations.OneAtATime | packages/go/postgres/migrate.go:33-44 | at most one instance is past the lock, and its insert meets no row of the same file |
| Migrations.HolderCanEnd | packages/go/postgres/migrate.go:33-44 | whoever holds the lock may crash, which frees it and commits nothing |
| Migrations.Database.ApplyOne | packages/go/postgres/migrate.go:89-103 | a file's body and its row commit together or not at all, whichever of begin, body, insert and commit fails, and together when only the commit's answer is lost |
| Migrations.Database.Migrate | packages/go/postgres/migrate.go:27-87 | what has not run is applied in order up to the first file in trouble, which leaves no trace unless only its answer was lost; it succeeds exactly when none is, and then all have run |
| Layout.InterruptionIsHarmless | packages/go/selfupdate/install.go:57-196 | under a good name, however an operation is interrupted, `current` stays, resolves, and is the old version or the one being activated |
| Layout.PromoteInstalls | packages/go/selfupdate/install.go:67-83 | a promotion that is not interrupted moves the staged file into the version's place and changes nothing else, and an unsafe version is refused |
| Layout.CurrentNeverDangles | packages/go/selfupdate/install.go:85-104 | under a good name, over every sequence of interrupted operations, `current` once there always resolves and is the last version activated |
| Layout.SafeExactlyWhenGood | packages/go/selfupdate/install.go:38-104 | every run keeps `current` exactly when the name has no separator and no version's file can be another's half-made link |
| Layout.SeparatedNamesAreLost | packages/go/selfupdate/install.go:85-145 | with a separator in the name, a finished activation leaves a `current` that reports no version, no version is listed, and `current` dangles when version files land in another directory and this one has no file of the target's name |
| Layout.VersionPathIs | packages/go/selfupdate/install.go:58-64 | a version's path, joined and cleaned, is one file in one directory that depends only on the layout |
| Layout.PruneIsExact | packages/go/selfupdate/install.go:161-196 | a finished prune removes exactly the files of versions not kept and the staged files, and leaves every other entry as it was |
| Layout.Directory.DoPromote | packages/go/selfupdate/install.go:67-83 | the method, cut off anywhere, does a first part of its plan |
| Layout.Directory.DoActivate | packages/go/selfupdate/install.go:85-104 | likewise, including the clean-up when the rename fails |
| Layout.Directory.DoPrune | packages/go/selfupdate/install.go:161-196 | likewise, over the listed versions |
| Terminal.VtText.Feed | product/research/herdr-bench/main.go:100-144 | one feed strips what the automaton strips, and leaves the automaton's state |
| Terminal.TextInTwo | product/research/herdr-bench/main.go:100-144 | feeding two pieces is feeding their concatenation |
| Terminal.CutsDoNotMatter | product/research/herdr-bench/main.go:38-60 | however the stream is cut into reads, the texts passed on join to the text of the whole, and none is empty |
| Terminal.OnlyTextIsLeft | product/research/herdr-bench/main.go:99-144 | any stream of plain bytes and complete escapes of every kind comes out as its plain bytes |
| Terminal.TailIsEnough | product/research/herdr-bench/main.go:71-79 | searching the kept tail and a new chunk is searching everything since the wait began |
| Terminal.Viewer.WaitFor | product/research/herdr-bench/main.go:62-83 | it succeeds at exactly the first chunk with which the tail and the text so far contain the needle, unless deadline or end come first, and keeps a tail fit to go on with |
| Terminal.FindingIgnoresCuts | product/research/herdr-bench/main.go:38-83 | a wait on a stream finds its needle exactly when the stream's visible text completes it, however the reads cut the stream |
| Terminal.CutsEndAlike | product/research/herdr-bench/main.go:38-83 | a wait on two cuts of one stream ends alike |
| Frames.ReadsBack | product/research/herdr-bench/backends.go:342-364 | a frame reads back, whatever follows, exactly when its payload is under 2^32 bytes |
| Frames.FramesReadBack | product/research/herdr-bench/backends.go:342-364 | any concatenation of frames, with part of another after them, reads back as those frames |
| Frames.CutFrameIsNone | product/research/herdr-bench/backends.go:353-364 | a stream that ends inside a frame yields nothing for it |
| Frames.DecodedWasEncoded | product/research/herdr-bench/backends.go:353-364 | whatever is read as frames is what encoding them gives, with at most part of a frame left |
| Frames.LittleReadsBack | product/research/herdr-bench/backends.go:343-346 | little-endian bytes hold a number exactly when it fits them |
| Frames.LittleByte | product/research/herdr-bench/backends.go:343-346 | the k-th byte counts the 256^k, so the lowest comes first |
| Frames.OnTheWire | product/research/herdr-bench/backends.go:342-351 | the bytes of a write, a close and a read's credit are channel, kind, length and payload, with kinds 0, 2 and 1 and the credit the number of bytes handed out |
| Frames.ReadsFill | product/research/herdr-bench/backends.go:384-393 | a read hands out the beginning of what is next, as much as the buffer takes or all there is |
| Frames.Pump | product/research/herdr-bench/backends.go:366-380 | the pump passes on exactly the data payloads of its own channel before the channel closes |
| Frames.HcStream.ReadInto | product/research/herdr-bench/backends.go:384-398 | a read hands out what fits of what is next, sends that much credit, and ends exactly when nothing is left |
| Frames.HandedIsPrefix | product/research/herdr-bench/backends.go:384-398 | over every sequence of reads, bytes handed out followed by those pending are the bytes that came, none lost or repeated |
| Frames.CreditIsExact | product/research/herdr-bench/backends.go:382-409 | the peer that decodes what was sent counts exactly as much credit as bytes were handed out before this end closed, and finds the writes before that in order |
| Frames.ReadsDrain | product/research/herdr-bench/backends.go:384-398 | enough reads with any buffers above zero bytes hand out everything |
| Frames.HandedIsWhatWasFramed | product/research/herdr-bench/backends.go:342-398 | end to end, what reads hand out is a prefix of the data framed for the channel, among any other frames |
| Dotenv.Process.LoadDotenv | packages/go/config/dotenv.go:37-77 | the local file is applied and then the base one, line by line, up to a line the system refuses |
| Dotenv.FirstWins | packages/go/config/dotenv.go:46-77 | a file gives every absent variable its first value, up to the first line naming an absent variable that cannot be set |
| Dotenv.Process.LoadEnv | packages/env/src/index.ts:65-91 | the environment wins over the local file, which wins over the base one, except that no inherited name is set; `applied` lists exactly the keys that were undefined |
| Dotenv.LoadersAgree | packages/go/config/dotenv.go:33-77 | when the Go loader succeeds, both leave the same environment exactly when each absent variable has the same value on the first and last line of its deciding file, and no absent inherited name is in a file |
| Dotenv.WithoutRepeatsTheyAgree | packages/env/src/index.ts:52-64 | files that repeat no key and name no inherited one are loaded alike by both |
| Dotenv.RealVariablesWin | packages/env/src/index.ts:52-64 | neither loader changes a variable already set, and loading twice is loading once |
| BotPlan.PlansMayBeCreated | apps/api/src/bots-chat/bot-peer-tool.mapper.ts:57-87 | a planned bot has a keyed provider, an offered or inherited model, an offered effort, no looser level than its creator and a group of the owner's |
| BotPlan.PlansWhatWasAsked | apps/api/src/bots-chat/bot-peer-tool.mapper.ts:57-194 | each thing named is planned as named, each left out is the creator's on the same engine or the default, and what the bot says of itself is carried over, each part in its own place |
| BotPlan.EffortIsInherited | apps/api/src/bots-chat/bot-peer-tool.mapper.ts:151-167 | an effort left out is the creator's, on the same model, whenever that model offers it |
| BotPlan.ModelOfIs | packages/shared/src/schemas/bot.schema.ts:297-306 | a model's row is the first with its id, and for none the first marked as default or else the first |
| BotPlan.RefusedExactlyWhenUnmet | apps/api/src/bots-chat/bot-peer-tool.mapper.ts:110-194 | a request is refused exactly when its provider is not keyed or something it names cannot be had |
| BotPlan.ReplanIsTheSame | apps/api/src/bots-chat/bot-peer-tool.mapper.ts:89-108 | the stored request plans to the same bot, under any creator, workspace and catalog since, exactly when the provider is keyed, the effort offered, the level allowed, and the model's and group's ids still name them |
| BotPlan.NeverAnotherBot | apps/api/src/bots-chat/bot-peer-tool.mapper.ts:89-108 | with clear catalog and group ids, planning again gives the bot that was shown, or a refusal exactly because something shown has lapsed |
| BotPlan.ListedReadsBack | apps/api/src/bots-chat/bot-peer-tool.mapper.ts:139-144 | in a clear catalog the ids that read back are exactly the listed ones |
| BotPlan.DeletedGroupMakesAnother | apps/api/src/bots-chat/bot-peer-tool.mapper.ts:178-187 | when the group is deleted and another called as its id, the approved bot is made in the other |
| BotPlan.RebuiltCatalogMakesAnother | apps/api/src/bots-chat/bot-peer-tool.mapper.ts:139-144 | when a new build gives the first row the stored id as its label, the approved bot is made on that row's model |

## Left out

- LinkModel.Model.Schedule: times are unbounded integers and rates reals rounded down to a nanosecond; floating-point rounding and the overflow of Go's durations are not modelled. The random source is a parameter of each call.
- LinkModel.Model.Place: an index outside the nodes is excluded, as the source's slice panics there.
- Router.EveryLegIsAPipeline: order between different sources to one destination is not claimed, because scheduling and sending are separate steps. The packet's source and the history lists are added to the state to say this; the 64-bit number does not wrap.
- Delivery.AllCanBeDelivered: says that such steps exist; that goroutines are scheduled fairly, so that they are taken, is not modelled. The same goes for HubRuns.PublicationCanEnd and Migrations.NextRunCanComplete.
- Router.StatsAddUp: does not model `ResetStats`, which starts the counts again.
- PacketHeap.Heap.Pop: the sift loops stand for Go's `container/heap`, which is not part of this repository.
- Hub.Conn.Enqueue: whether a select with an ended connection and room in the queue takes the one or the other is a parameter.
- HubRuns.FramesAddUp: a send buffer of zero (a hand-over to a waiting writer) has an always full queue here. The stream of a connection being closed may have gaps, as the close runs later than the drop.
- Hub.Hub.Handle: authentication, JSON and the replies' text are not modelled; authorisation is an arbitrary predicate, as is what a client sends.
- Pump.Pump: a round's body is a method of its own, with the sending of a frame another; a finite part of a run is a list of rounds, each the environment's part in one pass of the loop; time itself, the write and ping timeouts and the socket are not modelled.
- Comments.WithoutComments: one pass of the source's loop is a method of its own, and its search for the end of a line or a comment another; what is computed is the same.
- Reservation.ClaimsAreExclusive: no reservation expires during a run, and a run releases once, after its own claims have ended.
- Reservation.Server.Release: the commands of one release or claim are not interleaved in the class; the state machine of the same module interleaves them.
- Migrations.EachFileRunsOnce: file contents, the walk of the file system and the creation of the table are not modelled; the set of files of a service does not change.
- Migrations.SqlFiles: the insertion stands for Go's `sort.Strings`, which is not part of this repository.
- Layout.PruneIsExact: versions are listed in any order, where the source sorts them by age, which the result does not depend on. File modes, directory creation and the content of files are not modelled, the layout's directory is an absolute path, and no directory is called as a version's file.
- Terminal.Viewer.WaitFor: when the deadline and a chunk are both ready, either may come first. `drain` and the time stamps are not modelled.
- Frames.HcStream.ReadInto: payloads the pump has yet to deliver are listed beforehand, so blocking is not a step, and what is handed to the connection's write while this end has it open counts as sent; a peer that closed it first is not modelled.
- Dotenv.Process.LoadDotenv: starts from key and value pairs; quoting and comments are not parsed, and an unreadable file, as opposed to a missing one, is not modelled.
- Dotenv.Process.LoadEnv: the parser is the `dotenv` library, which is not part of this model; its record keeps each key's last value and cannot hold `__proto__`. Which names objects inherit is a parameter.
- BotPlan.ReplanIsTheSame: trimming and lower-casing are arbitrary functions and the catalog is arbitrary, so the rows of the shipped catalog are not listed; the sentence of a refusal is its kind and what it names.
- Namespaces, TUN devices, TCP forwarders and the control endpoint of the simulator: system calls.
- Finding the workspace root, downloads, signatures and archives of the updater, route assembly, row mappers, the benchmark's other backends and its percentiles: field copying, or foreign code and I/O.
