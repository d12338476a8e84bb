# Panda-go, verified

A Dafny model of the parts of panda-go that hold state or transform data, with proofs about them:

- **Service failover.** `NamespaceCache` finds the namespace of a service from a cache or a cluster listing; `GrpcCallConfig`, `ConnStorage` and `GrpcClient` keep the namespace bindings and the client connections and retry failed calls; `Outcomes` says how a connect and a call end and why, `Failover` proves how soon a call recovers, `Agreement` that connections and bindings stay together over whole runs, `Interleavings` which steps break that when nothing is atomic and which schedules keep it, `Schedules` that the atomic operations are schedules of it, `ReplicatedConfig` what several processes sharing the bindings can and cannot lose; `Targets` is the printer and parser of dial targets.
- **Topic publish/subscribe.** `PubSub` is the second version of the server as a system of interleaved steps; `TopicServer` is the same server over channels in the heap, each method refining steps of it, up to the whole Subscribe handler.
- **Rate limiters.** `TokenBucket` and `LeakyBucket` over unbounded traces of timed requests; `Clock` holds saturating durations.
- **Text and values.** `Formatting` is the positional `Sprintf`, `Spacing` its spacing passes and `Gaps` their effect on white space; `Masking` and `Desensitization` are the log filter's rules, its walk over a value and the masked copy of a message.

Cluster listings, RPC and dial outcomes, configuration deliveries, clock readings, the rendering of one `fmt` directive and other callers' lookups are inputs of the model. `dafny verify dfyconfig.toml` checks everything. Automatic induction is switched off in all lemmas, so each proof is the one that is written down.

Go's `sort.Slice` is not part of this model; `NamespaceCache.Sort` stands for it, and `NamespaceCache.SortUnique` shows that every algorithm that keeps its promise gives the same list. A Kubernetes listing holds an object once, which is what the `Distinct` conditions say; without it the comparator would not be a strict order.

Where the code does something other than its names or comments suggest, the model follows the code:

- A lookup panics on a listing without the service (`NamespaceCache.LookupOutcome` says exactly when); a nil listing is answered as if the origin were confirmed.
- Every subscription that ends reaches a second close of its channel (`PubSub.EveryExitFaults`), and that is the only fault the server can reach (`PubSub.FaultsExactly`).
- The token bucket clips after the debit, so an idle one gives away more than a bucketful (`TokenBucket.BucketfulExactly`, `TokenBucket.IdleBucketBursts`), and it starts from the zero time (`TokenBucket.FreshBucketAdmitsExactly`); the leaky bucket fills with time instead of draining (`LeakyBucket.ShutsExactly`, `LeakyBucket.DrainingDiffersExactly`).
- A gap after a one-character word can stay uncollapsed (`Gaps.SingleSpacedExactly`), and trimming takes more than `\s` (`Spacing.SpacingKeepsWordsExactly`, `Spacing.NonBreakingSpaceLost`).
- Masking a phone number twice can show less than masking it once (`Masking.PhoneMaskedTwice`).
- A call whose last attempts fail leaves its service rebound beside a connection to the old namespace (`Agreement.StrandsExactly`, `Agreement.RedialedInVain`), and unfortunate interleavings do so without any failure (`Interleavings.BothSucceedOneStale`).
- A struct copied by value is walked without being addressable, and its own fields stay readable (`Desensitization.PlainStructStaysReadable`).
- Publishing bindings without comparing loses concurrent ones (`ReplicatedConfig.WriteFaithfulExactly`, `ReplicatedConfig.ConcurrentWritesLose`), and all of them after a failed fetch (`ReplicatedConfig.FailedFetchLosesAll`).

## Model

| member | source | states |
|---|---|---|
| `Targets.ParseTargetAccepts` | common/utils/utils.go:480-490 | the parser yields (s, n) for exactly the dot-free names written `s.n:50051`, or `s.n` when that does not itself end in the port |
| `Targets.TargetRoundTrip` | common/utils/utils.go:492-494 | a printed target reads back as its own names if both are dot-free, and is rejected otherwise |
| `Targets.TargetInjective` | common/utils/utils.go:492-494 | targets of one service differ exactly when the namespaces do |
| `NamespaceCache.LessTotal` | component/k8s/k8s.go:65-81 | the comparator decides every pair of different namespaces one way, and contradicts itself on a repeated special one |
| `NamespaceCache.TextLessExactly` | component/k8s/k8s.go:73 | the order of the names is by the first character that differs, and a proper prefix comes first |
| `NamespaceCache.SortUnique` | component/k8s/k8s.go:65-81 | for distinct namespaces only one list meets the promise of `sort.Slice` |
| `NamespaceCache.SortedShape` | component/k8s/k8s.go:65-81 | the special namespace leads if listed, otherwise the least one, and the others ascend |
| `NamespaceCache.ServiceCache.GetNewServiceEntity` | component/k8s/k8s.go:82-125 | the lookup, its listing loop and its in-place sort leave the cache and the answer that `Lookup` describes, in every error case too |
| `NamespaceCache.LookupOutcome` | component/k8s/k8s.go:84-125 | exactly when a lookup panics, which entries it can touch, when it can fail, and that an unchanged answer is the origin |
| `NamespaceCache.LookupFailsExactly` | component/k8s/k8s.go:84-124 | a lookup fails exactly when the cache does not answer and there is no client or the listing fails; what it names then, and that the cache stays |
| `NamespaceCache.LookupFinds` | component/k8s/k8s.go:84-118 | what a lookup finds in each situation, and that it reports a change exactly when the namespace is another than the origin |
| `NamespaceCache.ListingOrderIndependent` | component/k8s/k8s.go:96-114 | any order in which the API lists the same objects gives the same cache and answer |
| `NamespaceCache.RelistedShape` | component/k8s/k8s.go:96-114 | a relisting caches a permutation of what is listed and answers the origin, else "default", else the least namespace |
| `NamespaceCache.TwoStepConvergence` | component/k8s/k8s.go:82-114 | feeding results back reaches a listed namespace by the second call and repeats it unchanged ever after, from any cache and whatever others look up in between |
| `NamespaceCache.OneStepExactly` | component/k8s/k8s.go:84-114 | the first call already names a listed namespace exactly when the cache is not consulted or its head is still listed |
| `ConnStorage.Storage.DeleteByServiceKeys` | common/grpc-wrapper/grpc_client_wrapper/conn-storage/conn.go:26-30 | exactly the connections of the given services are dropped |
| `GrpcCallConfig.Config.SetServiceNamespace` | component/nacos/config/grpc-call/config.go:73-89 | one binding changes, and the whole map is what goes out |
| `GrpcCallConfig.Config.OnChange` | component/nacos/config/grpc-call/config.go:34-58 | in any order of iteration the handler's diff amounts to the plain merge and drops exactly the connections of changed bindings; an empty value changes nothing |
| `GrpcClient.Client.GetConn` | common/grpc-wrapper/grpc_client_wrapper/grpc-client-wrapper.go:37-53 | the filed connection if there is one, otherwise dial, bind and file as `GetConnFrom` describes |
| `GrpcClient.Client.DialWrapper` | common/grpc-wrapper/grpc_client_wrapper/grpc-client-wrapper.go:17-35 | dials the bound namespace, or looks one up and binds it first |
| `GrpcClient.Client.RetryUnary` | common/interceptor/grpc-client-interceptor/interceptor.go:69-122 | the three-attempt loop ends with the world and outcome of `Retry`, for every sequence of RPC, lookup and dial outcomes |
| `Outcomes.ConnectOutcome` | common/grpc-wrapper/grpc_client_wrapper/grpc-client-wrapper.go:17-53 | what a connect gives: the filed connection and no change; the bound namespace whatever is listed; or the namespace chosen for an unbound service, and exactly when it fails or faults instead |
| `Outcomes.LateFilingYields` | common/grpc-wrapper/grpc_client_wrapper/grpc-client-wrapper.go:49-51 | a connection filed by somebody else meanwhile is left alone |
| `Outcomes.ChangeOutcome` | component/nacos/config/grpc-call/config.go:34-58 | a delivered value wins, all other bindings stay, and a connection survives exactly if its service is not given another namespace |
| `Outcomes.EchoChangesNothing` | component/nacos/config/grpc-call/config.go:34-89 | a writer's own publication coming back changes nothing, and a repeated value changes nothing more |
| `Outcomes.CallEnds` | common/interceptor/grpc-client-interceptor/interceptor.go:69-122 | for all sequences of attempts, lookups and dials: where a call stands before each attempt, at which one it ends, and how; it files exactly if an earlier target was unavailable, whatever errors came between |
| `Outcomes.CauseOfEnd` | common/interceptor/grpc-client-interceptor/interceptor.go:73-121 | which event causes each way a call can end, exactly |
| `Outcomes.SuccessNeverStrands` | common/interceptor/grpc-client-interceptor/interceptor.go:74-84 | a call that succeeds has filed the connection it succeeded on, or has changed nothing at all |
| `Outcomes.ErrorAfterMoving` | common/interceptor/grpc-client-interceptor/interceptor.go:74-120 | a call that is moved, meets another error, and files on its third attempt |
| `Failover.FailoverBound` | common/interceptor/grpc-client-interceptor/interceptor.go:69-122 | with a steady listing whose namespaces serve, three attempts always return, from every target and stale cache and amid other callers' lookups; after a failure the service is bound to a listed namespace and its filed connection goes there |
| `Failover.FailoverToTheOnly` | common/interceptor/grpc-client-interceptor/interceptor.go:69-122 | with one namespace listed, the binding and the filed connection end on it |
| `Failover.TwoAttemptsExactly` | common/interceptor/grpc-client-interceptor/interceptor.go:70-72 | for which targets and caches two attempts would have been enough, and so which stale entries defeat two |
| `Failover.OtherErrorsOnlyRepeat` | common/interceptor/grpc-client-interceptor/interceptor.go:72-120 | errors other than unavailability change nothing: the call returns exactly if a later attempt on the same target succeeds |
| `Agreement.RetryEffect` | common/interceptor/grpc-client-interceptor/interceptor.go:75-117 | a call rebinds at most the service of its target and files a connection, under that service and to its bound namespace, exactly when it says so |
| `Agreement.AgreementOverRuns` | common/grpc-wrapper/grpc_client_wrapper/grpc-client-wrapper.go:17-53 | over every run of connects, configuration changes and calls, each filed connection targets the bound namespace, except for stranded services |
| `Agreement.CallSpoilsExactly` | common/interceptor/grpc-client-interceptor/interceptor.go:93-121 | the exception is no larger than needed: a call spoils the agreement of its service exactly when it strands it, that is rebinds it without filing |
| `Agreement.StrandsExactly` | common/interceptor/grpc-client-interceptor/interceptor.go:69-122 | in a cluster that holds still, which calls strand their service, on the bound target or any other: exactly if neither the target serves nor the two the cache and the listing send the call to, and the second of these is not the bound namespace |
| `Agreement.RedialedInVain` | common/interceptor/grpc-client-interceptor/interceptor.go:93-121 | a call that strands its service and leaves a stale connection |
| `Agreement.AgreementInSteadyRuns` | common/interceptor/grpc-client-interceptor/interceptor.go:69-122 | over every run in which all lookups see one listing whose namespaces serve, no call strands and every filed connection targets the bound namespace, without exception |
| `Agreement.ConnectRaceExactly` | common/grpc-wrapper/grpc_client_wrapper/grpc-client-wrapper.go:44-51 | a configuration value arriving between dialing and filing spoils the agreement exactly if it rebinds the service |
| `Interleavings.BreaksExactly` | common/interceptor/grpc-client-interceptor/interceptor.go:73-117 | which single step makes an agreeing service stale, exactly: rebinding it while a connection is filed, or filing a dial that no longer goes to the binding |
| `Interleavings.OrderlyRunsAgree` | common/grpc-wrapper/grpc_client_wrapper/grpc-client-wrapper.go:37-53 | a service agrees whenever no dial of it is under way, and after every filing, in schedules that do not rebind it between a dial and its filing, nor file between the halves of a configuration change that rebinds it, nor give up a dial while a connection to another target is filed |
| `Interleavings.FiledWasGiven` | common/interceptor/grpc-client-interceptor/interceptor.go:93-117 | in every interleaving whatsoever, each filed or pending connection goes to a namespace that the run gave its service |
| `Interleavings.FiledBetweenTheHalves` | component/nacos/config/grpc-call/config.go:34-58 | a connect that files between invalidation and storing, and ends stale |
| `Interleavings.BothSucceedOneStale` | common/interceptor/grpc-client-interceptor/interceptor.go:73-117 | two successful retries of one service that leave a stale connection |
| `Schedules.AtomicRunsAreSchedules` | common/interceptor/grpc-client-interceptor/interceptor.go:69-122 | every run of atomic connects, configuration changes and calls is one schedule of the interleaved steps, with the same bindings and connections at the end |
| `ReplicatedConfig.DomainsGrow` | component/nacos/config/grpc-call/config.go:34-58 | no replica ever forgets a service |
| `ReplicatedConfig.Provenance` | component/nacos/config/grpc-call/config.go:73-89 | every binding held or published was initial or written by somebody |
| `ReplicatedConfig.QuiescentAgreement` | component/nacos/config/grpc-call/config.go:34-58 | once the last value has reached every replica, all agree on the services it binds, whatever stale versions came before |
| `ReplicatedConfig.PublishedIsFold` | component/nacos/config/grpc-call/config.go:73-89 | if every writer was up to date and accepted, the published map is all writes applied in order |
| `ReplicatedConfig.WriteFaithfulExactly` | component/nacos/config/grpc-call/config.go:73-80 | one write loses nothing and revives nothing exactly when the writer differs from the published value at most in that service |
| `ReplicatedConfig.AlwaysFoldExactly` | component/nacos/config/grpc-call/config.go:73-89 | over whole runs from any state, what is published is at all times the fold of the writes so far exactly when every accepted write is such a one and every refused one repeats what is published |
| `ReplicatedConfig.ConcurrentWritesLose` | component/nacos/config/grpc-call/config.go:73-80 | two concurrent writers, and a binding one of them never learns of |
| `ReplicatedConfig.FailedFetchLosesAll` | component/nacos/config/grpc-call/config.go:73-80 | the first write of a process whose fetch failed replaces all that was published |
| `PubSub.RegisteredExactlyWhileOpen` | publish/v2/main.go:77-99 | in every interleaving a channel is registered under its own topic only, and exactly while it is open |
| `PubSub.FaultsExactly` | publish/v2/main.go:33-74 | the only fault a reachable state can go to is the handler's second close, which always faults; publishing and leaving never do, and no loop sees its channel closed |
| `PubSub.EveryExitFaults` | publish/v2/main.go:37-53 | from every reachable state each subscription that has not left can leave, leaving goes through, and the handler's next step faults |
| `PubSub.Conservation` | publish/v2/main.go:42-74 | offers are an order-preserving merge of dropped and accepted, accepted is sent, failed, in flight and buffered in that order, and what was sent is a subsequence of what was published |
| `PubSub.SendsCounted` | publish/v2/main.go:49-51 | sent and failed are the sends that returned so |
| `PubSub.LosslessExactly` | publish/v2/main.go:65-69 | nothing is dropped exactly when every publish found the buffer empty |
| `PubSub.DeliveriesExactly` | publish/v2/main.go:42-71 | off the trace alone: which messages the channel keeps, which one it holds, and which ones the stream got, in order |
| `PubSub.NonInterference` | publish/v2/main.go:33-99 | two interleavings with the same steps of one subscriber and publishes to its topic leave it in the same state |
| `TopicServer.PubSubServer.AddSubscriber` | publish/v2/main.go:77-87 | joining refines the subscribe step |
| `TopicServer.PubSubServer.Subscribe` | publish/v2/main.go:33-35 | a newly made channel joins its topic |
| `TopicServer.OfferAll` | publish/v2/main.go:63-71 | the loop offers to each channel once, whatever the order, and never on a closed one |
| `TopicServer.PubSubServer.Publish` | publish/v2/main.go:59-74 | publishing refines the publish step and always goes through |
| `TopicServer.PubSubServer.RemoveSubscriber` | publish/v2/main.go:90-99 | leaving refines the remove step and closes an open channel |
| `TopicServer.PubSubServer.Receive` | publish/v2/main.go:42-44 | receiving refines the receive step |
| `TopicServer.PubSubServer.Take` | publish/v2/main.go:43-51 | one turn on a message: what is in the channel is taken, and while others go on it is sent, or refused and the loop ends; what is in the channel then |
| `TopicServer.PubSubServer.Other` | publish/v2/main.go:42-99 | what a publisher, a new subscriber or another handler does is just the step it should be, fills this channel only with a first message of its topic, and leaves this handler where it stands |
| `TopicServer.PubSubServer.Serve` | publish/v2/main.go:33-56 | the whole handler, amid any steps of publishers, new subscribers and other handlers: what the stream got, what is in the channel and whether it has left are exactly what the turns say; it is a run of the system; and its own close then faults |
| `TopicServer.KeepingUpDeliversAll` | publish/v2/main.go:42-51 | a handler that keeps up delivers every message of its topic in order, and no other |
| `TopicServer.FirstIsKept` | publish/v2/main.go:63-71 | while nothing is taken, the first message of the topic is kept and all later ones are dropped |
| `TokenBucket.TokenBucket.Allow` | base/main.go:152-169 | the decision and the new state are those of `Admits` and `After` |
| `Clock.LongestDuration` | base/main.go:157 | the longest duration is what a signed 64-bit count of nanoseconds holds |
| `TokenBucket.Conservation` | base/main.go:152-169 | over any trace tokens stay within 0 and capacity, admitted plus left never exceeds start plus produced, with equality exactly when nothing was discarded |
| `TokenBucket.WindowBound` | base/main.go:152-169 | from any admission on at most a bucketful plus the rate's output is admitted |
| `TokenBucket.WindowFrom` | base/main.go:152-169 | from any moment on, what is admitted and left comes to at most the unclipped backlog of that moment plus the rate's output |
| `TokenBucket.BucketfulExactly` | base/main.go:157-167 | every window from a moment on stays within a bucketful plus the rate's output exactly if the unclipped backlog of that moment fits the capacity |
| `TokenBucket.BurstExactly` | base/main.go:157-167 | the largest request a moment admits, and that all admissible ones fit the capacity exactly in that case |
| `TokenBucket.IdleBucketBursts` | base/main.go:157-167 | a bucket of one token that gives away 101 at once |
| `TokenBucket.DeniedRequestsVanish` | base/main.go:164-168 | deleting all denied requests changes no state and no decision |
| `TokenBucket.BatchAsOne` | base/main.go:157-167 | a batch admitted one by one at one instant is admitted as its sum, with at least as many tokens left |
| `TokenBucket.AdmittedFromExactly` | base/main.go:157-167 | from when on a request is admitted, exactly |
| `TokenBucket.ClipAfterDebitDecides` | base/main.go:159-161 | this bucket and one that clips first decide differently exactly on requests above the capacity that the unclipped refill covers |
| `TokenBucket.TextbookDeniesThis` | base/main.go:159-161 | a request on which the two decide differently |
| `TokenBucket.ClipAfterDebitForgives` | base/main.go:159-161 | the tokens left are the textbook's exactly when nothing overflowed or nothing was asked |
| `TokenBucket.FreshBucketAdmitsExactly` | base/main.go:144-158 | what the first request of a new bucket may take: with any present-day clock the capacity and the longest duration's output, where clipping first would allow the capacity |
| `LeakyBucket.LeakyBucket.Allow` | base/main.go:189-212 | the decision and the new state are those of `Admits` and `After` |
| `LeakyBucket.LevelOverTraces` | base/main.go:189-212 | over any trace, with two clock readings a call, the level is everything admitted plus the rate over all measured time, within the bucket |
| `LeakyBucket.LevelWithOneReading` | base/main.go:189-212 | with one reading a call it is admitted total plus rate times time |
| `LeakyBucket.RoomExactly` | base/main.go:189-202 | what the next request may take after any trace, exactly: the size less everything stored and admitted and the rate's output over all the time since the start |
| `LeakyBucket.EmptyIsTheFloor` | base/main.go:203-207 | a request for less than nothing lowers the level, down to empty |
| `LeakyBucket.LifetimeBound` | base/main.go:197-202 | in its whole life a bucket admits no more than its remaining size |
| `LeakyBucket.ShutForever` | base/main.go:197-202 | once past its size a bucket refuses every later request and never changes |
| `LeakyBucket.ShutsExactly` | base/main.go:194-202 | the pause after which it shuts, exactly |
| `LeakyBucket.DrainingDiffersExactly` | base/main.go:194-197 | it agrees with a draining bucket exactly when nothing could have leaked |
| `Formatting.Sprintf` | common/utils/utils.go:571-603 | the loop over placeholders and the branches around it give what `Formatted` describes |
| `Formatting.DirectiveExactly` | common/utils/utils.go:576 | what the expression takes for a directive, as a grammar |
| `Formatting.PlaceholderExactly` | common/utils/utils.go:576 | what it takes for a placeholder, as a grammar |
| `Formatting.ValueOfDecimal` | common/utils/utils.go:583 | indices are read in decimal |
| `Formatting.ScanRecovers` | common/utils/utils.go:576-589 | scanning a printed template finds exactly its holes and rewriting leaves exactly their directives |
| `Formatting.FormattingPreservesMeaning` | common/utils/utils.go:576-590 | rewriting and reordering equals substituting each named argument directly |
| `Formatting.PlainFormatting` | common/utils/utils.go:590-602 | a format without placeholders, or with another number of them than arguments, shows the arguments in turn and is spaced all the same; with a wrong number of arguments the model leaves it open |
| `Formatting.EveryTextSpaced` | common/utils/utils.go:594-602 | whatever the format and the arguments, a resulting text has no digit next to a letter and its ends are trimmed |
| `Formatting.PanicsExactly` | common/utils/utils.go:578-588 | exactly which formats make the index fault |
| `Spacing.SeamsAllSplit` | common/utils/utils.go:595-598 | the two passes put a space at every seam between digits and letters and nowhere else |
| `Spacing.CharacterClasses` | common/utils/utils.go:595-602 | digits, letters, `\s` and white space, code point by code point |
| `Spacing.SpacingKeepsWordsExactly` | common/utils/utils.go:594-602 | the output's words are the input's words cut at every seam, exactly unless the text starts or ends with white space beyond `\s` |
| `Spacing.SpacingKeepsText` | common/utils/utils.go:594-602 | no visible character is lost, added or moved, exactly under that condition |
| `Spacing.NonBreakingSpaceLost` | common/utils/utils.go:602-602 | a text that loses a character of its first word |
| `Gaps.GapsExactly` | common/utils/utils.go:600-601 | which gaps of any text the collapsing replacement reaches |
| `Gaps.SingleSpacedExactly` | common/utils/utils.go:594-602 | the output of the whole pipeline has only single spaces exactly when every wider gap between visible pieces, which are the words cut at their seams, follows a run of one-character pieces of even length, where the first piece of the message does not count towards a run |
| `Gaps.LongPiecesSingleSpaced` | common/utils/utils.go:594-602 | so messages whose pieces, but for the first and the last, have two characters or more come out with single spaces |
| `Gaps.SecondGapSkipped` | common/utils/utils.go:594-602 | a text through whose spacing a double space survives |
| `Masking.MaskPhone` | common/utils/utils.go:419-431 | the in-place loop masks all but the readable ends |
| `Masking.Utf8Bounds` | common/utils/utils.go:419-422 | at which characters a text counts one byte more |
| `Masking.PhoneIdempotentExactly` | common/utils/utils.go:419-431 | masking twice is masking once, exactly unless the byte count is ten or more before and less after the first time and the third character is not a star already |
| `Masking.PhoneMaskedTwice` | common/utils/utils.go:419-431 | a number that masking twice shows less of |
| `Masking.StarsIdempotent` | common/utils/desensitization/desensitization.go:23-28 | a masked password masks to itself |
| `Desensitization.FindAndTransform` | common/utils/desensitization/desensitization.go:84-111 | every cell ends with exactly the rules of its visits applied to what it held, aliased or not |
| `Desensitization.TransformSlice` | common/utils/desensitization/desensitization.go:113-117 | the same over the elements of a slice |
| `Desensitization.MasksExactly` | common/utils/desensitization/desensitization.go:84-117 | the walk visits exactly the string locations whose path is open and ends at a field with a rule |
| `Desensitization.PlainStructStaysReadable` | common/utils/desensitization/desensitization.go:90-93 | a struct not behind a pointer and without pointer fields is not masked at all |
| `Desensitization.WalkIdempotent` | common/utils/desensitization/desensitization.go:84-117 | on ASCII texts a second walk changes nothing, even with aliases |
| `Desensitization.TreeMasks` | common/utils/desensitization/desensitization.go:84-117 | in a value without aliases every string location ends as its own path says: masked once by its field's rule if the path is open, and otherwise as it was |
| `Desensitization.FieldShows` | common/utils/desensitization/desensitization.go:22-35 | what a field of a message shows by its name |
| `Desensitization.Clone` | common/utils/desensitization/desensitization.go:67-69 | a copy of the same shape and texts whose string locations are new and pairwise different |
| `Desensitization.Desensitize` | common/utils/desensitization/desensitization.go:62-82 | what is logged of any message, aliased or not: a copy in which each text is masked or not as its path says, while the message keeps every text |

## Left out

- Agreement.AgreementOverRuns: takes each connect, configuration change and call as one step; `Agreement.ConnectRaceExactly` shows why finer interleavings break it, and `Interleavings` which of them do.
- Failover.FailoverBound: other callers interleave through their lookups only; their own rebinding and filing of the same service is not in it. It promises a listed namespace, not a healthy one.
- Interleavings.BreaksExactly: like the whole module takes what lookups answer as inputs, and a binding together with the dial that follows it as one step, since the dial uses the answer and not the binding.
- GrpcClient.Client.RetryUnary: the panic of a lookup is an outcome; the outer interceptor that recovers it is not modelled.
- Formatting.Sprintf: the output of `fmt.Sprintf` is determined for text without `%` and plain directives; all other formats, a width or precision that goes on after its digits have passed a million (where `fmt` gives up), and an index beyond a machine integer are left open.
- Masking.MaskPhone: texts are sequences of code points, so invalid UTF-8 is not covered.
- Desensitization.FindAndTransform: the shape of the value is immutable and only string cells change; named string types, on which setting the field would panic, are not modelled.
- TopicServer.PubSubServer.Serve: what the other goroutines do, and in which order, is an input. A second close, this handler's or another's, is shown to fault and not carried out.
- Agreement.StrandsExactly: dials work and nobody else looks anything up; a failed dial can strand a call as well.
- Desensitization.Desensitize: for messages, with `proto.Clone` as a structural copy; `DeepCopyV2`, which copies other structs by value and skips unexported fields, is not modelled beyond what the walk does with its result.
- The refresh loop of component/nacos/base/nacos-client.go, which compares a fetched value with the cache entry the fetch has just overwritten: it adds one easy fact.
- Metadata folding and trace-id lookup (common/utils/utils.go:77-102, 339-359): short loops over unordered maps.
- `publish/v1`, whose publish loop does not end once there is a subscriber, and the message queue of `publish/v2`, which nothing fills.
- Generated code, tracing, logging, metrics, Kafka, the HTTP gateway, the Nacos REST calls and the JSON codec.
- Floating point: both buckets count in reals.
