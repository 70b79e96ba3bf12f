# Verified model of the engine's evidence, source, probe and identifier logic

This project models, in Dafny, the state machines of the video engine whose behaviour depends only on
data the code itself holds, and proves what they keep over whole runs. GPU, GStreamer, broker and file
effects appear as arbitrary outcomes; the clock is an explicit input.

| file | part of the engine |
|---|---|
| `SuffixWindow`, `FrameEvidenceCache`, `FrameCacheHistory`, `RouteHistory` | the frame evidence cache and its refinement of the store history, by queue and by camera |
| `RecentRefs`, `EvidenceFiles`, `EvidenceService` | the dedupe ledger and the files it stands for, the request queue, the worker and its completion events |
| `StreamSlots` | runtime source slots: allocator, selectors, health poll, seeding |
| `CaptureDecision`, `BypassBounds`, `ObjectGroups`, `GroupMeaning`, `CropPublish`, `EarlyFilledRun` | the crop publish machine: hysteresis, tokens, grouping, messages, cleanup |
| `FrameSignature`, `LabelVote`, `EmitPolicy` | the frame-events probe: signatures, label vote, emit policy |
| `Boxes`, `Nms` | overlap of boxes over exact reals and greedy suppression |
| `UuidV7` | the UUIDv7 generator, sections 4.1, 4.2, 5.7 and 6.2 of RFC 9562 |
| `SmartRecord` | smart-record sessions |
| `Options`, `TextOrder` | optional values; string order, sorting, joining and decimal text |

Code that updates objects in place is a class whose methods are proved against functions of the old state;
each lock section is one atomic step. Whole runs are sequences of operations, and the class invariants say
that the stored fields are the run of everything that happened.

Where the code does less than a reader may expect, the project says exactly when:

- A successful add reports the state "active" while the slot it just set up is "warming_up"
  (`pipeline/src/runtime_stream_manager.cpp:661` against `:635`); the model follows the slot.
- Two camera ids that normalise to the same element name break ownership when the manager is constructed on a
  source root that already holds their bin (as `pipeline/src/pipeline_manager.cpp:519` may): both are seeded on
  one slot. `StreamSlots.Manager.constructor` gives the condition in both directions, `AlikeIdsClash` an input.
  Where the cameras are added one by one to an empty root
  (`pipeline/src/block_builders/source_block_builder.cpp:67-74`), seeding finds nothing.
- The bound burst_max + (t - t0) / token_refill_ns on bypasses from the first capture at t0 fails exactly when
  the bucket was filled early: burst_max > 0, the gap is shorter than the interval, and the last FirstSeen
  decision, at r < t0, was not published and t0 + gap < r + token_refill_ns (`BypassBounds.BypassBoundIff`).
  `EarlyFilledRun.OverspendingRun` runs such frames. The bound from the last FirstSeen decision and the window
  bound hold in every run.
- Grouping depends on the metadata order exactly when two objects share a 48-bit key, one names a tracked
  parent, and the other is parentless with something else in the cache for the key, or names another parent
  (`ObjectGroups.OrderMattersIff`).
- An empty frame makes the probe forget what it compared with. Nothing is lost by that: the next nonempty frame
  past the gap is emitted whatever it shows, possibly for another reason than the change that was suppressed
  (`EmitPolicy.PastGapAfterReset`, `SuppressedChangeIsEmitted`).
- A camera found at construction on a slot that could not be prepared is never switched to a placeholder: once
  stale it is still reported live, and it is the only kind of camera that is (`StreamSlots.LiveIsFresh`).
- After a failed encoder creation the thread object stays joinable, so starting the evidence service again does
  nothing until it has been stopped (`EvidenceService.Service.StartWorker`).
- When all crops are in the ledger but the overview is not, the crop refs of an ok event are the requested ones
  twice over, and in no other case; as a set they are right (`EvidenceService.CropsDoubledIff`).
- Queue keys and ledger keys join texts with a vertical bar. Cameras are told apart when pipeline ids avoid it, and
  files when pipeline id, camera name and frame key do; `FrameEvidenceCache.SourceKeyCollision` and
  `EvidenceFiles.EvidenceKeyCollision` are inputs that share a key otherwise.
- An object whose label vote elects "no labels" is shown with the first labels it ever had, because an empty
  commitment looks like none (`LabelVote.ShownLabels`).
- All messages of one frame of a source share their message id (`CropPublish.MessageIdExact`).
- The object-set signature is exact as soon as types avoid ';'; a vertical bar alone does no harm.
- A label vote tolerates floor(W / 2) deviating samples per window, and not one more of the same signature.
- With first_frame and object_set_change off and a positive heartbeat interval, a source never emits
  (`EmitPolicy.SilentForever`). The setting emit_empty_frames has no effect: an empty frame never emits.
- The comment at `pipeline/src/probes/smart_record_probe_handler.cpp:205` says one trigger per source and
  batch; the `break` is per frame, and `SmartRecord.RestartAtOnceIff` says when a source can start twice.
- An sr-done callback carries no session, so a late one clears a newer session
  (`SmartRecord.LateDoneClearsNewSession`).

## Model

| member | source | states |
|---|---|---|
| `SuffixWindow.LiveSuffixLongest` | `pipeline/src/evidence/frame_evidence_cache.cpp:189-219` | the window kept by a pruning loop is live, and no longer suffix of the history is |
| `SuffixWindow.LiveSuffixIncremental` | `pipeline/src/evidence/frame_evidence_cache.cpp:189-219` | pruning may be lazy: forgetting the dead prefix early changes no later window, whatever is appended in between |
| `SuffixWindow.KeptIff` | `pipeline/src/evidence/evidence_request_service.cpp:549-569` | which elements a time-sorted history keeps: exactly the last `limit` ones that are no older than the time to live |
| `FrameEvidenceCache.Cache.StoreFrame` | `pipeline/src/evidence/frame_evidence_cache.cpp:80-106` | a frame is stored iff caching is on and the surface copy succeeded; the two maps are those of the abstract store, else unchanged |
| `FrameEvidenceCache.Cache.PruneLocked` | `pipeline/src/evidence/frame_evidence_cache.cpp:189-219` | the in-place loop equals the abstract prune of that source; other queues are untouched |
| `FrameEvidenceCache.Cache.Resolve` | `pipeline/src/evidence/frame_evidence_cache.cpp:108-152` | exact key on the requested route first; otherwise the earliest stored among the closest same-route frames within the gap; none exactly when there is none |
| `FrameEvidenceCache.Cache.Clear` | `pipeline/src/evidence/frame_evidence_cache.cpp:172-176` | both maps become empty |
| `FrameEvidenceCache.SourceKeyExact` | `pipeline/src/evidence/frame_evidence_cache.cpp:183-187` | the queue key determines the source id and, for pipeline ids free of the separator, the whole route |
| `FrameEvidenceCache.SourceKeyCollision` | `pipeline/src/evidence/frame_evidence_cache.cpp:183-187` | two different cameras with one queue key when a name contains the separator |
| `FrameCacheHistory.ModelIsHistory` | `pipeline/src/evidence/frame_evidence_cache.cpp:189-219` | nondecreasing clock: what lazy pruning keeps of a source is the longest suffix of its store history that is short and fresh enough at its last touch |
| `FrameCacheHistory.CacheRefinesModel` | `pipeline/src/evidence/frame_evidence_cache.cpp:80-219` | distinct frame keys and a nondecreasing clock: after any run the maps and queues represent exactly the per-source live lists |
| `FrameCacheHistory.CacheHoldsLiveHistory` | `pipeline/src/evidence/frame_evidence_cache.cpp:80-219` | in every such run a source queue lists the keys of its live history in order, each key maps to that frame, and no other entry of the source is cached |
| `FrameCacheHistory.ResolveAnswersHistory` | `pipeline/src/evidence/frame_evidence_cache.cpp:108-152` | over any run, resolve answers from the store history: the unique live frame with that key and route, else the nearest live frame within the gap with the earliest stored on ties, and nothing only when neither exists |
| `FrameCacheHistory.RunAccounted` | `pipeline/src/evidence/frame_evidence_cache.cpp:99-103` | no assumption on keys or clock: every cached entry is stored under its own key and that key is queued under its own source |
| `FrameCacheHistory.MemoryBound` | `pipeline/src/evidence/frame_evidence_cache.cpp:189-219` | no assumption on keys or clock: with a positive limit the entries never exceed the limit times the tracked sources |
| `RouteHistory.CacheHoldsCamera` | `pipeline/src/evidence/frame_evidence_cache.cpp:80-219` | of one camera the cache holds exactly the live frames of its own store history, whatever other cameras store or ask for |
| `RouteHistory.ResolveAnswersCamera` | `pipeline/src/evidence/frame_evidence_cache.cpp:108-152` | resolve answers a camera from its own live frames: the requested key, else the one closest in time within the gap, the earliest stored on ties, else nothing |
| `RouteHistory.CameraBound` | `pipeline/src/evidence/frame_evidence_cache.cpp:189-219` | with a positive limit the entries never exceed the limit times the cameras that stored a frame since the last clear |
| `RecentRefs.LedgerConsistent` | `pipeline/src/evidence/evidence_request_service.cpp:527-569` | in every run the order has no duplicates, holds exactly the keys of the map, and the size limit holds |
| `RecentRefs.LedgerExact` | `pipeline/src/evidence/evidence_request_service.cpp:507-569` | in runs that mark only after a miss, the ledger is exactly the window of its marks |
| `RecentRefs.RecentIff` | `pipeline/src/evidence/evidence_request_service.cpp:507-525` | a ref tests as recent iff its last mark is no older than the time to live and among the last max_recent_encoded_refs marks |
| `RecentRefs.NeverEncodedTwice` | `pipeline/src/evidence/evidence_request_service.cpp:507-547` | two marks of one ref are more than the time to live apart, or at least the limit of other marks lies between them |
| `RecentRefs.MissStays` | `pipeline/src/evidence/evidence_request_service.cpp:507-525` | a ref that was missed is missed again as long as nothing is marked |
| `EvidenceFiles.EvidenceKeyExact` | `pipeline/src/evidence/evidence_request_service.cpp:501-505` | the ledger key tells refs of one frame apart always, and routes, frame keys and refs apart unless a text contains the separator |
| `EvidenceFiles.EvidenceKeyCollision` | `pipeline/src/evidence/evidence_request_service.cpp:501-505` | two different files with one key when a frame key contains the separator |
| `EvidenceFiles.HitIsWritten` | `pipeline/src/evidence/evidence_request_service.cpp:507-525` | a test that hits means that this file was written before |
| `EvidenceFiles.FileRecentIff` | `pipeline/src/evidence/evidence_request_service.cpp:507-525` | a file tests as recent iff this very file was written within the time to live and among the last max_recent_encoded_refs files |
| `EvidenceFiles.NeverWrittenTwice` | `pipeline/src/evidence/evidence_request_service.cpp:507-547` | no file is written twice within the time to live, unless that many other files came in between |
| `EvidenceService.Service.constructor` | `pipeline/src/evidence/evidence_request_service.cpp:143-146` | a new service has an empty queue, an empty ledger and no worker |
| `EvidenceService.Service.StartWorker` | `pipeline/src/evidence/evidence_request_service.cpp:152-160` | does nothing while the thread object holds a thread, even an ended one; otherwise a worker runs iff the encoder context was created |
| `EvidenceService.Service.RequestStop` | `pipeline/src/evidence/evidence_request_service.cpp:162-168` | stop is requested without disturbing queue or jobs |
| `EvidenceService.Service.EnqueueRequest` | `pipeline/src/evidence/evidence_request_service.cpp:170-183` | the job goes to the back of the queue |
| `EvidenceService.Service.TakeJob` | `pipeline/src/evidence/evidence_request_service.cpp:248-272` | jobs leave in order; the worker leaves its loop only when stop is set and the queue is empty, and then every job enqueued so far has been processed |
| `EvidenceService.Service.FinishJob` | `pipeline/src/evidence/evidence_request_service.cpp:263-270` | processed jobs stay a prefix of enqueued jobs, in order; the event of this job, if any, is the right one and names only written files, and so stays every event published before |
| `EvidenceService.OneMoreConcluded` | `pipeline/src/evidence/evidence_request_service.cpp:263-270` | over a run of jobs every published event is the right one for what its own job met |
| `EvidenceService.CompleteIsWritten` | `pipeline/src/evidence/evidence_request_service.cpp:314-348` | everything an ok event names was written, by this job or an earlier one |
| `EvidenceService.Service.WasRecentlyEncoded` | `pipeline/src/evidence/evidence_request_service.cpp:507-525` | an empty ref is never recent; otherwise the answer is the ledger test at the clock reading |
| `EvidenceService.Service.MarkRecentlyEncoded` | `pipeline/src/evidence/evidence_request_service.cpp:527-547` | a mark is recorded for the file just written, directly after the miss for the same ref |
| `EvidenceService.Service.EncodeOverview` | `pipeline/src/evidence/evidence_request_service.cpp:351-377` | success names the requested or cached ref, which was found in the ledger or marked now; "encoded" iff something was marked; exactly one step fails on failure |
| `EvidenceService.Service.EncodeCrop` | `pipeline/src/evidence/evidence_request_service.cpp:400-462` | one crop: on success its resolved ref is covered by the ledger or by a mark made now; it fails iff an encode step failed |
| `EvidenceService.Service.EncodeCrops` | `pipeline/src/evidence/evidence_request_service.cpp:379-464` | on success the refs appended are the resolved refs of the requested objects, in order, each covered; "encoded" iff something was marked |
| `EvidenceService.Service.PreCheckCrops` | `pipeline/src/evidence/evidence_request_service.cpp:295-312` | succeeds iff every requested ref is named and recent, and then yields exactly those refs; otherwise some ref is unnamed or was tested and missed; nothing is encoded |
| `EvidenceService.Service.PreCheckOverview` | `pipeline/src/evidence/evidence_request_service.cpp:286-293` | done iff the overview is not wanted or named and not missed by the ledger test; nothing is encoded |
| `EvidenceService.Service.PreCheck` | `pipeline/src/evidence/evidence_request_service.cpp:286-318` | done iff the ledger covers the whole request, and then the event is complete for any frame; hands on exactly the crop refs known by then |
| `EvidenceService.PreCheckExact` | `pipeline/src/evidence/evidence_request_service.cpp:286-318` | the two halves succeed iff no wanted ref is unnamed or missed: a missed ref stays missed until something is encoded |
| `EvidenceService.Service.Materialize` | `pipeline/src/evidence/evidence_request_service.cpp:326-348` | ok iff no encode step failed; then the crop refs are the known ones followed by exactly those this frame resolves the request to |
| `EvidenceService.Service.Conclude` | `pipeline/src/evidence/evidence_request_service.cpp:274-349` | a request the ledger covers is ok without the cache and nothing is encoded; any other asks the cache: not_found iff it has no answer, error iff an encode step failed, else ok with exactly the refs resolved against that answer |
| `EvidenceService.Service.ProcessJob` | `pipeline/src/evidence/evidence_request_service.cpp:274-349` | exactly one event per job when cache, producer and channel are present, and it is the right one and names only files that were written; none otherwise |
| `EvidenceService.ExplicitRefs` | `pipeline/src/evidence/evidence_request_service.cpp:401-409` | refs named in the request do not depend on the frame found |
| `EvidenceService.EarlyComplete` | `pipeline/src/evidence/evidence_request_service.cpp:314-318` | a fully covered request is delivered whatever the frame is |
| `EvidenceService.FindObjectMeans` | `pipeline/src/evidence/frame_evidence_cache.cpp:154-170` | the first object of the frame with the nonempty object key, the nonempty instance key or the object id of the request, and none only when there is none |
| `EvidenceService.CropRefForMeans` | `pipeline/src/evidence/evidence_request_service.cpp:401-441` | a crop ref is the one the request names, else that of the object it identifies, else the default |
| `EvidenceService.ResolvedMeans` | `pipeline/src/evidence/evidence_request_service.cpp:279-280` | what a request resolves to: without types the overview only; the named overview, else that of the frame; one crop for each requested object, or for each object of the frame |
| `EvidenceService.DefaultCropRefExact` | `pipeline/src/evidence/evidence_request_service.cpp:128-134` | default crop names of a camera differ whenever frame, time stamp or position do |
| `EvidenceService.DefaultCropRefFlat` | `pipeline/src/evidence/evidence_request_service.cpp:115-134` | a default crop name is one path component, whatever the pipeline and the camera are called |
| `EvidenceService.CropsDoubledIff` | `pipeline/src/evidence/evidence_request_service.cpp:295-312` | the crop refs of an ok event made from a frame are the resolved ones once, or twice over exactly when the ledger had all crops and only the overview was absent; as a set they are the same |
| `StreamSlots.Manager.constructor` | `pipeline/src/runtime_stream_manager.cpp:194-203` | the manager starts in a valid state iff no two configured cameras are found on the same slot |
| `StreamSlots.Manager.SeedExistingStreams` | `pipeline/src/runtime_stream_manager.cpp:909-980` | valid iff the seeds are distinct; every configured camera with a source bin is active and live on the slot of that bin, and no other |
| `StreamSlots.Manager.ReleaseUnoccupied` | `pipeline/src/runtime_stream_manager.cpp:970-980` | slots without a camera go idle and form a strictly decreasing free list |
| `StreamSlots.Manager.AllocateSourceIndex` | `pipeline/src/runtime_stream_manager.cpp:890-902` | takes the smallest free index, or a fresh one when none is free |
| `StreamSlots.Manager.ReleaseSourceIndex` | `pipeline/src/runtime_stream_manager.cpp:904-907` | the free list stays strictly decreasing and gains exactly this index, at the end if it is the lowest |
| `StreamSlots.Manager.AddStream` | `pipeline/src/runtime_stream_manager.cpp:549-663` | each refusal exactly under its condition; success takes the lowest free index, warming up on the placeholder, and changes nothing else; a failed add changes no map and restores the allocator exactly unless it had to make up an index without a slot; all invariants hold |
| `StreamSlots.Manager.BuildStream` | `pipeline/src/runtime_stream_manager.cpp:580-650` | after allocation: success exactly when the slot exists and building, linking and syncing succeed; otherwise the index is given back |
| `StreamSlots.Manager.RemoveStream` | `pipeline/src/runtime_stream_manager.cpp:669-736` | removes camera, name and slot ownership together and frees the index; refused removals change nothing |
| `StreamSlots.Manager.NoteStreamActivity` | `pipeline/src/runtime_stream_manager.cpp:838-855` | a buffer for an owned index makes its camera live and active; a buffer for an unowned index changes nothing |
| `StreamSlots.Manager.CheckStream` | `pipeline/src/runtime_stream_manager.cpp:861-884` | one round of the health loop |
| `StreamSlots.Manager.PollStreamHealth` | `pipeline/src/runtime_stream_manager.cpp:857-888` | exactly the active cameras on a prepared slot without a buffer for the stall timeout fall back to the placeholder and recover; nothing else changes |
| `StreamSlots.AddKeeps` | `pipeline/src/runtime_stream_manager.cpp:630-650` | an add keeps ownership, selector and health invariants |
| `StreamSlots.ReleaseKeeps` | `pipeline/src/runtime_stream_manager.cpp:904-907` | giving an index back keeps them, and restores the list it came from |
| `StreamSlots.RemoveKeeps` | `pipeline/src/runtime_stream_manager.cpp:669-736` | a remove keeps them |
| `StreamSlots.BufferKeeps` | `pipeline/src/runtime_stream_manager.cpp:838-855` | a buffer notification keeps them |
| `StreamSlots.CheckKeeps` | `pipeline/src/runtime_stream_manager.cpp:857-888` | a health check keeps them |
| `StreamSlots.CheckedHealthy` | `pipeline/src/runtime_stream_manager.cpp:857-888` | after a poll no live camera with a slot is stale |
| `StreamSlots.OwnershipMeans` | `pipeline/src/runtime_stream_manager.cpp:890-980` | no two cameras share an index; every index below next is either free or used by exactly one camera, never both |
| `StreamSlots.StreamCount` | `pipeline/src/runtime_stream_manager.cpp:630-650` | cameras and used indexes are equally many |
| `StreamSlots.LiveIsFresh` | `pipeline/src/runtime_stream_manager.cpp:857-888` | if the last poll is at most P ago, a camera without a buffer for stale_after + P is still live iff its slot could not be prepared |
| `StreamSlots.FreeSlotExists` | `pipeline/src/runtime_stream_manager.cpp:570-582` | below the capacity of a normalised configuration the lowest free index is a real slot |
| `StreamSlots.NormalisedCapacity` | `infrastructure/config_parser/src/yaml_parser_sources.cpp:142-157` | after the parser defaults, the add check never admits more streams than slots |
| `StreamSlots.CapacityExceedsSlots` | `pipeline/src/runtime_stream_manager.cpp:70-78` | exactly which configurations admit more streams than slots |
| `StreamSlots.DistinctNamesSuffice` | `pipeline/include/engine/pipeline/source_naming.hpp:8-33` | cameras with distinct normalised ids are never found on the same slot |
| `StreamSlots.SeededIndexIff` | `pipeline/src/runtime_stream_manager.cpp:918-950` | a camera is found on a slot iff the bin whose name its id normalises to is linked to that slot |
| `StreamSlots.SeedsValidIff` | `pipeline/src/runtime_stream_manager.cpp:909-980` | seeding establishes the invariants iff no two seeds share a slot |
| `StreamSlots.SeedsClash` | `pipeline/src/runtime_stream_manager.cpp:909-968` | two ids that normalise alike break ownership |
| `StreamSlots.AlikeIdsClash` | `pipeline/include/engine/pipeline/source_naming.hpp:8-33` | the ids a.b and a_b are found on one bin, so they clash |
| `StreamSlots.ReleaseKeepsOrder` | `pipeline/src/runtime_stream_manager.cpp:904-907` | releasing keeps the free list strictly decreasing and adds exactly that index |
| `CaptureDecision.BypassBound` | `pipeline/src/probes/crop_object_handler.cpp:1244-1274` | bypasses after the first capture number at most burst_max plus the full refill periods since the last FirstSeen decision, despite dropped remainders, capping and int wrap |
| `BypassBounds.BypassBoundFromFirstCapture` | `pipeline/src/probes/crop_object_handler.cpp:751-835` | the bound burst_max + (t - t0) / token_refill_ns from the first capture at t0, unless the bucket was filled early: by an unpublished FirstSeen decision less than one refill period before the first possible bypass |
| `BypassBounds.FilledEarlyOverspends` | `pipeline/src/probes/crop_object_handler.cpp:774-786` | whenever it was filled early some run breaks that bound, for every configuration |
| `BypassBounds.BypassBoundIff` | `pipeline/src/probes/crop_object_handler.cpp:751-835` | the bound holds in every run exactly when the bucket was not filled early |
| `EarlyFilledRun.OverspendingRun` | `pipeline/src/probes/crop_object_handler.cpp:588-626` | four frames, run through the handler, that break the bound: FirstSeen rejected by the label filter, first capture as a child, two published bypasses |
| `CaptureDecision.BypassWindow` | `pipeline/src/probes/crop_object_handler.cpp:1244-1274` | any window of length T of a captured key holds at most burst_max + ceil(T / token_refill_ns) bypasses |
| `CaptureDecision.BypassWindowInRun` | `pipeline/src/probes/crop_object_handler.cpp:751-835` | the window bound for every run of a key and every window of it, whichever way and whenever it was first captured |
| `CaptureDecision.BucketInRun` | `pipeline/src/probes/crop_object_handler.cpp:1244-1274` | along every run tokens stay within the burst size and the refill point is never in the future |
| `CaptureDecision.RefillAllowance` | `pipeline/src/probes/crop_object_handler.cpp:1244-1266` | a refill never creates allowance |
| `CaptureDecision.DecisionIff` | `pipeline/src/probes/crop_object_handler.cpp:751-835` | every decision read off the history: first seen iff stable and never captured; heartbeat iff stable, captured, and the interval is over or no interval or time stamp applies, whatever the label; bypass iff between gap and interval the k_label-th turn of a changed label finds a token |
| `CaptureDecision.HeartbeatWhenDue` | `pipeline/src/probes/crop_object_handler.cpp:797-803` | a stable object whose last capture is an interval old gets a heartbeat, whatever its label |
| `CaptureDecision.StateMirrors` | `pipeline/src/probes/crop_object_handler.cpp:751-835` | in every run capture mark, compared label, pending count, tokens and fill time are those of the history |
| `CaptureDecision.RefilledByPeriods` | `pipeline/src/probes/crop_object_handler.cpp:1260-1265` | after n full periods there are n more tokens, or burst_max of them |
| `CaptureDecision.StableCount` | `pipeline/src/probes/crop_object_handler.cpp:756-764` | on_stable_count is the length of the longest suffix of observed frames with steps in 1..k_off from a nonzero frame |
| `CaptureDecision.PublishNeedsStability` | `pipeline/src/probes/crop_object_handler.cpp:766-768` | every decision other than None has k_on stable observations in a row behind it |
| `CaptureDecision.PendingCount` | `pipeline/src/probes/crop_object_handler.cpp:810-832` | the pending counter counts the turns in a row of one changed label, read off the history |
| `CaptureDecision.BypassNeedsStableLabel` | `pipeline/src/probes/crop_object_handler.cpp:817-832` | a bypass is the k_label-th turn in a row of one nonempty label that differs from the one last captured or first seen |
| `CaptureDecision.CaptureMark` | `pipeline/src/probes/crop_object_handler.cpp:444` | the stored capture time is that of the last capture |
| `CaptureDecision.CapturesApart` | `pipeline/src/probes/crop_object_handler.cpp:751-835` | consecutive captures by the key's own decisions are at least min(capture_interval, bypass_min_gap) apart |
| `ObjectGroups.BuildObjectGroups` | `pipeline/src/probes/crop_object_handler.cpp:274-331` | for every frame the loops compute the groups that the rounds define, and the updated parent cache |
| `ObjectGroups.GroupsMean` | `pipeline/src/probes/crop_object_handler.cpp:274-331` | for every frame, colliding keys included: which groups exist, who is the parent, and which children they have, from the place the cache gives each object at its turn |
| `ObjectGroups.AttachDeferred` | `pipeline/src/probes/crop_object_handler.cpp:325-330` | the second loop attaches the deferred objects in order |
| `ObjectGroups.EnsureGroup` | `pipeline/src/probes/crop_object_handler.cpp:283-297` | finds the group of an id through the index, or appends an empty one |
| `ObjectGroups.GroupingIgnoresOrder` | `pipeline/src/probes/crop_object_handler.cpp:274-331` | without a clash every permutation of the metadata gives the same groups, parents, children as multisets, and cache |
| `ObjectGroups.CacheIgnoresOrder` | `pipeline/src/probes/crop_object_handler.cpp:312-316` | without a clash the updated child-to-parent cache does not depend on the order |
| `ObjectGroups.OrderMattersIff` | `pipeline/src/probes/crop_object_handler.cpp:274-331` | for distinct tracker ids the order matters exactly when two objects clash: same 48-bit key, one names a tracked parent, the other is parentless with something else in the cache or names another parent |
| `ObjectGroups.OrderMattersOnKeyCollision` | `pipeline/src/probes/crop_object_handler.cpp:865-867` | a frame of two such objects whose groups differ in the two orders |
| `ObjectGroups.PlacedOnce` | `pipeline/src/probes/crop_object_handler.cpp:274-331` | distinct tracker ids: every tracked object with a tracked parent, if any, is placed exactly once, where the cache puts it at its turn |
| `GroupMeaning.ComposeKeyExact` | `pipeline/src/probes/crop_object_handler.cpp:865-867` | two objects share a key iff source modulo 2^16 and tracker id modulo 2^48 agree |
| `GroupMeaning.CacheMeans` | `pipeline/src/probes/crop_object_handler.cpp:312-316` | after a frame the cache holds for a key the parent that the last object with the key pointed to, else what it held |
| `GroupMeaning.PlacedByParent` | `pipeline/src/probes/crop_object_handler.cpp:274-331` | an object with a tracked parent is a child of that parent's group; a parentless one is a child of the remembered group, else head of its own; an untracked one is nowhere |
| `GroupMeaning.ChildrenInOrder` | `pipeline/src/probes/crop_object_handler.cpp:274-331` | children come in metadata order, first those that name the parent, then those the cache puts below it |
| `GroupMeaning.GroupsInOrder` | `pipeline/src/probes/crop_object_handler.cpp:274-331` | groups stand in the order in which objects first ask for them, those only remembered parents ask for last |
| `ObjectGroups.BuildGroupSgieSignature` | `pipeline/src/probes/crop_object_handler.cpp:350-380` | the loop computes the group signature |
| `ObjectGroups.SignatureIgnoresOrder` | `pipeline/src/probes/crop_object_handler.cpp:350-380` | the group signature depends only on the parent and the multiset of children |
| `GroupMeaning.GroupSignatureExact` | `pipeline/src/probes/crop_object_handler.cpp:350-383` | label texts free of "=": two groups have the same signature iff their parents show the same labels and equally many children show each label text under each id |
| `CropPublish.CropObjectHandler.constructor` | `pipeline/src/probes/crop_object_handler.cpp:38-44` | a new handler knows nothing and has published nothing |
| `CropPublish.CropObjectHandler.GetOrCreateObjectKey` | `pipeline/src/probes/crop_object_handler.cpp:869-878` | an object keeps its key, other keys are untouched, and a new key is one that no object has |
| `CropPublish.CropObjectHandler.DecideCapture` | `pipeline/src/probes/crop_object_handler.cpp:751-835` | updating the record field by field computes the decision function; no other object changes |
| `CropPublish.CropObjectHandler.DecideGate` | `pipeline/src/probes/crop_object_handler.cpp:751-835` | the branches compute the decision and the new gate |
| `CropPublish.CropObjectHandler.Record` | `pipeline/src/probes/crop_object_handler.cpp:442-501` | the message joins the log with the right link and heartbeat count; chain and capture state follow |
| `CropPublish.CropObjectHandler.NameParent` | `pipeline/src/probes/crop_object_handler.cpp:446-473` | a parent registers its instance key; a child takes its parent's object and instance key |
| `CropPublish.CropObjectHandler.Announce` | `pipeline/src/probes/crop_object_handler.cpp:437-556` | one message with the forced or taken decision, naming its object and parent by their stored keys |
| `CropPublish.CropObjectHandler.ProcessObjectForPublish` | `pipeline/src/probes/crop_object_handler.cpp:382-586` | published iff accepted by the filter, decided, and not a repeated heartbeat |
| `CropPublish.CropObjectHandler.BuildParentInstanceKeyCache` | `pipeline/src/probes/crop_object_handler.cpp:333-348` | exactly the tracked group ids with a last instance key enter the cache, with that key |
| `CropPublish.CropObjectHandler.ProcessFrame` | `pipeline/src/probes/crop_object_handler.cpp:588-626` | each group is decided once on its parent and sent iff the parent is accepted, decided and not a repeated heartbeat; the messages are exactly those of the groups sent, parent first, children in order under its decision; every child carries the keys of its parent's message; decisions, captures and last sightings of every object are recorded exactly; no two messages share an instance key |
| `CropPublish.CropObjectHandler.ProcessGroup` | `pipeline/src/probes/crop_object_handler.cpp:597-625` | a group is sent iff its parent is decided, accepted and not a repeated heartbeat, and then completely |
| `CropPublish.CropObjectHandler.PublishChildren` | `pipeline/src/probes/crop_object_handler.cpp:620-624` | every accepted child follows, with the parent's decision and keys |
| `CropPublish.CropObjectHandler.CleanupStaleObjects` | `pipeline/src/probes/crop_object_handler.cpp:890-1003` | exactly the stale objects lose all their state, each with the id its exit message links to; everything goes iff one of the four maps is still over the limit |
| `CropPublish.CropObjectHandler.Forget` | `pipeline/src/probes/crop_object_handler.cpp:972-977` | the state of the keys disappears from all maps together |
| `CropPublish.CropObjectHandler.ForgetAll` | `pipeline/src/probes/crop_object_handler.cpp:983-995` | the emergency limit clears every map |
| `CropPublish.ChainHasNoGaps` | `pipeline/src/probes/crop_object_handler.cpp:475-501` | until cleanup each message of an object names the id of its previous message |
| `CropPublish.HeartbeatSeqCounts` | `pipeline/src/probes/crop_object_handler.cpp:481-491` | within a chain a heartbeat counts one up, a bypass keeps the number and a first sighting starts at zero |
| `CropPublish.MessageIdExact` | `pipeline/src/probes/crop_object_handler.cpp:1049-1055` | message ids agree iff source, frame number and time stamp agree |
| `CropPublish.LinkedPush` | `pipeline/src/probes/crop_object_handler.cpp:475-501` | appending a message with the stored link keeps the whole log linked and its heartbeat numbers right |
| `CropPublish.RegisteredPush` | `pipeline/src/probes/crop_object_handler.cpp:386-447` | every message is about a tracked, labelled object that passes the filter, and no two share an instance key |
| `CropPublish.DecidedFirst` | `pipeline/src/probes/crop_object_handler.cpp:599-612` | the group signature, of parent and children, is what the parent is decided on |
| `FrameSignature.BuildSignature` | `pipeline/src/probes/frame_events_probe_handler.cpp:136-155` | the loops compute the canonical signature |
| `FrameSignature.MemberMeans` | `pipeline/src/probes/frame_events_probe_handler.cpp:136-150` | the object-set signature is about id, class, type and parent of each object |
| `FrameSignature.SignatureExact` | `pipeline/src/probes/frame_events_probe_handler.cpp:136-155` | nonempty frames with types free of ';': equal signatures iff equal multisets of (id, class, type, parent) |
| `FrameSignature.SignatureNonempty` | `pipeline/src/probes/frame_events_probe_handler.cpp:136-155` | a nonempty frame never has the empty signature of a reset source |
| `FrameSignature.SignatureCollision` | `pipeline/src/probes/frame_events_probe_handler.cpp:136-155` | two frames of different sizes with equal signatures, when a type contains ';' and a vertical bar |
| `FrameSignature.BuildLabelSignature` | `pipeline/src/probes/frame_events_probe_handler.cpp:110-132` | the loops compute the label signature |
| `FrameSignature.LabelNameMeaning` | `pipeline/src/probes/frame_events_probe_handler.cpp:115-121` | a label is cut at its first colon |
| `FrameSignature.LabelSignatureExact` | `pipeline/src/probes/frame_events_probe_handler.cpp:110-132` | names free of a vertical bar: equal label signatures iff equal multisets of names |
| `TextOrder.SortCanonical` | `pipeline/src/probes/frame_events_probe_handler.cpp:145` | two lists sort alike iff they are permutations of each other |
| `TextOrder.SortedJoinExact` | `pipeline/src/probes/frame_events_probe_handler.cpp:145-154` | the joined sorted parts identify the multiset of the parts |
| `TextOrder.IntTextInjective` | `pipeline/src/probes/frame_events_probe_handler.cpp:140-142` | different numbers have different decimal texts |
| `LabelVote.Tally` | `pipeline/src/probes/frame_events_probe_handler.cpp:616-626` | counts, latest index and latest labels per signature |
| `LabelVote.PickWinner` | `pipeline/src/probes/frame_events_probe_handler.cpp:628-640` | whatever order the hash map yields, the loop finds the unique winner |
| `LabelVote.WinnerUnique` | `pipeline/src/probes/frame_events_probe_handler.cpp:628-640` | there is only one winner, so map iteration order does not matter |
| `LabelVote.MajorityUnique` | `pipeline/src/probes/frame_events_probe_handler.cpp:642-645` | two signatures cannot both hold a strict majority |
| `LabelVote.CastVote` | `pipeline/src/probes/frame_events_probe_handler.cpp:596-646` | one pass of the loop body computes the vote |
| `LabelVote.Slide` | `pipeline/src/probes/frame_events_probe_handler.cpp:606-609` | the oldest samples leave until the window fits |
| `LabelVote.OnlySampleElected` | `pipeline/src/probes/frame_events_probe_handler.cpp:611-614` | the shortcut for a window of one agrees with the general rule |
| `LabelVote.ChangesIff` | `pipeline/src/probes/frame_events_probe_handler.cpp:615-646` | the committed signature changes iff another one holds a strict majority of a full window |
| `LabelVote.CommittedIsLastElected` | `pipeline/src/probes/frame_events_probe_handler.cpp:587-646` | after any run the committed signature is that of the most recent full window with a majority |
| `LabelVote.CommittedLabels` | `pipeline/src/probes/frame_events_probe_handler.cpp:620-641` | the committed labels are those of the latest sample of the elected signature in the electing window; the provisional ones are the first seen |
| `LabelVote.StaysCommitted` | `pipeline/src/probes/frame_events_probe_handler.cpp:587-646` | once committed to s an object stays at s as long as every later window has at most floor(W / 2) samples different from s |
| `LabelVote.SwitchesAboveHalf` | `pipeline/src/probes/frame_events_probe_handler.cpp:642-645` | the bound is sharp: one more sample of another signature switches |
| `LabelVote.ApplyLabelMajorityVote` | `pipeline/src/probes/frame_events_probe_handler.cpp:587-659` | every object of the frame votes and is relabelled in order; objects not shown are forgotten |
| `LabelVote.EraseUnseen` | `pipeline/src/probes/frame_events_probe_handler.cpp:652-658` | the erasing loop keeps exactly the seen ids |
| `LabelVote.RelabelKeepsMembers` | `pipeline/src/probes/frame_events_probe_handler.cpp:648-654` | voting changes labels only |
| `LabelVote.ObjectsVoteIndependently` | `pipeline/src/probes/frame_events_probe_handler.cpp:587-659` | an object shown once in every frame has the vote of its own run |
| `LabelVote.ShownLabels` | `pipeline/src/probes/frame_events_probe_handler.cpp:643-649` | a frame shows of an object the signature its own observations elected last, with its labels; before any election no signature and the first labels; an elected signature without labels shows the first labels again |
| `EmitPolicy.Handler.constructor` | `pipeline/include/engine/pipeline/probes/frame_events_probe_handler.hpp:84-94` | no source has a state yet |
| `EmitPolicy.Handler.ShouldEmitMessage` | `pipeline/src/probes/frame_events_probe_handler.cpp:369-473` | decides one frame of one source; the state of every source stays the run of its own frames |
| `EmitPolicy.DecideFrame` | `pipeline/src/probes/frame_events_probe_handler.cpp:369-473` | empty frames reset; otherwise vote, reasons, gap guard and memory as specified |
| `EmitPolicy.CollectReasons` | `pipeline/src/probes/frame_events_probe_handler.cpp:384-450` | the reasons, in reporting order |
| `EmitPolicy.ReasonsOrdered` | `pipeline/src/probes/frame_events_probe_handler.cpp:384-441` | reasons are reported in a fixed order, each at most once |
| `EmitPolicy.CompareObjects` | `pipeline/src/probes/frame_events_probe_handler.cpp:393-438` | the loop finds whether any remembered object changed label, parent or place |
| `EmitPolicy.CenterShiftIsDistance` | `pipeline/src/probes/frame_events_probe_handler.cpp:416-430` | the squared comparison is the distance of the centers over the previous diagonal |
| `EmitPolicy.MotionExtremes` | `pipeline/src/probes/frame_events_probe_handler.cpp:407-430` | an unmoved box is no motion and one that leaves its place entirely is |
| `EmitPolicy.RememberMeans` | `pipeline/src/probes/frame_events_probe_handler.cpp:458-470` | an id is remembered by the last object that carries it |
| `EmitPolicy.MemoryCompares` | `pipeline/src/probes/frame_events_probe_handler.cpp:388-430` | comparing with the memory is comparing with the last object of the same id in the emitted frame: type, class, label signature, parent, box |
| `EmitPolicy.StateIsHistory` | `pipeline/src/probes/frame_events_probe_handler.cpp:455-470` | the state is exactly the latest emission, or cleared if an empty frame came after it |
| `EmitPolicy.NothingRemembered` | `pipeline/src/probes/frame_events_probe_handler.cpp:369-383` | before the first emission nothing is remembered |
| `EmitPolicy.DetectionFlagExact` | `pipeline/src/probes/frame_events_probe_handler.cpp:455-470` | had_detection holds iff objects are remembered iff the remembered signature is nonempty |
| `EmitPolicy.EmissionsApart` | `pipeline/src/probes/frame_events_probe_handler.cpp:447-450` | any two emissions of a source are at least min_emit_gap_ms apart, across resets and without a monotone clock |
| `EmitPolicy.EmissionRate` | `pipeline/src/probes/frame_events_probe_handler.cpp:447-450` | c emissions span at least c - 1 gaps |
| `EmitPolicy.HeartbeatAlone` | `pipeline/src/probes/frame_events_probe_handler.cpp:442-445` | a heartbeat is reported only when nothing else is |
| `EmitPolicy.HeartbeatEmits` | `pipeline/src/probes/frame_events_probe_handler.cpp:442-453` | a nonempty frame at least max(heartbeat, gap) after the last emission is emitted |
| `EmitPolicy.FirstNonemptyFrame` | `pipeline/src/probes/frame_events_probe_handler.cpp:384-391` | before any emission a nonempty frame is emitted iff first_frame or object_set_change is enabled or the heartbeat interval is not positive |
| `EmitPolicy.SilentForever` | `pipeline/src/probes/frame_events_probe_handler.cpp:384-391` | otherwise a source never emits anything |
| `EmitPolicy.ObjectSetChangeExact` | `pipeline/src/probes/frame_events_probe_handler.cpp:389-391` | with an emission remembered, the reason is raised iff the multiset of (id, class, type, parent) differs from the emitted one |
| `EmitPolicy.ObjectSetChangeAfterReset` | `pipeline/src/probes/frame_events_probe_handler.cpp:389-391` | with none remembered every nonempty frame raises it |
| `EmitPolicy.RaisedAgainstEmission` | `pipeline/src/probes/frame_events_probe_handler.cpp:384-441` | without a reset the reasons of a frame are exactly its differences from the latest emission: object set, labels, parents, motion |
| `EmitPolicy.EmittedPastGapIff` | `pipeline/src/probes/frame_events_probe_handler.cpp:442-453` | past the gap a nonempty frame is emitted iff it differs from the latest emission or the heartbeat is due; after an empty frame it is emitted whatever it shows, for every nonnegative gap |
| `EmitPolicy.PastGapAfterReset` | `pipeline/src/probes/frame_events_probe_handler.cpp:377-382` | after an empty frame every nonempty frame past the gap of the latest emission is emitted, whatever it shows |
| `EmitPolicy.SuppressedChangeIsEmitted` | `pipeline/src/probes/frame_events_probe_handler.cpp:442-453` | a change of any kind that the gap suppressed is emitted at the first nonempty frame past the gap if it is still there, for the same reason; after an empty frame in between that frame is emitted in any case |
| `EmitPolicy.SuppressedSetChangeIsEmitted` | `pipeline/src/probes/frame_events_probe_handler.cpp:442-453` | a suppressed object-set change keeps its reason even across empty frames |
| `EmitPolicy.UnchangedDiffersNowhere` | `pipeline/src/probes/frame_events_probe_handler.cpp:384-441` | a frame that shows the same objects as the emission differs from it in no respect |
| `EmitPolicy.SuppressionHappens` | `pipeline/src/probes/frame_events_probe_handler.cpp:442-453` | such a run, for any two different frames: emitted, suppressed, emitted when the gap is over |
| `EmitPolicy.VotesSinceReset` | `pipeline/src/probes/frame_events_probe_handler.cpp:575-585` | label votes depend only on the frames since the last empty one |
| `EmitPolicy.ShownSinceReset` | `pipeline/src/probes/frame_events_probe_handler.cpp:643-649` | what the emit decision sees of an object is what its observations since the last empty frame elected |
| `Boxes.IousAgree` | `pipeline/src/probes/frame_events_probe_handler.cpp:661-683` | nonnegative sizes: parser and probe compute the same intersection over union |
| `Boxes.IouIsCommonArea` | `plugins/src/nvdsinfer_custom_impl_Yolo_face.cpp:27-37` | nonnegative sizes: the value is the common area over the area of both |
| `Boxes.IouSymmetric` | `plugins/src/nvdsinfer_custom_impl_Yolo_face.cpp:27-37` | it does not matter which box is named first |
| `Boxes.IouRange` | `plugins/src/nvdsinfer_custom_impl_Yolo_face.cpp:27-37` | the value lies in [0, 1] |
| `Boxes.IouOneIff` | `plugins/src/nvdsinfer_custom_impl_Yolo_face.cpp:27-37` | boxes of positive area reach 1 iff they are identical |
| `Boxes.OverlapIsCommon` | `plugins/src/nvdsinfer_custom_impl_Yolo_face.cpp:19-25` | swapping the intervals computes the common length |
| `Nms.SortUnique` | `plugins/src/nvdsinfer_custom_impl_Yolo_face.cpp:41-44` | a stable descending sort has exactly one result |
| `Nms.NonMaximumSuppression` | `plugins/src/nvdsinfer_custom_impl_Yolo_face.cpp:39-66` | the kept list is the greedy selection of the stable sort; each mask is either kept or freed, exactly once |
| `Nms.ClearOfAll` | `plugins/src/nvdsinfer_custom_impl_Yolo_face.cpp:49-57` | the inner loop with its early exit keeps iff every kept box is within the threshold |
| `Nms.PicksGreedy` | `plugins/src/nvdsinfer_custom_impl_Yolo_face.cpp:48-63` | an index is kept iff it is within the threshold of every kept earlier index |
| `Nms.GreedyUnique` | `plugins/src/nvdsinfer_custom_impl_Yolo_face.cpp:48-63` | no other set of indices obeys that rule |
| `Nms.PicksIncreasing` | `plugins/src/nvdsinfer_custom_impl_Yolo_face.cpp:48-63` | the output is a subsequence of the sort |
| `Nms.KeptApart` | `plugins/src/nvdsinfer_custom_impl_Yolo_face.cpp:48-63` | no two kept boxes overlap above the threshold, in either order |
| `Nms.DroppedOverlaps` | `plugins/src/nvdsinfer_custom_impl_Yolo_face.cpp:48-63` | every dropped candidate overlaps above the threshold with a kept one of at least its confidence |
| `Nms.BestSurvives` | `plugins/src/nvdsinfer_custom_impl_Yolo_face.cpp:48-63` | the most confident candidate survives |
| `Nms.Idempotent` | `plugins/src/nvdsinfer_custom_impl_Yolo_face.cpp:39-66` | suppressing a suppressed list changes nothing |
| `Nms.OrderIrrelevant` | `plugins/src/nvdsinfer_custom_impl_Yolo_face.cpp:39-66` | with distinct confidences the order of the candidates does not matter |
| `Nms.TieKeepsTheFirst` | `plugins/src/nvdsinfer_custom_impl_Yolo_face.cpp:41-44` | with a tie the first reported candidate wins |
| `UuidV7.VersionAndVariant` | `core/src/utils/uuid_v7_generator.cpp:62-69` | version 7 and variant binary 10, for every input |
| `UuidV7.HeadValue` | `core/src/utils/uuid_v7_generator.cpp:53-65` | the first 64 bits hold timestamp, version and counter, most significant first |
| `UuidV7.RandomTail` | `core/src/utils/uuid_v7_generator.cpp:61-72` | the 62 bits after the variant are bits of the two random draws, and every change of those bits shows |
| `UuidV7.Fill` | `core/src/utils/uuid_v7_generator.cpp:48-74` | the stores fill the 16 bytes of the layout |
| `UuidV7.Generator.constructor` | `core/src/utils/uuid_v7_generator.cpp:12-20` | timestamp and counter start at zero |
| `UuidV7.Generator.GenerateBytes` | `core/src/utils/uuid_v7_generator.cpp:26-75` | returns the identifier of this call in the run of all calls |
| `UuidV7.Generator.TakeStamp` | `core/src/utils/uuid_v7_generator.cpp:31-45` | counts up within a millisecond, waits out an exhausted one, restarts on a new one |
| `UuidV7.CounterBound` | `core/src/utils/uuid_v7_generator.cpp:31-41` | the counter always fits 12 bits |
| `UuidV7.StepIncreasesIff` | `core/src/utils/uuid_v7_generator.cpp:26-75` | an identifier exceeds the one before it iff the clock was not set back |
| `UuidV7.IncreasingIff` | `core/src/utils/uuid_v7_generator.cpp:26-75` | a run issues strictly increasing identifiers iff the clock is never set back between calls, rollover included |
| `UuidV7.TextsIncrease` | `core/src/utils/uuid_v7_generator.cpp:22-24` | the texts of such a run are issued in string order |
| `UuidV7.BytesToString` | `core/src/utils/uuid_v7_generator.cpp:83-95` | the loop renders the text |
| `UuidV7.TextShape` | `core/src/utils/uuid_v7_generator.cpp:82-94` | 36 characters: dashes at 8, 13, 18 and 23, lower-case hexadecimal digits elsewhere |
| `UuidV7.RoundTrip` | `core/src/utils/uuid_v7_generator.cpp:83-95` | parsing the 8-4-4-4-12 text of any 16 bytes gives them back |
| `UuidV7.ParseExact` | `core/src/utils/uuid_v7_generator.cpp:83-95` | a text that parses is the text of its bytes |
| `UuidV7.TextOrderIsNumeric` | `core/src/utils/uuid_v7_generator.cpp:83-95` | string order of two texts is numeric order of the bytes |
| `SmartRecord.Handler.constructor` | `pipeline/src/probes/smart_record_probe_handler.cpp:106-108` | no source has a session |
| `SmartRecord.Handler.CleanupExpiredSessions` | `pipeline/src/probes/smart_record_probe_handler.cpp:353-375` | clears exactly the sessions past start + duration + 5 s |
| `SmartRecord.Handler.CountActiveRecordings` | `pipeline/src/probes/smart_record_probe_handler.cpp:377-385` | counts the sources with a session |
| `SmartRecord.Handler.CanStartRecording` | `pipeline/src/probes/smart_record_probe_handler.cpp:280-307` | the three checks, with unsigned 64-bit subtraction |
| `SmartRecord.Handler.StoreSession` | `pipeline/src/probes/smart_record_probe_handler.cpp:320-341` | stores a session where there is none, below the limit, and keeps the invariant |
| `SmartRecord.Handler.TryStart` | `pipeline/src/probes/smart_record_probe_handler.cpp:198-203` | a permitted source is started or its element is missing, whatever callbacks run between check and store; a refused one is not |
| `SmartRecord.Handler.OnRecordingDone` | `pipeline/src/probes/smart_record_probe_handler.cpp:428-437` | the active session of the source is cleared |
| `SmartRecord.Handler.ProcessBatch` | `pipeline/src/probes/smart_record_probe_handler.cpp:174-213` | after each batch no session is past its deadline; only triggering sources start; unless an element is missing every triggering source is started, refused from the start, or met a used-up limit |
| `SmartRecord.Handler.FirstMatch` | `pipeline/src/probes/smart_record_probe_handler.cpp:187-208` | a frame triggers iff some object passes the label filter |
| `SmartRecord.StartKeeps` | `pipeline/src/probes/smart_record_probe_handler.cpp:280-341` | a permitted start keeps limit, spacing and state invariants |
| `SmartRecord.StartKeepsSpacing` | `pipeline/src/probes/smart_record_probe_handler.cpp:296-302` | any two starts of a source satisfy now' >= max(0, now - pre_event) + min_interval |
| `SmartRecord.ClearingKeeps` | `pipeline/src/probes/smart_record_probe_handler.cpp:353-375` | clearing sessions, by callback or expiry, keeps the invariant |
| `SmartRecord.ClearingKeepsCanStart` | `pipeline/src/probes/smart_record_probe_handler.cpp:198-201` | a source that passed the check still may start after any callbacks |
| `SmartRecord.NeverLockedOut` | `pipeline/src/probes/smart_record_probe_handler.cpp:280-375` | once its own last recording is past its deadline and its interval is over, a source may start exactly when the limit has room, with or without sr-done |
| `SmartRecord.LimitFreesItself` | `pipeline/src/probes/smart_record_probe_handler.cpp:353-375` | when every recording is past its deadline the limit has room |
| `SmartRecord.ExpiredIff` | `pipeline/src/probes/smart_record_probe_handler.cpp:353-375` | a session is given up iff its recording time and five seconds of grace are over |
| `SmartRecord.RefusedIff` | `pipeline/src/probes/smart_record_probe_handler.cpp:280-307` | a source is refused iff it has a session, the limit is reached, or some earlier start of it is too close |
| `SmartRecord.RestartAtOnceIff` | `pipeline/src/probes/smart_record_probe_handler.cpp:198-206` | when a restart within the same batch is possible |
| `SmartRecord.LateDoneClearsNewSession` | `pipeline/src/probes/smart_record_probe_handler.cpp:428-437` | a late callback for an expired session clears the newer one |

## Left out

- EvidenceService.Service.EncodeOverview: failure texts, JPEG quality, file paths and directory creation are not modelled; a path check or an encode step just succeeds or fails.
- EvidenceService.Service.EncodeCrop: which image region is written is not modelled, because it does not influence refs or the ledger.
- EvidenceService.Service.TakeJob: waiting and waking up are not modelled; stop and notify happen without the mutex, so only safety is stated.
- EvidenceService.Service.ProcessJob: the crop failure text is always the generic one, because the texts come from the encoder.
- StreamSlots.Manager.constructor: the creation of the fixed slots is an input saying which slots exist.
- StreamSlots.Manager.AddStream: the wrap-around of the 32-bit next index is not modelled.
- CropPublish.CropObjectHandler.ProcessFrame: the payload hash is taken to be free of collisions, and generated keys to be distinct; a child whose parent is untracked cannot occur here, because groups without a tracked parent are skipped.
- CropPublish.CropObjectHandler.Record: image encoding, full frames and ext-proc calls are left out; they do not influence decisions or the chain.
- BypassBounds.BypassBoundFromFirstCapture: excludes buckets that were filled early, for which the bound is false; see BypassBoundIff.
- CaptureDecision.BucketInRun: signed overflow of the token sum is not modelled; the narrowing of the refill quotient to 32 bits is.
- ObjectGroups.GroupingIgnoresOrder: assumes that one tracker id stands for one metadata object, which the tracker guarantees, and excludes clashing objects, for which it is false; see OrderMattersIff.
- FrameCacheHistory.ResolveAnswersHistory: assumes distinct frame keys and a nondecreasing clock; the memory bound does not.
- RouteHistory.CacheHoldsCamera: assumes pipeline ids free of the separator, without which two cameras can share a queue; see SourceKeyCollision.
- EvidenceFiles.FileRecentIff: assumes texts free of the separator, without which two files can share a key; see EvidenceKeyCollision.
- GroupMeaning.GroupSignatureExact: assumes label texts free of '=', otherwise the end of one child's labels can look like another child.
- EmitPolicy.UnchangedDiffersNowhere: assumes boxes of positive size, an overlap threshold of at most one and a positive shift ratio; otherwise an object that stands still counts as moving.
- EmitPolicy.DecideFrame: the center shift compares squares over exact reals instead of two rounded square roots; 64-bit overflow of clock differences is not modelled.
- EmitPolicy.ObjectSetChangeExact: needs types free of ';', otherwise signatures can collide.
- FrameSignature.LabelSignatureExact: the formatting of label probabilities is left out; the signature drops it.
- Nms.NonMaximumSuppression: rounding and NaN values are left out; confidences and boxes are exact reals.
- UuidV7.Generator.GenerateBytes: randomness is an input, and the clock is assumed to advance when the counter is used up within a millisecond.
- SmartRecord.Handler.CanStartRecording: negative settings are not modelled; the code casts them to unsigned.
- SmartRecord.Handler.OnRecordingDone: finding the source of a callback is an input; teardown and signal connection are left out.
- GStreamer, DeepStream, CUDA, broker and HTTP calls: outcomes only.
- YAML parsing, validation and JSON shaping: only the defaults that slot capacity depends on.
- Element and pipeline builders, message adapters, OSD and class-id helpers: no deep property.
- YOLO and face decoding: suppression starts from an arbitrary list of candidates.
- Daily directories, memory statistics and old-file cleanup: file system behaviour.
