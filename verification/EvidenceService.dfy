/** The evidence request worker (evidence_request_service.cpp): queue, job processing, completion events. */
module EvidenceService {
  import opened Options
  import opened TextOrder
  import opened FrameEvidenceCache
  import opened EvidenceFiles
  import Ledger = RecentRefs

  datatype RequestObject = RequestObject(
    objectKey: string, instanceKey: string, cropRef: string, objectId: int, hasBbox: bool)

  datatype Job = Job(
    requestId: string, route: Route, frameKey: string, frameTsMs: int, overviewRef: string,
    evidenceTypes: seq<string>, objects: seq<RequestObject>)

  datatype Status = Ok | NotFound | Error

  datatype Ready = Ready(
    job: Job, status: Status, overviewRef: string, cropRefs: seq<string>,
    failureReason: string, encodeReason: string)

  predicate WantsType(types: seq<string>, kind: string) {
    if types == [] then kind == "overview" else kind in types
  }

  function SanitizeChar(c: char): char {
    if 'a' <= c <= 'z' || 'A' <= c <= 'Z' || '0' <= c <= '9' || c in "-_." then c else '_'
  }

  function Sanitize(value: string): string {
    if value == "" then "unknown" else Map(SanitizeChar, value)
  }

  function DefaultCropRef(meta: Metadata, index: nat): string {
    Sanitize(meta.route.pipelineId) + "_" + Sanitize(meta.route.sourceName) + "_" + IntText(meta.frameNum) + "_"
    + IntText(meta.frameTsMs) + "_crop_req_" + IntText(index) + ".jpg"
  }

  /** The file `ref` of the frame that the job asks for. */
  function FileOf(job: Job, ref: string): Evidence {
    Evidence(job.route, job.frameKey, ref)
  }

  function RefKey(job: Job, ref: string): string {
    EvidenceKey(FileOf(job, ref))
  }

  predicate Identifies(o: ObjectSnapshot, req: RequestObject) {
    || (req.objectKey != "" && o.objectKey == req.objectKey)
    || (req.instanceKey != "" && o.instanceKey == req.instanceKey)
    || (req.objectId >= 0 && o.objectId == req.objectId)
  }

  /** The first snapshot the request identifies. */
  function FindObject(objects: seq<ObjectSnapshot>, req: RequestObject): Option<ObjectSnapshot> {
    if objects == [] then None
    else if Identifies(objects[0], req) then Some(objects[0])
    else FindObject(objects[1..], req)
  }

  // ----- what a request asks for -------------------------------------------------------------------

  function FromSnapshot(o: ObjectSnapshot): RequestObject {
    RequestObject(o.objectKey, o.instanceKey, o.cropRef, o.objectId, true)
  }

  function RequestedObjects(job: Job, entry: Entry): seq<RequestObject> {
    if job.objects != [] then job.objects else Map(FromSnapshot, entry.objects)
  }

  function CropRefFor(entry: Entry, req: RequestObject, index: nat): string {
    if req.cropRef != "" then req.cropRef
    else
      match FindObject(entry.objects, req)
      case Some(o) => if o.cropRef != "" then o.cropRef else DefaultCropRef(entry.meta, index)
      case None => DefaultCropRef(entry.meta, index)
  }

  function CropRefs(entry: Entry, reqs: seq<RequestObject>): (r: seq<string>)
    ensures |r| == |reqs| && forall i :: 0 <= i < |r| ==> r[i] == CropRefFor(entry, reqs[i], i)
  {
    seq(|reqs|, i requires 0 <= i < |reqs| => CropRefFor(entry, reqs[i], i))
  }

  function ResolvedOverview(job: Job, entry: Entry): string {
    if !WantsType(job.evidenceTypes, "overview") then ""
    else if job.overviewRef != "" then job.overviewRef else entry.meta.overviewRef
  }

  function ResolvedCrops(job: Job, entry: Entry): seq<string> {
    if WantsType(job.evidenceTypes, "crop") then CropRefs(entry, RequestedObjects(job, entry)) else []
  }

  // ----- what these mean ---------------------------------------------------------------------------

  /** Object `i` of the frame is the first one that a nonempty key or a nonnegative id of the request names. */
  ghost predicate FirstNamed(objects: seq<ObjectSnapshot>, req: RequestObject, i: nat) {
    && i < |objects| && NamedBy(objects[i], req)
    && forall k :: 0 <= k < i ==> !NamedBy(objects[k], req)
  }

  ghost predicate NamedBy(o: ObjectSnapshot, req: RequestObject) {
    || (o.objectKey == req.objectKey && o.objectKey != "")
    || (o.instanceKey == req.instanceKey && o.instanceKey != "")
    || o.objectId == req.objectId
  }

  lemma {:induction false} FindObjectMeans(objects: seq<ObjectSnapshot>, req: RequestObject)
    ensures
      match FindObject(objects, req)
      case Some(o) => exists i: nat :: FirstNamed(objects, req, i) && objects[i] == o
      case None => forall k :: 0 <= k < |objects| ==> !NamedBy(objects[k], req)
  {
    if objects != [] {
      assert Identifies(objects[0], req) <==> NamedBy(objects[0], req);
      if NamedBy(objects[0], req) {
        assert FirstNamed(objects, req, 0);
      } else {
        FindObjectMeans(objects[1..], req);
        if FindObject(objects[1..], req).Some? {
          var i: nat :| FirstNamed(objects[1..], req, i) && objects[1..][i] == FindObject(objects[1..], req).value;
          forall k | 0 <= k < i + 1 ensures !NamedBy(objects[k], req) {
            assert k > 0 ==> objects[k] == objects[1..][k - 1];
          }
          assert FirstNamed(objects, req, i + 1);
        } else {
          forall k | 0 <= k < |objects| ensures !NamedBy(objects[k], req) {
            assert k > 0 ==> objects[k] == objects[1..][k - 1];
          }
        }
      }
    }
  }

  /** The ref for one requested object: the one it names, else that of the object it identifies, else a default. */
  ghost predicate ChosenRef(entry: Entry, req: RequestObject, index: nat, ref: string) {
    if req.cropRef != "" then ref == req.cropRef
    else if i: nat :| FirstNamed(entry.objects, req, i) && entry.objects[i].cropRef != "" then
      ref == entry.objects[i].cropRef
    else ref == DefaultCropRef(entry.meta, index)
  }

  lemma CropRefForMeans(entry: Entry, req: RequestObject, index: nat)
    ensures ChosenRef(entry, req, index, CropRefFor(entry, req, index))
  {
    hide NamedBy, Identifies, DefaultCropRef;
    FindObjectMeans(entry.objects, req);
    forall i: nat, j: nat | FirstNamed(entry.objects, req, i) && FirstNamed(entry.objects, req, j) ensures i == j {
    }
  }

  /**
   * What a request resolves to on a frame. Without types it asks for the overview only; the overview is the one it
   * names, else the frame's; the crops are one for each object it names, or for each object of the frame if none.
   */
  lemma ResolvedMeans(job: Job, entry: Entry)
    ensures ResolvedOverview(job, entry)
      == if job.evidenceTypes == [] || "overview" in job.evidenceTypes then
           (if job.overviewRef != "" then job.overviewRef else entry.meta.overviewRef)
         else ""
    ensures
      var refs := ResolvedCrops(job, entry);
      if "crop" !in job.evidenceTypes then refs == []
      else if job.objects != [] then
        |refs| == |job.objects| && forall i :: 0 <= i < |refs| ==> ChosenRef(entry, job.objects[i], i, refs[i])
      else
        && |refs| == |entry.objects|
        && forall i :: 0 <= i < |refs| && entry.objects[i].cropRef != "" ==> refs[i] == entry.objects[i].cropRef
  {
    hide ChosenRef, DefaultCropRef, FindObject;
    var refs, reqs := ResolvedCrops(job, entry), RequestedObjects(job, entry);
    assert WantsType([], "overview") && !WantsType([], "crop");
    forall i | 0 <= i < |reqs| ensures ChosenRef(entry, reqs[i], i, CropRefFor(entry, reqs[i], i)) {
      CropRefForMeans(entry, reqs[i], i);
    }
  }

  /** Default names of one camera are told apart by frame, time stamp and position. */
  lemma DefaultCropRefExact(a: Metadata, b: Metadata, i: nat, j: nat)
    requires a.route == b.route
    ensures DefaultCropRef(a, i) == DefaultCropRef(b, j) <==>
      a.frameNum == b.frameNum && a.frameTsMs == b.frameTsMs && i == j
  {
    hide IntText, Sanitize;
    var head := Sanitize(a.route.pipelineId) + "_" + Sanitize(a.route.sourceName) + "_";
    var f, g, t, u := IntText(a.frameNum), IntText(b.frameNum), IntText(a.frameTsMs), IntText(b.frameTsMs);
    var x, y := IntText(i), IntText(j);
    var p, q := "crop_req_" + x + ".jpg", "crop_req_" + y + ".jpg";
    assert DefaultCropRef(a, i) == head + (f + ['_'] + (t + ['_'] + p));
    assert DefaultCropRef(b, j) == head + (g + ['_'] + (u + ['_'] + q));
    if DefaultCropRef(a, i) == DefaultCropRef(b, j) {
      assert f + ['_'] + (t + ['_'] + p) == DefaultCropRef(a, i)[|head|..] == g + ['_'] + (u + ['_'] + q);
      IntTextAvoids(a.frameNum, '_');
      IntTextAvoids(b.frameNum, '_');
      IntTextAvoids(a.frameTsMs, '_');
      IntTextAvoids(b.frameTsMs, '_');
      SplitFirst(f, t + ['_'] + p, g, u + ['_'] + q, '_');
      SplitFirst(t, p, u, q, '_');
      assert x == p[9..|p| - 4] && y == q[9..|q| - 4];
      IntTextInjective(a.frameNum, b.frameNum);
      IntTextInjective(a.frameTsMs, b.frameTsMs);
      IntTextInjective(i, j);
    }
  }

  /** A default name is one path component, whatever the pipeline and the camera are called. */
  lemma DefaultCropRefFlat(meta: Metadata, index: nat)
    ensures DefaultCropRef(meta, index) != "" && '/' !in DefaultCropRef(meta, index)
  {
    hide IntText;
    IntTextAvoids(meta.frameNum, '/');
    IntTextAvoids(meta.frameTsMs, '/');
    IntTextAvoids(index, '/');
    SanitizedFlat(meta.route.pipelineId);
    SanitizedFlat(meta.route.sourceName);
    hide Sanitize;
  }

  /** Letters, digits, '-', '_' and '.' stay, every other character becomes '_'. */
  lemma SanitizedFlat(value: string)
    ensures '/' !in Sanitize(value) && Sanitize(value) != ""
    ensures value != "" ==> |Sanitize(value)| == |value| && forall k :: 0 <= k < |value| ==>
      var c := value[k];
      Sanitize(value)[k]
      == if 'a' <= c <= 'z' || 'A' <= c <= 'Z' || '0' <= c <= '9' || c == '-' || c == '_' || c == '.' then c else '_'
  {
  }

  // ----- what happened during a job ----------------------------------------------------------------

  /** A test that hit, or a mark, of the key at some position from `start` on. */
  ghost predicate Covered(cfg: Ledger.Config, trace: seq<Ledger.Op>, start: nat, key: string) {
    exists i :: start <= i < |trace| && CoversAt(cfg, trace, i, key)
  }

  ghost predicate CoversAt(cfg: Ledger.Config, trace: seq<Ledger.Op>, i: nat, key: string)
    requires i < |trace|
  {
    match trace[i]
    case MarkOp(m) => m.key == key
    case TestOp(k, now) => k == key && Ledger.TestsRecent(cfg, Ledger.Run(cfg, trace[..i]), k, now)
  }

  /** A test of the key that said "not recent", at some position from `start` on. */
  ghost predicate Missed(cfg: Ledger.Config, trace: seq<Ledger.Op>, start: nat, key: string) {
    exists i :: start <= i < |trace| && MissesAt(cfg, trace, i) && trace[i].key == key
  }

  ghost predicate MissesAt(cfg: Ledger.Config, trace: seq<Ledger.Op>, i: nat)
    requires i < |trace|
  {
    trace[i].TestOp? && !Ledger.TestsRecent(cfg, Ledger.Run(cfg, trace[..i]), trace[i].key, trace[i].now)
  }

  ghost predicate AllHit(cfg: Ledger.Config, trace: seq<Ledger.Op>, start: nat) {
    forall i :: start <= i < |trace| ==> !MissesAt(cfg, trace, i)
  }

  lemma MissedGrows(cfg: Ledger.Config, trace: seq<Ledger.Op>, longer: seq<Ledger.Op>, start: nat, key: string)
    requires trace <= longer && Missed(cfg, trace, start, key)
    ensures Missed(cfg, longer, start, key)
  {
    var i :| start <= i < |trace| && MissesAt(cfg, trace, i) && trace[i].key == key;
    assert longer[..i] == trace[..i];
    assert MissesAt(cfg, longer, i);
  }

  lemma AllHitJoined(cfg: Ledger.Config, trace: seq<Ledger.Op>, longer: seq<Ledger.Op>, start: nat)
    requires start <= |trace| && trace <= longer && AllHit(cfg, trace, start) && AllHit(cfg, longer, |trace|)
    ensures AllHit(cfg, longer, start)
  {
    forall i | start <= i < |longer| ensures !MissesAt(cfg, longer, i) {
      if i < |trace| {
        assert longer[..i] == trace[..i];
        assert !MissesAt(cfg, trace, i);
      }
    }
  }

  /** A ref the ledger did not provide: the request does not name it, or its key was tested and missed. */
  ghost predicate Absent(cfg: Ledger.Config, trace: seq<Ledger.Op>, start: nat, job: Job, ref: string) {
    ref == "" || Missed(cfg, trace, start, RefKey(job, ref))
  }

  ghost predicate OverviewAbsent(cfg: Ledger.Config, trace: seq<Ledger.Op>, start: nat, job: Job) {
    WantsType(job.evidenceTypes, "overview") && Absent(cfg, trace, start, job, job.overviewRef)
  }

  ghost predicate CropsAbsent(cfg: Ledger.Config, trace: seq<Ledger.Op>, start: nat, job: Job) {
    && WantsType(job.evidenceTypes, "crop")
    && (job.objects == []
        || exists k :: 0 <= k < |job.objects| && Absent(cfg, trace, start, job, job.objects[k].cropRef))
  }

  /** The ledger did not cover the whole request. */
  ghost predicate NeedsFrame(cfg: Ledger.Config, trace: seq<Ledger.Op>, start: nat, job: Job) {
    OverviewAbsent(cfg, trace, start, job) || CropsAbsent(cfg, trace, start, job)
  }

  lemma AbsentGrows(cfg: Ledger.Config, trace: seq<Ledger.Op>, longer: seq<Ledger.Op>, start: nat, job: Job)
    requires trace <= longer
    ensures OverviewAbsent(cfg, trace, start, job) ==> OverviewAbsent(cfg, longer, start, job)
    ensures CropsAbsent(cfg, trace, start, job) ==> CropsAbsent(cfg, longer, start, job)
  {
    hide RefKey, WantsType, Missed;
    forall ref | Absent(cfg, trace, start, job, ref) ensures Absent(cfg, longer, start, job, ref) {
      if ref != "" {
        MissedGrows(cfg, trace, longer, start, RefKey(job, ref));
      }
    }
  }

  ghost predicate Encoded(trace: seq<Ledger.Op>, start: nat) {
    exists i :: start <= i < |trace| && trace[i].MarkOp?
  }

  lemma CoveredGrows(cfg: Ledger.Config, trace: seq<Ledger.Op>, longer: seq<Ledger.Op>, start: nat, key: string)
    requires trace <= longer && Covered(cfg, trace, start, key)
    ensures Covered(cfg, longer, start, key)
  {
    var i :| start <= i < |trace| && CoversAt(cfg, trace, i, key);
    assert longer[..i] == trace[..i];
    assert CoversAt(cfg, longer, i, key);
  }

  /** Every reported ref was encoded by this job or found in the ledger during it. */
  ghost predicate AllCovered(
    cfg: Ledger.Config, trace: seq<Ledger.Op>, start: nat, job: Job, refs: seq<string>)
  {
    forall k :: 0 <= k < |refs| ==> Covered(cfg, trace, start, RefKey(job, refs[k]))
  }

  lemma AllCoveredGrows(
    cfg: Ledger.Config, trace: seq<Ledger.Op>, longer: seq<Ledger.Op>, start: nat, job: Job, refs: seq<string>)
    requires trace <= longer && AllCovered(cfg, trace, start, job, refs)
    ensures AllCovered(cfg, longer, start, job, refs)
  {
    hide RefKey;
    forall k | 0 <= k < |refs| ensures Covered(cfg, longer, start, RefKey(job, refs[k])) {
      CoveredGrows(cfg, trace, longer, start, RefKey(job, refs[k]));
    }
  }

  ghost function SetOf(refs: seq<string>): set<string> {
    set r | r in refs
  }

  /** The refs of an ok message are exactly the requested ones, resolved against `entry`. */
  ghost predicate Delivers(m: Ready, entry: Entry) {
    && m.overviewRef == ResolvedOverview(m.job, entry)
    && SetOf(m.cropRefs) == SetOf(ResolvedCrops(m.job, entry))
  }

  /** The refs are those of the request itself, whatever the frame. */
  ghost predicate DeliversAnyway(m: Ready) {
    forall entry :: Delivers(m, entry)
  }

  /** What the cache may answer to the job, see resolve. */
  ghost predicate Answered(c: Config, s: State, job: Job, answer: Option<Entry>) {
    IsAnswer(c, s, job.route, job.frameKey, job.frameTsMs, answer)
  }

  /**
   * An ok message: it delivers what some entry resolves the request to, everything in it was encoded
   * or found since `start`, and it says "encoded" exactly when something was encoded since `start`.
   */
  ghost predicate Complete(cfg: Ledger.Config, trace: seq<Ledger.Op>, start: nat, m: Ready) {
    && (exists entry :: Delivers(m, entry))
    && (m.overviewRef != "" ==> Covered(cfg, trace, start, RefKey(m.job, m.overviewRef)))
    && AllCovered(cfg, trace, start, m.job, m.cropRefs)
    && m.encodeReason == if Encoded(trace, start) then "encoded" else "already_encoded"
  }

  function CropRefOf(o: RequestObject): string {
    o.cropRef
  }

  /** The crop refs that the pre-check hands on: all those the request names, if the ledger has them all. */
  ghost function KnownCrops(cfg: Ledger.Config, trace: seq<Ledger.Op>, start: nat, job: Job): seq<string> {
    if WantsType(job.evidenceTypes, "crop") && !CropsAbsent(cfg, trace, start, job) then Map(CropRefOf, job.objects)
    else []
  }

  /**
   * An event composed from a frame: at position `mid`, before anything was encoded, the ledger did not cover
   * the request; the crop refs known by then stand before the resolved ones.
   */
  ghost predicate FromFrame(cfg: Ledger.Config, trace: seq<Ledger.Op>, start: nat, mid: nat, m: Ready, entry: Entry) {
    && start <= mid <= |trace|
    && !Encoded(trace[..mid], start) && NeedsFrame(cfg, trace[..mid], start, m.job)
    && m.overviewRef == ResolvedOverview(m.job, entry)
    && m.cropRefs == KnownCrops(cfg, trace[..mid], start, m.job) + ResolvedCrops(m.job, entry)
  }

  /**
   * What a completion event means, for a job that began at `start` and in which `failed` encode steps
   * failed. When the ledger covers the whole request it is "ok" with the refs the request names, nothing was
   * encoded, and the cache does not matter. Otherwise the cache was asked: without an answer the event is
   * "not_found", and with one it is "error" or "ok" as an encode step failed or none did; an ok event then
   * delivers exactly the requested refs, resolved against that answer, each encoded by this job or found in
   * the ledger.
   */
  ghost predicate Concluded(cfg: Ledger.Config, trace: seq<Ledger.Op>, start: nat, c: Config, s: State,
                            failed: int, m: Ready) {
    match m.status
    case Ok =>
      && failed == 0 && m.failureReason == "" && Complete(cfg, trace, start, m)
      && if NeedsFrame(cfg, trace, start, m.job) then
           exists entry, mid :: Answered(c, s, m.job, Some(entry)) && FromFrame(cfg, trace, start, mid, m, entry)
         else DeliversAnyway(m) && m.cropRefs == KnownCrops(cfg, trace, start, m.job) && !Encoded(trace, start)
    case NotFound =>
      && failed == 0 && NeedsFrame(cfg, trace, start, m.job) && Answered(c, s, m.job, None)
      && m.cropRefs == [] && m.overviewRef == "" && m.failureReason == "frame_not_in_cache"
    case Error =>
      && failed == 1 && NeedsFrame(cfg, trace, start, m.job) && m.cropRefs == []
      && exists entry :: Answered(c, s, m.job, Some(entry)) && PartOverview(m, entry)
  }

  /** An error event names the overview if that succeeded before a crop failed. */
  ghost predicate PartOverview(m: Ready, entry: Entry) {
    m.overviewRef == "" || m.overviewRef == ResolvedOverview(m.job, entry)
  }

  /** Everything an ok event names was written, by this job or an earlier one. */
  ghost predicate OnlyWritten(written: seq<Evidence>, m: Ready) {
    m.status == Ok ==>
      && (m.overviewRef != "" ==> HasFile(written, FileOf(m.job, m.overviewRef)))
      && forall k :: 0 <= k < |m.cropRefs| ==> HasFile(written, FileOf(m.job, m.cropRefs[k]))
  }

  lemma CoveredIsWritten(cfg: Ledger.Config, written: seq<Evidence>, trace: seq<Ledger.Op>, start: nat, e: Evidence)
    requires Recorded(written, trace) && Ledger.Monotone(trace) && Ledger.Disciplined(cfg, trace)
    requires Covered(cfg, trace, start, EvidenceKey(e))
    ensures HasFile(written, e)
  {
    hide EvidenceKey, HasFile, Recorded, Ledger.Monotone, Ledger.Disciplined, Ledger.TestsRecent, Ledger.Run;
    var i :| start <= i < |trace| && CoversAt(cfg, trace, i, EvidenceKey(e));
    if trace[i].MarkOp? {
      MarkedIsWritten(written, trace, i, e);
    } else {
      HitIsWritten(cfg, written, trace, i, e);
    }
  }

  lemma CompleteIsWritten(cfg: Ledger.Config, written: seq<Evidence>, trace: seq<Ledger.Op>, start: nat, m: Ready)
    requires Recorded(written, trace) && Ledger.Monotone(trace) && Ledger.Disciplined(cfg, trace)
    requires m.status == Ok ==> Complete(cfg, trace, start, m)
    ensures OnlyWritten(written, m)
  {
    hide EvidenceKey, HasFile, Recorded, Ledger.Monotone, Ledger.Disciplined, Covered, Delivers, Encoded;
    if m.status == Ok {
      if m.overviewRef != "" {
        CoveredIsWritten(cfg, written, trace, start, FileOf(m.job, m.overviewRef));
      }
      forall k | 0 <= k < |m.cropRefs| ensures HasFile(written, FileOf(m.job, m.cropRefs[k])) {
        assert Covered(cfg, trace, start, RefKey(m.job, m.cropRefs[k]));
        CoveredIsWritten(cfg, written, trace, start, FileOf(m.job, m.cropRefs[k]));
      }
    }
  }

  lemma OnlyWrittenGrows(written: seq<Evidence>, longer: seq<Evidence>, m: Ready)
    requires written <= longer && OnlyWritten(written, m)
    ensures OnlyWritten(longer, m)
  {
    hide HasFile, FileOf;
    forall e | HasFile(written, e) ensures HasFile(longer, e) {
      HasFileGrows(written, longer, e);
    }
  }

  /** The circumstances of one published event: where its job began and ended, what the cache held, what failed. */
  datatype Circumstances = Circumstances(start: nat, end: nat, found: State, failed: int)

  /** Every event of a run is the right one for its circumstances; jobs do not overlap. */
  ghost predicate AllConcluded(cfg: Ledger.Config, trace: seq<Ledger.Op>, c: Config, records: seq<Circumstances>,
                               published: seq<Ready>) {
    && |records| == |published|
    && (forall i :: 0 <= i < |records| ==> ConcludedAt(cfg, trace, c, records[i], published[i]))
    && forall i, j :: 0 <= i < j < |records| ==> records[i].end <= records[j].start
  }

  ghost predicate ConcludedAt(cfg: Ledger.Config, trace: seq<Ledger.Op>, c: Config, r: Circumstances, m: Ready) {
    r.start <= r.end <= |trace| && Concluded(cfg, trace[..r.end], r.start, c, r.found, r.failed, m)
  }

  lemma OneMoreConcluded(cfg: Ledger.Config, trace: seq<Ledger.Op>, longer: seq<Ledger.Op>, c: Config,
                         records: seq<Circumstances>, published: seq<Ready>, found: State, failed: int, m: Ready)
    requires AllConcluded(cfg, trace, c, records, published) && trace <= longer
    requires Concluded(cfg, longer, |trace|, c, found, failed, m)
    ensures AllConcluded(cfg, longer, c, records + [Circumstances(|trace|, |longer|, found, failed)], published + [m])
  {
    hide Concluded;
    var r := Circumstances(|trace|, |longer|, found, failed);
    var all, events := records + [r], published + [m];
    forall i | 0 <= i < |all| ensures ConcludedAt(cfg, longer, c, all[i], events[i]) {
      if i < |records| {
        assert ConcludedAt(cfg, trace, c, records[i], published[i]);
        assert longer[..records[i].end] == trace[..records[i].end];
      } else {
        assert longer[..|longer|] == longer;
      }
    }
    forall i, j | 0 <= i < j < |all| ensures all[i].end <= all[j].start {
      if j == |records| {
        assert ConcludedAt(cfg, trace, c, records[i], published[i]);
      }
    }
  }

  lemma StillConcluded(cfg: Ledger.Config, trace: seq<Ledger.Op>, longer: seq<Ledger.Op>, c: Config,
                       records: seq<Circumstances>, published: seq<Ready>)
    requires AllConcluded(cfg, trace, c, records, published) && trace <= longer
    ensures AllConcluded(cfg, longer, c, records, published)
  {
    hide Concluded;
    forall i | 0 <= i < |records| ensures ConcludedAt(cfg, longer, c, records[i], published[i]) {
      assert ConcludedAt(cfg, trace, c, records[i], published[i]);
      assert longer[..records[i].end] == trace[..records[i].end];
    }
  }

  /** Refs named in the request do not depend on the frame found. */
  lemma ExplicitRefs(job: Job, entry: Entry, refs: seq<string>)
    requires job.objects != [] && |refs| == |job.objects|
    requires forall i :: 0 <= i < |refs| ==> refs[i] == job.objects[i].cropRef && refs[i] != ""
    ensures CropRefs(entry, RequestedObjects(job, entry)) == refs
  {
  }

  lemma EarlyComplete(cfg: Ledger.Config, trace: seq<Ledger.Op>, start: nat, m: Ready)
    requires !Encoded(trace, start) && m.encodeReason == "already_encoded"
    requires if WantsType(m.job.evidenceTypes, "overview") then m.overviewRef == m.job.overviewRef != ""
             else m.overviewRef == ""
    requires m.overviewRef != "" ==> Covered(cfg, trace, start, RefKey(m.job, m.overviewRef))
    requires if WantsType(m.job.evidenceTypes, "crop") then
        && m.job.objects != [] && |m.cropRefs| == |m.job.objects|
        && forall i :: 0 <= i < |m.cropRefs| ==> m.cropRefs[i] == m.job.objects[i].cropRef && m.cropRefs[i] != ""
      else m.cropRefs == []
    requires AllCovered(cfg, trace, start, m.job, m.cropRefs)
    ensures Complete(cfg, trace, start, m) && DeliversAnyway(m)
  {
    forall entry ensures Delivers(m, entry) {
      if WantsType(m.job.evidenceTypes, "crop") {
        ExplicitRefs(m.job, entry, m.cropRefs);
      }
    }
    assert Delivers(m, Entry(Metadata(m.job.route, 0, 0, "", ""), [], 0));
  }

  /**
   * The crop refs of an event composed from a frame are the resolved ones, once or, exactly when the ledger
   * had all crops and only the overview was absent, twice over.
   */
  lemma CropsDoubledIff(cfg: Ledger.Config, trace: seq<Ledger.Op>, start: nat, mid: nat, m: Ready, entry: Entry)
    requires FromFrame(cfg, trace, start, mid, m, entry)
    ensures
      var refs, before := ResolvedCrops(m.job, entry), trace[..mid];
      if WantsType(m.job.evidenceTypes, "crop") && !CropsAbsent(cfg, before, start, m.job) then
        OverviewAbsent(cfg, before, start, m.job) && refs != [] && m.cropRefs == refs + refs
      else m.cropRefs == refs
    ensures SetOf(m.cropRefs) == SetOf(ResolvedCrops(m.job, entry))
  {
    hide WantsType, RefKey, Missed, CropRefs;
    var refs, known := ResolvedCrops(m.job, entry), KnownCrops(cfg, trace[..mid], start, m.job);
    if known != [] {
      NamedWhenPresent(cfg, trace[..mid], start, m.job);
      ExplicitRefs(m.job, entry, known);
    }
    DoubledRefs(known, refs);
  }

  lemma NamedWhenPresent(cfg: Ledger.Config, trace: seq<Ledger.Op>, start: nat, job: Job)
    requires WantsType(job.evidenceTypes, "crop") && !CropsAbsent(cfg, trace, start, job)
    ensures job.objects != [] && forall k :: 0 <= k < |job.objects| ==> job.objects[k].cropRef != ""
  {
    hide WantsType, RefKey, Missed;
    forall k | 0 <= k < |job.objects| ensures job.objects[k].cropRef != "" {
      assert !Absent(cfg, trace, start, job, job.objects[k].cropRef);
    }
  }

  /** The pre-check leaves either nothing or exactly the refs the crop loop appends again. */
  lemma DoubledRefs(already: seq<string>, refs: seq<string>)
    requires already == [] || already == refs
    ensures SetOf(already + refs) == SetOf(refs)
  {
    assert forall r :: r in already + refs <==> r in already || r in refs;
  }

  lemma DeliversOverview(m: Ready, entry: Entry)
    requires Delivers(m, entry)
    ensures m.overviewRef == ResolvedOverview(m.job, entry)
  {
  }

  lemma EncodedSplit(trace: seq<Ledger.Op>, longer: seq<Ledger.Op>, start: nat)
    requires start <= |trace| && trace <= longer
    ensures Encoded(longer, start) <==> Encoded(trace, start) || Encoded(longer, |trace|)
  {
  }

  lemma CoveredSooner(cfg: Ledger.Config, trace: seq<Ledger.Op>, start: nat, later: nat, key: string)
    requires start <= later && Covered(cfg, trace, later, key)
    ensures Covered(cfg, trace, start, key)
  {
  }

  lemma AllCoveredSooner(
    cfg: Ledger.Config, trace: seq<Ledger.Op>, start: nat, later: nat, job: Job, refs: seq<string>)
    requires start <= later && AllCovered(cfg, trace, later, job, refs)
    ensures AllCovered(cfg, trace, start, job, refs)
  {
    hide RefKey;
    forall k | 0 <= k < |refs| ensures Covered(cfg, trace, start, RefKey(job, refs[k])) {
      CoveredSooner(cfg, trace, start, later, RefKey(job, refs[k]));
    }
  }

  /** Refs the pre-check may hand on: an overview if asked for, and either no crops or all requested ones. */
  ghost predicate Known(job: Job, overviewRef: string, cropRefs: seq<string>) {
    && (overviewRef != "" ==> WantsType(job.evidenceTypes, "overview"))
    && (cropRefs == []
        || (WantsType(job.evidenceTypes, "crop") && job.objects != [] && |cropRefs| == |job.objects|
            && forall i :: 0 <= i < |cropRefs| ==> cropRefs[i] == job.objects[i].cropRef && cropRefs[i] != ""))
  }

  class Service {
    const cfg: Ledger.Config
    const readyChannel: string
    const hasProducer: bool
    const cache: Cache?

    var ledger: Ledger.Ledger
    var clock: int
    var queue: seq<Job>
    var current: Option<Job>
    var stop: bool
    /** The thread object holds a thread, running or ended. */
    var joinable: bool
    /** The worker is inside its loop. */
    var running: bool
    var published: seq<Ready>

    ghost var trace: seq<Ledger.Op>
    ghost var enqueued: seq<Job>
    ghost var processed: seq<Job>
    /** Encode steps that failed so far: unusable path, unknown object, or no JPEG written. */
    ghost var failures: nat
    /** Every evidence file written so far. */
    ghost var written: seq<Evidence>
    /** The circumstances of every published event. */
    ghost var records: seq<Circumstances>

    ghost function InHand(): seq<Job>
      reads this
    {
      if current.Some? then [current.value] else []
    }

    predicate Publishes()
      reads this
    {
      cache != null && hasProducer && readyChannel != ""
    }

    /** The ledger is the run of the recorded tests and marks, every mark following its own miss. */
    ghost predicate InRun()
      reads this`ledger, this`trace, this`clock
    {
      && ledger == Ledger.Run(cfg, trace)
      && Ledger.Monotone(trace) && Ledger.Disciplined(cfg, trace)
      && (trace != [] ==> Ledger.TimeOf(trace[|trace| - 1]) <= clock)
    }

    /** Moreover its marks are the files written so far. */
    ghost predicate LedgerValid()
      reads this`ledger, this`trace, this`clock, this`written
    {
      InRun() && Recorded(written, trace)
    }

    ghost predicate Valid()
      reads this
    {
      && LedgerValid()
      && enqueued == processed + InHand() + queue
      && (current.Some? ==> running) && (running ==> joinable)
      && |published| == (if Publishes() then |processed| else 0)
      && (forall i :: 0 <= i < |published| ==> published[i].job == processed[i])
      && (cache != null ==> AllConcluded(cfg, trace, cache.cfg, records, published))
      && (forall i :: 0 <= i < |published| ==> OnlyWritten(written, published[i]))
    }

    constructor (cfg: Ledger.Config, readyChannel: string, hasProducer: bool, cache: Cache?)
      ensures Valid() && this.cfg == cfg && this.cache == cache
      ensures this.readyChannel == readyChannel && this.hasProducer == hasProducer
      ensures queue == [] && !joinable && !running && published == [] && trace == []
    {
      this.cfg, this.readyChannel, this.hasProducer, this.cache := cfg, readyChannel, hasProducer, cache;
      ledger, clock, queue, current := Ledger.EMPTY, 0, [], None;
      stop, joinable, running, published := false, false, false, [];
      trace, enqueued, processed, failures, written, records := [], [], [], 0, [], [];
    }

    // ----- queue and worker, one method per critical section ---------------------------------------

    /**
     * Starts a worker unless the thread object still holds one, even one that has ended. Without an encoder
     * context the new worker ends at once, and only a join makes another start possible.
     */
    method StartWorker(encoderCreated: bool)
      requires Valid()
      modifies this`stop, this`joinable, this`running
      ensures Valid() && joinable
      ensures if old(joinable) then stop == old(stop) && running == old(running) else !stop && running == encoderCreated
    {
      if joinable {
        return;
      }
      stop := false;
      joinable := true;
      running := encoderCreated;
    }

    method RequestStop()
      requires Valid()
      modifies this`stop
      ensures Valid() && stop
    {
      stop := true;
    }

    /** The second half of stop(): the thread is joined, so the worker has left its loop. */
    method JoinWorker()
      requires Valid() && stop && !running
      modifies this`joinable
      ensures Valid() && !joinable && current == None
    {
      joinable := false;
    }

    method EnqueueRequest(job: Job)
      requires Valid()
      modifies this`queue, this`enqueued
      ensures Valid() && queue == old(queue) + [job] && enqueued == old(enqueued) + [job]
    {
      queue := queue + [job];
      enqueued := enqueued + [job];
    }

    /**
     * The critical section at the top of the worker loop, entered once stop is set or a job waits.
     * Leaving the loop means that every job enqueued so far has been processed, in order.
     */
    method TakeJob()
      requires Valid() && running && current == None && (stop || queue != [])
      modifies this`queue, this`current, this`running
      ensures Valid()
      ensures running == !(stop && old(queue) == [])
      ensures running ==> current == Some(old(queue)[0]) && queue == old(queue)[1..]
      ensures !running ==> processed == enqueued && current == None
    {
      hide LedgerValid, AllConcluded, OnlyWritten;
      if stop && queue == [] {
        running := false;
        return;
      }
      current := Some(queue[0]);
      queue := queue[1..];
    }

    /** The body of the loop outside the lock: other threads may have enqueued or stopped meanwhile. */
    method FinishJob()
      requires Valid() && current.Some?
      modifies this`ledger, this`clock, this`trace, this`published, this`current, this`processed, this`failures,
        this`records, this`written, cache
      ensures Valid() && current == None && processed == old(processed) + [old(current).value]
      ensures processed <= enqueued
      ensures !Publishes() ==> published == old(published)
      ensures Publishes() ==>
        |published| == |old(published)| + 1 && old(published) <= published
        && Concluded(cfg, trace, |old(trace)|, cache.cfg, cache.Contents(), failures - old(failures),
                     published[|old(published)|])
    {
      hide LedgerValid, Concluded, AllConcluded, OnlyWritten;
      var job := current.value;
      ProcessJob(job);
      forall i | 0 <= i < |old(published)| ensures OnlyWritten(written, old(published)[i]) {
        OnlyWrittenGrows(old(written), written, old(published)[i]);
      }
      current := None;
      processed := processed + [job];
      if Publishes() {
        ghost var m := published[|old(published)|];
        OneMoreConcluded(cfg, old(trace), trace, cache.cfg, records, old(published), cache.Contents(),
                         failures - old(failures), m);
        records := records + [Circumstances(|old(trace)|, |trace|, cache.Contents(), failures - old(failures))];
        assert published == old(published) + [m];
      } else if cache != null {
        StillConcluded(cfg, old(trace), trace, cache.cfg, records, published);
      }
    }

    // ----- ledger and clock --------------------------------------------------------------------------

    method ReadClock() returns (now: int)
      modifies this`clock
      ensures now == clock && clock >= old(clock)
    {
      var elapsed: int := *;
      if elapsed > 0 {
        clock := clock + elapsed;
      }
      now := clock;
    }

    method WasRecentlyEncoded(job: Job, ref: string) returns (recent: bool)
      requires LedgerValid()
      modifies this`ledger, this`clock, this`trace
      ensures LedgerValid() && old(trace) <= trace
      ensures ref == "" ==> !recent && trace == old(trace)
      ensures ref != "" ==>
        && |trace| == |old(trace)| + 1 && trace[|old(trace)|].TestOp?
        && trace[|old(trace)|].key == RefKey(job, ref)
        && recent == Ledger.TestsRecent(cfg, old(ledger), RefKey(job, ref), trace[|old(trace)|].now)
    {
      hide RefKey, Ledger.Prune, Ledger.Disciplined, Ledger.Monotone, Ledger.Run, Recorded;
      if ref == "" {
        return false;
      }
      var key := RefKey(job, ref);
      if cfg.ttl <= 0 {
        Ledger.PushOp(cfg, trace, Ledger.TestOp(key, clock));
        RecordedTest(written, trace, Ledger.TestOp(key, clock));
        trace := trace + [Ledger.TestOp(key, clock)];
        return false;
      }
      var now := ReadClock();
      Ledger.PushOp(cfg, trace, Ledger.TestOp(key, now));
      RecordedTest(written, trace, Ledger.TestOp(key, now));
      trace := trace + [Ledger.TestOp(key, now)];
      ledger := Ledger.Prune(cfg, ledger, now);
      recent := key in ledger.refs && now - ledger.refs[key] <= cfg.ttl;
    }

    /** Only called after its file was written, directly after a miss for the same ref. */
    method MarkRecentlyEncoded(job: Job, ref: string)
      requires InRun() && ref != ""
      requires written != [] && written[|written| - 1] == FileOf(job, ref)
      requires Recorded(written[..|written| - 1], trace)
      requires trace != [] && trace[|trace| - 1].TestOp? && trace[|trace| - 1].key == RefKey(job, ref)
      requires !Ledger.TestsRecent(cfg, Ledger.Run(cfg, trace[..|trace| - 1]), RefKey(job, ref), trace[|trace| - 1].now)
      modifies this`ledger, this`clock, this`trace
      ensures LedgerValid() && old(trace) <= trace && |trace| == |old(trace)| + 1
      ensures trace[|trace| - 1].MarkOp? && trace[|trace| - 1].mark.key == RefKey(job, ref)
    {
      hide EvidenceKey, Ledger.Prune, Ledger.TestsRecent, Ledger.Disciplined, Ledger.Monotone, Ledger.Run, Recorded;
      var key := RefKey(job, ref);
      ghost var before := written[..|written| - 1];
      assert written == before + [FileOf(job, ref)];
      if cfg.ttl <= 0 {
        Ledger.PushOp(cfg, trace, Ledger.MarkOp(Ledger.Mark(key, clock)));
        RecordedMark(before, trace, FileOf(job, ref), clock);
        trace := trace + [Ledger.MarkOp(Ledger.Mark(key, clock))];
        return;
      }
      var now := ReadClock();
      Ledger.PushOp(cfg, trace, Ledger.MarkOp(Ledger.Mark(key, now)));
      RecordedMark(before, trace, FileOf(job, ref), now);
      trace := trace + [Ledger.MarkOp(Ledger.Mark(key, now))];
      var pruned := Ledger.Prune(cfg, ledger, now);
      var order := if key in pruned.refs then pruned.order else pruned.order + [key];
      ledger := Ledger.Prune(cfg, Ledger.Ledger(pruned.refs[key := now], order), now);
    }

    // ----- processing one job ------------------------------------------------------------------------

    /** An empty ref is rejected; everything else depends on the file system. */
    method ResolveOutputPath(ref: string) returns (ok: bool)
      modifies this`failures
      ensures ok ==> ref != ""
      ensures failures == old(failures) + if ok then 0 else 1
    {
      ok := *;
      if ref == "" {
        ok := false;
      }
      failures := failures + if ok then 0 else 1;
    }

    /** Writing the file either succeeds or counts as a failed step. */
    method WriteJpeg(ghost file: Evidence) returns (done: bool)
      modifies this`failures, this`written
      ensures failures == old(failures) + if done then 0 else 1
      ensures written == if done then old(written) + [file] else old(written)
    {
      done := *;
      if done {
        written := written + [file];
      }
      failures := failures + if done then 0 else 1;
    }

    method EncodeOverview(entry: Entry, job: Job) returns (ok: bool, outRef: string, encoded: bool)
      requires LedgerValid()
      modifies this`ledger, this`clock, this`trace, this`failures, this`written
      ensures LedgerValid() && old(trace) <= trace && old(written) <= written
      ensures failures == old(failures) + if ok then 0 else 1
      ensures ok ==>
        && outRef == (if job.overviewRef != "" then job.overviewRef else entry.meta.overviewRef)
        && Covered(cfg, trace, |old(trace)|, RefKey(job, outRef))
        && encoded == Encoded(trace, |old(trace)|)
      ensures !ok ==> outRef == "" && !encoded
    {
      hide RefKey, Recorded, Ledger.Run, Ledger.TestsRecent;
      ok, outRef, encoded := false, "", false;
      var ref := if job.overviewRef != "" then job.overviewRef else entry.meta.overviewRef;
      var pathOk := ResolveOutputPath(ref);
      if !pathOk {
        return;
      }
      var recent := WasRecentlyEncoded(job, ref);
      assert trace[..|old(trace)|] == old(trace);
      if recent {
        assert CoversAt(cfg, trace, |old(trace)|, RefKey(job, ref));
        return true, ref, false;
      }
      var jpegWritten := WriteJpeg(FileOf(job, ref));
      if !jpegWritten {
        return;
      }
      MarkRecentlyEncoded(job, ref);
      assert CoversAt(cfg, trace, |trace| - 1, RefKey(job, ref));
      return true, ref, true;
    }

    /** Appends to `already`, which may hold the refs the pre-check collected. */
    method EncodeCrops(entry: Entry, job: Job, already: seq<string>)
      returns (ok: bool, outRefs: seq<string>, encoded: bool)
      requires LedgerValid()
      modifies this`ledger, this`clock, this`trace, this`failures, this`written
      ensures LedgerValid() && old(trace) <= trace && old(written) <= written
      ensures failures == old(failures) + if ok then 0 else 1
      ensures ok ==>
        && outRefs == already + CropRefs(entry, RequestedObjects(job, entry))
        && AllCovered(cfg, trace, |old(trace)|, job, CropRefs(entry, RequestedObjects(job, entry)))
        && encoded == Encoded(trace, |old(trace)|)
    {
      hide RefKey, Recorded, Ledger.Run, Ledger.TestsRecent, DefaultCropRef;
      var reqs := RequestedObjects(job, entry);
      ghost var refs := CropRefs(entry, reqs);
      outRefs, encoded := already, false;
      for i := 0 to |reqs|
        invariant LedgerValid() && old(trace) <= trace && old(written) <= written
        invariant outRefs == already + refs[..i] && failures == old(failures)
        invariant AllCovered(cfg, trace, |old(trace)|, job, refs[..i])
        invariant encoded == Encoded(trace, |old(trace)|)
      {
        ghost var before := trace;
        var done, failed, wrote := EncodeCrop(entry, job, reqs[i], i);
        AllCoveredGrows(cfg, before, trace, |old(trace)|, job, refs[..i]);
        if failed {
          return false, outRefs, encoded;
        }
        assert refs[..i + 1] == refs[..i] + [done];
        outRefs := outRefs + [done];
        encoded := encoded || wrote;
        assert Covered(cfg, trace, |old(trace)|, RefKey(job, done));
        assert Encoded(trace, |old(trace)|) == (Encoded(before, |old(trace)|) || Encoded(trace, |before|));
      }
      ok := true;
      assert refs[..|reqs|] == refs;
    }

    /** One round of the crop loop: ref choice, two ledger tests, path, encode, mark. */
    method EncodeCrop(entry: Entry, job: Job, req: RequestObject, index: nat)
      returns (ref: string, failed: bool, wrote: bool)
      requires LedgerValid()
      modifies this`ledger, this`clock, this`trace, this`failures, this`written
      ensures LedgerValid() && old(trace) <= trace && old(written) <= written
      ensures failures == old(failures) + if failed then 1 else 0
      ensures wrote == Encoded(trace, |old(trace)|)
      ensures !failed ==>
        ref == CropRefFor(entry, req, index) && Covered(cfg, trace, |old(trace)|, RefKey(job, ref))
    {
      hide RefKey, Recorded, Ledger.Run, Ledger.TestsRecent, DefaultCropRef, Ledger.Disciplined, Ledger.Monotone,
        FindObject, FileOf;
      ref, failed, wrote := req.cropRef, false, false;
      if ref != "" {
        var known := WasRecentlyEncoded(job, ref);
        assert trace[..|old(trace)|] == old(trace);
        if known {
          assert CoversAt(cfg, trace, |old(trace)|, RefKey(job, ref));
          return;
        }
      }
      var found := FindObject(entry.objects, req);
      if found == None && !req.hasBbox {
        failed, failures := true, failures + 1;
        return;
      }
      if ref == "" && found.Some? && found.value.cropRef != "" {
        ref := found.value.cropRef;
      }
      if ref == "" {
        ref := DefaultCropRef(entry.meta, index);
      }
      var pathOk := ResolveOutputPath(ref);
      if !pathOk {
        failed := true;
        return;
      }
      ghost var tested := trace;
      var recent := WasRecentlyEncoded(job, ref);
      assert trace[..|tested|] == tested;
      if recent {
        assert CoversAt(cfg, trace, |tested|, RefKey(job, ref));
        return;
      }
      var jpegWritten := WriteJpeg(FileOf(job, ref));
      if !jpegWritten {
        failed := true;
        return;
      }
      MarkRecentlyEncoded(job, ref);
      assert CoversAt(cfg, trace, |trace| - 1, RefKey(job, ref));
      wrote := true;
    }

    method PublishReady(m: Ready)
      modifies this`published
      ensures published == if hasProducer && readyChannel != "" then old(published) + [m] else old(published)
    {
      if !hasProducer || readyChannel == "" {
        return;
      }
      published := published + [m];
    }

    /** Do all requested crops already exist? Collects their refs, or none. */
    method PreCheckCrops(job: Job) returns (all: bool, refs: seq<string>)
      requires LedgerValid()
      modifies this`ledger, this`clock, this`trace
      ensures LedgerValid() && old(trace) <= trace && !Encoded(trace, |old(trace)|)
      ensures !all ==>
        && refs == []
        && exists k :: 0 <= k < |job.objects| && Absent(cfg, trace, |old(trace)|, job, job.objects[k].cropRef)
      ensures all ==>
        && AllHit(cfg, trace, |old(trace)|)
        && |refs| == |job.objects|
        && (forall i :: 0 <= i < |refs| ==> refs[i] == job.objects[i].cropRef && refs[i] != "")
        && AllCovered(cfg, trace, |old(trace)|, job, refs)
    {
      hide RefKey, Recorded, Ledger.Run, Ledger.TestsRecent;
      refs := [];
      for i := 0 to |job.objects|
        invariant LedgerValid() && old(trace) <= trace && !Encoded(trace, |old(trace)|)
        invariant |refs| == i && AllHit(cfg, trace, |old(trace)|)
        invariant forall k :: 0 <= k < i ==> refs[k] == job.objects[k].cropRef && refs[k] != ""
        invariant AllCovered(cfg, trace, |old(trace)|, job, refs)
      {
        var ref := job.objects[i].cropRef;
        if ref == "" {
          assert Absent(cfg, trace, |old(trace)|, job, job.objects[i].cropRef);
          return false, [];
        }
        ghost var before := trace;
        var known := WasRecentlyEncoded(job, ref);
        assert trace[..|before|] == before;
        if !known {
          assert MissesAt(cfg, trace, |before|);
          assert Absent(cfg, trace, |old(trace)|, job, job.objects[i].cropRef);
          return false, [];
        }
        AllHitJoined(cfg, before, trace, |old(trace)|);
        AllCoveredGrows(cfg, before, trace, |old(trace)|, job, refs);
        assert CoversAt(cfg, trace, |before|, RefKey(job, ref));
        refs := refs + [ref];
      }
      all := true;
    }

    /**
     * Processes one job. Exactly one completion event is published when cache, producer and channel are
     * present, and it is the right one for what the ledger, the cache and the encoder said.
     */
    method ProcessJob(job: Job)
      requires LedgerValid()
      modifies this`ledger, this`clock, this`trace, this`published, this`failures, this`written, cache
      ensures LedgerValid() && old(trace) <= trace && old(written) <= written
      ensures !Publishes() ==> published == old(published)
      ensures Publishes() ==>
        |published| == |old(published)| + 1 && old(published) <= published
        && published[|old(published)|].job == job
        && Concluded(cfg, trace, |old(trace)|, cache.cfg, cache.Contents(), failures - old(failures),
                     published[|old(published)|])
      ensures Publishes() ==> OnlyWritten(written, published[|old(published)|])
    {
      hide LedgerValid, Concluded, OnlyWritten;
      if cache == null || !hasProducer {
        return;
      }
      var m := Conclude(job);
      PublishReady(m);
    }

    /** Everything process_job does up to publishing `m`. */
    method Conclude(job: Job) returns (m: Ready)
      requires LedgerValid() && cache != null
      modifies this`ledger, this`clock, this`trace, this`failures, this`written, cache
      ensures LedgerValid() && old(trace) <= trace && old(written) <= written && m.job == job
      ensures Concluded(cfg, trace, |old(trace)|, cache.cfg, cache.Contents(), failures - old(failures), m)
      ensures OnlyWritten(written, m)
    {
      hide RefKey, Recorded, Ledger.Run, Ledger.TestsRecent, Ledger.Disciplined, Ledger.Monotone, Covered, Encoded,
        AllCovered, Complete, CropRefs, Prune, IsAnswer, Known, WantsType, Delivers, DeliversAnyway;
      ghost var start := |trace|;
      var done, overviewRef, cropRefs := PreCheck(job);
      ghost var checked := trace;
      if done {
        m := Ready(job, Ok, overviewRef, cropRefs, "", "already_encoded");
        CompleteIsWritten(cfg, written, trace, start, m);
        return;
      }
      var now := ReadClock();
      var answer := cache.Resolve(job.route, job.frameKey, job.frameTsMs, now);
      if answer == None {
        assert Answered(cache.cfg, cache.Contents(), job, None);
        return Ready(job, NotFound, "", [], "frame_not_in_cache", "");
      }
      assert Answered(cache.cfg, cache.Contents(), job, Some(answer.value));
      m := Materialize(job, answer.value, overviewRef, cropRefs, start);
      assert trace[..|checked|] == checked;
      AbsentGrows(cfg, checked, trace, start, job);
      CompleteIsWritten(cfg, written, trace, start, m);
      if m.status == Ok {
        DeliversOverview(m, answer.value);
        assert FromFrame(cfg, trace, start, |checked|, m, answer.value);
      }
    }

    /** Refs already in the ledger; when that is everything asked for, the job is complete without a frame. */
    method PreCheck(job: Job) returns (done: bool, overviewRef: string, cropRefs: seq<string>)
      requires LedgerValid()
      modifies this`ledger, this`clock, this`trace
      ensures LedgerValid() && old(trace) <= trace && !Encoded(trace, |old(trace)|)
      ensures done <==> !NeedsFrame(cfg, trace, |old(trace)|, job)
      ensures done ==>
        var m := Ready(job, Ok, overviewRef, cropRefs, "", "already_encoded");
        Complete(cfg, trace, |old(trace)|, m) && DeliversAnyway(m)
      ensures cropRefs == KnownCrops(cfg, trace, |old(trace)|, job)
      ensures Known(job, overviewRef, cropRefs) && AllCovered(cfg, trace, |old(trace)|, job, cropRefs)
    {
      hide RefKey, Recorded, Ledger.Run, Ledger.TestsRecent, Ledger.Disciplined, Ledger.Monotone, Covered, Encoded,
        AllCovered, Complete, DeliversAnyway;
      ghost var start := |trace|;
      var overviewDone;
      overviewDone, overviewRef := PreCheckOverview(job);
      ghost var checked := trace;

      var needsCrops := WantsType(job.evidenceTypes, "crop");
      var cropsDone := !needsCrops;
      cropRefs := [];
      if needsCrops && job.objects != [] {
        cropsDone, cropRefs := PreCheckCrops(job);
      }
      PreChecksKept(cfg, checked, trace, start, job, overviewRef, cropRefs);
      assert CropsChecked(cfg, trace, |checked|, job, cropsDone, cropRefs);
      PreCheckExact(cfg, checked, trace, start, job, cropsDone, cropRefs);
      done := overviewDone && cropsDone;
      if done {
        EarlyComplete(cfg, trace, start, Ready(job, Ok, overviewRef, cropRefs, "", "already_encoded"));
      }
    }

    method PreCheckOverview(job: Job) returns (done: bool, ref: string)
      requires LedgerValid()
      modifies this`ledger, this`clock, this`trace
      ensures LedgerValid() && old(trace) <= trace && !Encoded(trace, |old(trace)|)
      ensures if done && WantsType(job.evidenceTypes, "overview") then ref == job.overviewRef != "" else ref == ""
      ensures done <==> !OverviewAbsent(cfg, trace, |old(trace)|, job)
      ensures ref != "" ==> Covered(cfg, trace, |old(trace)|, RefKey(job, ref))
    {
      hide RefKey, Recorded, Ledger.Run, Ledger.TestsRecent, Ledger.Disciplined, Ledger.Monotone;
      var needsOverview := WantsType(job.evidenceTypes, "overview");
      done, ref := !needsOverview, "";
      if needsOverview && job.overviewRef != "" {
        var known := WasRecentlyEncoded(job, job.overviewRef);
        assert trace[..|old(trace)|] == old(trace);
        if known {
          assert CoversAt(cfg, trace, |old(trace)|, RefKey(job, job.overviewRef));
          done, ref := true, job.overviewRef;
        } else {
          assert MissesAt(cfg, trace, |old(trace)|);
        }
      }
    }

    /** Encodes what is asked for from the frame found and composes the completion event. */
    method Materialize(job: Job, entry: Entry, knownOverview: string, knownCrops: seq<string>, ghost start: nat)
      returns (message: Ready)
      requires LedgerValid() && start <= |trace| && !Encoded(trace, start)
      requires Known(job, knownOverview, knownCrops)
      requires AllCovered(cfg, trace, start, job, knownCrops)
      modifies this`ledger, this`clock, this`trace, this`failures, this`written
      ensures LedgerValid() && old(trace) <= trace && old(written) <= written && message.job == job
      ensures failures == old(failures) + if message.status == Ok then 0 else 1
      ensures if message.status == Ok then
                && Complete(cfg, trace, start, message) && Delivers(message, entry) && message.failureReason == ""
                && message.cropRefs == knownCrops + ResolvedCrops(job, entry)
              else message.status == Error && message.cropRefs == [] && PartOverview(message, entry)
    {
      hide RefKey, Recorded, Ledger.Run, Ledger.TestsRecent, Ledger.Disciplined, Ledger.Monotone, Covered, Encoded,
        AllCovered, CropRefs;
      var overviewRef, cropRefs := knownOverview, knownCrops;
      var overviewEncoded, cropsEncoded := false, false;
      ghost var t0 := trace;
      if WantsType(job.evidenceTypes, "overview") {
        var ok;
        ok, overviewRef, overviewEncoded := EncodeOverview(entry, job);
        if !ok {
          return Ready(job, Error, "", [], "overview_encode_failed", "");
        }
        CoveredSooner(cfg, trace, start, |t0|, RefKey(job, overviewRef));
      } else {
        NothingEncoded(trace);
      }
      ghost var t1 := trace;
      EncodedSplit(t0, t1, start);
      AllCoveredGrows(cfg, t0, t1, start, job, knownCrops);
      if WantsType(job.evidenceTypes, "crop") {
        var ok;
        ok, cropRefs, cropsEncoded := EncodeCrops(entry, job, knownCrops);
        if !ok {
          return Ready(job, Error, overviewRef, [], "crop_encode_failed", "");
        }
        ghost var refs := CropRefs(entry, RequestedObjects(job, entry));
        if knownCrops != [] {
          ExplicitRefs(job, entry, knownCrops);
        }
        DoubledRefs(knownCrops, refs);
        AllCoveredSooner(cfg, trace, start, |t1|, job, refs);
        AllCoveredGrows(cfg, t1, trace, start, job, knownCrops);
        AllCoveredBoth(cfg, trace, start, job, knownCrops, refs);
      } else {
        NothingEncoded(trace);
      }
      EncodedSplit(t1, trace, start);
      if overviewRef != "" {
        CoveredGrows(cfg, t1, trace, start, RefKey(job, overviewRef));
      }
      var reason := if !overviewEncoded && !cropsEncoded then "already_encoded" else "encoded";
      message := Ready(job, Ok, overviewRef, cropRefs, "", reason);
      assert Delivers(message, entry);
    }
  }

  lemma NothingEncoded(trace: seq<Ledger.Op>)
    ensures !Encoded(trace, |trace|)
  {
  }

  lemma AllCoveredBoth(
    cfg: Ledger.Config, trace: seq<Ledger.Op>, start: nat, job: Job, a: seq<string>, b: seq<string>)
    requires AllCovered(cfg, trace, start, job, a) && AllCovered(cfg, trace, start, job, b)
    ensures AllCovered(cfg, trace, start, job, a + b)
  {
    hide RefKey, Covered;
  }

  lemma NoHitAfterMiss(cfg: Ledger.Config, trace: seq<Ledger.Op>, i: nat, j: nat)
    requires i < j < |trace| && !Encoded(trace, i) && Ledger.Monotone(trace)
    requires MissesAt(cfg, trace, i)
    ensures !CoversAt(cfg, trace, j, trace[i].key)
  {
    hide Ledger.TestsRecent, Ledger.Run;
    if trace[j].TestOp? && trace[j].key == trace[i].key {
      Ledger.MissStays(cfg, trace, i, j);
    }
  }

  /** What the second half of the pre-check found, from position `checked` on. */
  ghost predicate CropsChecked(cfg: Ledger.Config, trace: seq<Ledger.Op>, checked: nat, job: Job, all: bool,
                               refs: seq<string>) {
    if WantsType(job.evidenceTypes, "crop") && job.objects != [] then
      if all then AllHit(cfg, trace, checked) && AllCovered(cfg, trace, checked, job, refs)
                  && refs == Map(CropRefOf, job.objects) && "" !in refs
      else
        refs == [] && exists k :: 0 <= k < |job.objects| && Absent(cfg, trace, checked, job, job.objects[k].cropRef)
    else |trace| == checked && refs == [] && (all <==> !WantsType(job.evidenceTypes, "crop"))
  }

  /** The two halves of the pre-check succeed exactly when the ledger covers the request. */
  lemma PreCheckExact(cfg: Ledger.Config, checked: seq<Ledger.Op>, trace: seq<Ledger.Op>, start: nat, job: Job,
                      cropsDone: bool, cropRefs: seq<string>)
    requires start <= |checked| && checked <= trace && !Encoded(trace, start) && Ledger.Monotone(trace)
    requires CropsChecked(cfg, trace, |checked|, job, cropsDone, cropRefs)
    ensures CropsAbsent(cfg, trace, start, job) <==> !cropsDone
    ensures !OverviewAbsent(cfg, checked, start, job) && cropsDone <==> !NeedsFrame(cfg, trace, start, job)
    ensures cropRefs == KnownCrops(cfg, trace, start, job)
  {
    hide RefKey, WantsType, MissesAt, CoversAt, Encoded, Ledger.Monotone;
    AbsentGrows(cfg, checked, trace, start, job);
    if !cropsDone {
      AbsentSooner(cfg, trace, start, |checked|, job);
    } else {
      if WantsType(job.evidenceTypes, "crop") {
        forall k | 0 <= k < |job.objects| ensures !Absent(cfg, trace, start, job, job.objects[k].cropRef) {
          assert cropRefs[k] == job.objects[k].cropRef;
          HitNeverMissed(cfg, trace, start, |checked|, RefKey(job, cropRefs[k]));
        }
      }
      NoLaterMiss(cfg, checked, trace, start, RefKey(job, job.overviewRef));
    }
  }

  lemma AbsentSooner(cfg: Ledger.Config, trace: seq<Ledger.Op>, start: nat, later: nat, job: Job)
    requires start <= later
    requires WantsType(job.evidenceTypes, "crop")
    requires job.objects == []
          || exists k :: 0 <= k < |job.objects| && Absent(cfg, trace, later, job, job.objects[k].cropRef)
    ensures CropsAbsent(cfg, trace, start, job)
  {
    hide RefKey, WantsType, MissesAt;
    if job.objects != [] {
      var k :| 0 <= k < |job.objects| && Absent(cfg, trace, later, job, job.objects[k].cropRef);
      assert Absent(cfg, trace, start, job, job.objects[k].cropRef);
    }
  }

  lemma HitNeverMissed(cfg: Ledger.Config, trace: seq<Ledger.Op>, start: nat, checked: nat, key: string)
    requires start <= checked && !Encoded(trace, start) && Ledger.Monotone(trace)
    requires AllHit(cfg, trace, checked) && Covered(cfg, trace, checked, key)
    ensures !Missed(cfg, trace, start, key)
  {
    hide MissesAt, CoversAt, Ledger.Monotone;
    if i :| start <= i < |trace| && MissesAt(cfg, trace, i) && trace[i].key == key {
      var j :| checked <= j < |trace| && CoversAt(cfg, trace, j, key);
      NoHitAfterMiss(cfg, trace, i, j);
    }
  }

  lemma NoLaterMiss(cfg: Ledger.Config, checked: seq<Ledger.Op>, trace: seq<Ledger.Op>, start: nat, key: string)
    requires checked <= trace && (|trace| == |checked| || AllHit(cfg, trace, |checked|))
    ensures Missed(cfg, trace, start, key) ==> Missed(cfg, checked, start, key)
  {
    if i :| start <= i < |trace| && MissesAt(cfg, trace, i) && trace[i].key == key {
      assert i < |checked| && trace[..i] == checked[..i];
      assert MissesAt(cfg, checked, i);
    }
  }

  lemma PreChecksKept(cfg: Ledger.Config, checked: seq<Ledger.Op>, trace: seq<Ledger.Op>, start: nat,
                      job: Job, overviewRef: string, cropRefs: seq<string>)
    requires start <= |checked| && checked <= trace
    requires !Encoded(checked, start) && (trace == checked || !Encoded(trace, |checked|))
    requires overviewRef != "" ==> Covered(cfg, checked, start, RefKey(job, overviewRef))
    requires cropRefs == [] || AllCovered(cfg, trace, |checked|, job, cropRefs)
    ensures !Encoded(trace, start) && AllCovered(cfg, trace, start, job, cropRefs)
    ensures overviewRef != "" ==> Covered(cfg, trace, start, RefKey(job, overviewRef))
  {
    hide RefKey, Covered;
    EncodedSplit(checked, trace, start);
    if overviewRef != "" {
      CoveredGrows(cfg, checked, trace, start, RefKey(job, overviewRef));
    }
    if cropRefs != [] {
      AllCoveredSooner(cfg, trace, start, |checked|, job, cropRefs);
    }
  }
}
