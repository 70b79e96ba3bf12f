/** When a source's frame is published: change reasons, burst guard and heartbeat (frame_events_probe_handler.cpp). */
module EmitPolicy {
  import opened TextOrder
  import opened Boxes
  import opened FrameSignature
  import opened LabelVote

  datatype Reason = FirstFrame | ObjectSetChange | LabelChange | ParentChange | MotionChange | Heartbeat

  datatype Config = Config(
    emitOnFirstFrame: bool, emitOnObjectSetChange: bool, emitOnLabelChange: bool, emitOnParentChange: bool,
    emitOnMotionChange: bool, heartbeatMs: int, minGapMs: int, motionIou: real, centerShiftRatio: real,
    voteWindow: int)

  /** The last emitted view of one object. */
  datatype Emitted = Emitted(objectType: string, labelSignature: string, classId: int, parentId: int, box: Box)

  datatype SourceState = SourceState(
    lastEmitMs: int, hadDetection: bool, objects: map<nat, Emitted>, votes: map<nat, VoteState>,
    lastSignature: string)

  const FRESH: SourceState := SourceState(0, false, map[], map[], "")

  // ----- change detection ----------------------------------------------------------------------

  function Square(x: real): real {
    x * x
  }

  /** Center displacement relative to the previous diagonal reaches the ratio; both sides are squared. */
  predicate CenterShifted(previous: Box, current: Box, ratio: real) {
    var dx := (current.left + current.width / 2.0) - (previous.left + previous.width / 2.0);
    var dy := (current.top + current.height / 2.0) - (previous.top + previous.height / 2.0);
    var diag := Square(previous.width) + Square(previous.height);
    diag > 0.0 && (ratio <= 0.0 || Square(dx) + Square(dy) >= Square(ratio) * diag)
  }

  predicate Moved(cfg: Config, previous: Box, current: Box) {
    ProbeIou(previous, current) < cfg.motionIou || CenterShifted(previous, current, cfg.centerShiftRatio)
  }

  /**
   * The center shift is the distance of the centers over the previous diagonal, whatever square roots are taken for
   * the two lengths.
   */
  lemma CenterShiftIsDistance(previous: Box, current: Box, ratio: real, distance: real, diagonal: real)
    requires distance >= 0.0 && diagonal > 0.0
    requires Square(diagonal) == Square(previous.width) + Square(previous.height)
    requires
      var dx := (current.left + current.width / 2.0) - (previous.left + previous.width / 2.0);
      var dy := (current.top + current.height / 2.0) - (previous.top + previous.height / 2.0);
      Square(distance) == Square(dx) + Square(dy)
    ensures CenterShifted(previous, current, ratio) <==> distance / diagonal >= ratio
  {
    var q, length := distance / diagonal, Square(previous.width) + Square(previous.height);
    assert length == Square(diagonal) && length > 0.0 by {
      SquarePositive(diagonal);
    }
    assert distance == q * diagonal && q >= 0.0;
    if ratio > 0.0 {
      SquareScales(q, diagonal);
      SquareScales(ratio, diagonal);
      SquareOrder(distance, ratio * diagonal);
      ScaleOrder(q, ratio, diagonal);
      ShiftMeans(previous, current, ratio, distance);
      TimesEqual(Square(ratio), Square(diagonal), Square(previous.width) + Square(previous.height));
    }
  }

  lemma ShiftMeans(previous: Box, current: Box, ratio: real, distance: real)
    requires ratio > 0.0 && Square(previous.width) + Square(previous.height) > 0.0
    requires
      var dx := (current.left + current.width / 2.0) - (previous.left + previous.width / 2.0);
      var dy := (current.top + current.height / 2.0) - (previous.top + previous.height / 2.0);
      Square(distance) == Square(dx) + Square(dy)
    ensures CenterShifted(previous, current, ratio)
      <==> Square(distance) >= Square(ratio) * (Square(previous.width) + Square(previous.height))
  {
    var dx := (current.left + current.width / 2.0) - (previous.left + previous.width / 2.0);
    var dy := (current.top + current.height / 2.0) - (previous.top + previous.height / 2.0);
    var diag := Square(previous.width) + Square(previous.height);
    assert diag > 0.0;
    assert CenterShifted(previous, current, ratio) <==> Square(dx) + Square(dy) >= Square(ratio) * diag;
    assert Square(distance) == Square(dx) + Square(dy);
  }

  lemma TimesEqual(a: real, x: real, y: real)
    requires x == y
    ensures a * x == a * y
  {
  }

  lemma SquarePositive(x: real)
    requires x > 0.0
    ensures Square(x) > 0.0
  {
    PositiveProduct(x, x, Square(x));
  }

  lemma PositiveProduct(x: real, y: real, product: real)
    requires x > 0.0 && y > 0.0 && product == x * y
    ensures product > 0.0
  {
  }

  lemma SquareScales(x: real, d: real)
    ensures Square(x * d) == Square(x) * Square(d)
  {
    assert (x * d) * (x * d) == x * (d * (x * d)) == x * (x * (d * d)) == (x * x) * (d * d);
  }

  lemma ScaleOrder(x: real, y: real, d: real)
    requires d > 0.0
    ensures x * d >= y * d <==> x >= y
  {
    if x < y {
      PositiveProduct(y - x, d, (y - x) * d);
    }
  }

  lemma SquareOrder(x: real, y: real)
    requires x >= 0.0 && y >= 0.0
    ensures Square(x) >= Square(y) <==> x >= y
  {
    if x < y {
      PositiveProduct(y - x, y + x, (y - x) * (y + x));
      assert (y - x) * (y + x) == y * y - x * x;
    } else {
      assert (x - y) * (x + y) == x * x - y * y;
    }
  }

  /** An unmoved box of positive size is no motion, and one that leaves its place entirely always is. */
  lemma MotionExtremes(cfg: Config, a: Box, b: Box)
    requires Proper(a) && Proper(b) && a.width > 0.0 && a.height > 0.0
    ensures cfg.motionIou <= 1.0 && cfg.centerShiftRatio > 0.0 ==> !Moved(cfg, a, a)
    ensures cfg.motionIou > 0.0 && CommonArea(a, b) == 0.0 ==> Moved(cfg, a, b)
  {
    hide ProbeIou, Iou, CommonArea, Square;
    PositiveProduct(a.width, a.height, Area(a));
    IouOneIff(a, a);
    IousAgree(a, a);
    IouIsCommonArea(a, b);
    SquarePositive(a.width);
    SquarePositive(a.height);
    assert Square(0.0) == 0.0 by {
      SquareOfZero();
    }
    if cfg.centerShiftRatio > 0.0 {
      SquarePositive(cfg.centerShiftRatio);
      PositiveProduct(Square(cfg.centerShiftRatio), Square(a.width) + Square(a.height),
                      Square(cfg.centerShiftRatio) * (Square(a.width) + Square(a.height)));
    }
  }

  lemma SquareOfZero()
    ensures Square(0.0) == 0.0
  {
  }

  predicate LabelDiffers(previous: Emitted, o: FrameObject) {
    previous.objectType != o.objectType || previous.classId != o.classId || previous.labelSignature != o.labelSignature
  }

  ghost predicate AnyLabelChange(cfg: Config, memory: map<nat, Emitted>, objects: seq<FrameObject>) {
    cfg.emitOnLabelChange &&
    exists k :: 0 <= k < |objects| && objects[k].objectId in memory
                && LabelDiffers(memory[objects[k].objectId], objects[k])
  }

  ghost predicate AnyParentChange(cfg: Config, memory: map<nat, Emitted>, objects: seq<FrameObject>) {
    cfg.emitOnParentChange &&
    exists k :: 0 <= k < |objects| && objects[k].objectId in memory
                && memory[objects[k].objectId].parentId != objects[k].parentId
  }

  ghost predicate AnyMotion(cfg: Config, memory: map<nat, Emitted>, objects: seq<FrameObject>) {
    cfg.emitOnMotionChange &&
    exists k :: 0 <= k < |objects| && objects[k].objectId in memory
                && Moved(cfg, memory[objects[k].objectId].box, objects[k].box)
  }

  function When(raised: bool, reason: Reason): seq<Reason> {
    if raised then [reason] else []
  }

  /** The reasons other than the heartbeat, in the order they are reported. */
  ghost function Changes(cfg: Config, st: SourceState, objects: seq<FrameObject>): seq<Reason> {
    When(cfg.emitOnFirstFrame && !st.hadDetection, FirstFrame)
    + When(cfg.emitOnObjectSetChange && Signature(objects) != st.lastSignature, ObjectSetChange)
    + When(AnyLabelChange(cfg, st.objects, objects), LabelChange)
    + When(AnyParentChange(cfg, st.objects, objects), ParentChange)
    + When(AnyMotion(cfg, st.objects, objects), MotionChange)
  }

  function Elapsed(st: SourceState, now: int): int {
    if st.lastEmitMs > 0 then now - st.lastEmitMs else 0
  }

  ghost function Reasons(cfg: Config, st: SourceState, objects: seq<FrameObject>, now: int): seq<Reason> {
    var changes := Changes(cfg, st, objects);
    changes + When(changes == [] && Elapsed(st, now) >= cfg.heartbeatMs, Heartbeat)
  }

  predicate Suppressed(cfg: Config, st: SourceState, now: int) {
    st.lastEmitMs > 0 && Elapsed(st, now) < cfg.minGapMs
  }

  ghost predicate Emits(cfg: Config, st: SourceState, objects: seq<FrameObject>, now: int) {
    !Suppressed(cfg, st, now) && Reasons(cfg, st, objects, now) != []
  }

  // ----- one frame of one source ---------------------------------------------------------------

  function ViewOf(o: FrameObject): Emitted {
    Emitted(o.objectType, o.labelSignature, o.classId, o.parentId, o.box)
  }

  function Remember(objects: seq<FrameObject>): map<nat, Emitted> {
    if objects == [] then map[]
    else
      Remember(objects[..|objects| - 1])[objects[|objects| - 1].objectId := ViewOf(objects[|objects| - 1])]
  }

  /** An id is remembered by the last object that carries it. */
  lemma {:induction false} RememberMeans(objects: seq<FrameObject>, k: nat)
    requires k < |objects| && forall i :: k < i < |objects| ==> objects[i].objectId != objects[k].objectId
    ensures objects[k].objectId in Remember(objects) && Remember(objects)[objects[k].objectId] == ViewOf(objects[k])
  {
    if k < |objects| - 1 {
      RememberMeans(objects[..|objects| - 1], k);
    }
  }

  function Reset(st: SourceState): SourceState {
    st.(hadDetection := false, objects := map[], votes := map[], lastSignature := "")
  }

  ghost function Shown(cfg: Config, st: SourceState, objects: seq<FrameObject>): seq<FrameObject> {
    Relabelled(Window(cfg.voteWindow), st.votes, objects)
  }

  ghost function Voted(cfg: Config, st: SourceState, objects: seq<FrameObject>): SourceState {
    st.(votes := VotesAfter(Window(cfg.voteWindow), st.votes, objects))
  }

  function Emit(st: SourceState, shown: seq<FrameObject>, now: int): SourceState {
    st.(lastEmitMs := now, hadDetection := true, lastSignature := Signature(shown), objects := Remember(shown))
  }

  /** Whether the frame is published from state `st`, before its labels are voted on. */
  ghost predicate Publishes(cfg: Config, st: SourceState, objects: seq<FrameObject>, now: int) {
    objects != [] && Emits(cfg, Voted(cfg, st, objects), Shown(cfg, st, objects), now)
  }

  ghost function After(cfg: Config, st: SourceState, objects: seq<FrameObject>, now: int): SourceState {
    if objects == [] then Reset(st)
    else if Publishes(cfg, st, objects, now) then Emit(Voted(cfg, st, objects), Shown(cfg, st, objects), now)
    else Voted(cfg, st, objects)
  }

  /** One processed frame of a source: its raw objects and the clock reading. */
  datatype Frame = Frame(objects: seq<FrameObject>, now: int)

  ghost function Run(cfg: Config, frames: seq<Frame>): SourceState {
    if frames == [] then FRESH
    else
      var last := frames[|frames| - 1];
      After(cfg, Run(cfg, frames[..|frames| - 1]), last.objects, last.now)
  }

  function StateFor(states: map<int, SourceState>, source: int): SourceState {
    if source in states then states[source] else FRESH
  }

  // ----- the handler ---------------------------------------------------------------------------

  class Handler {
    const cfg: Config
    var emitState: map<int, SourceState>
    /** Every frame each source has shown so far. */
    ghost var history: map<int, seq<Frame>>

    ghost predicate Valid()
      reads this
    {
      forall source :: StateFor(emitState, source) == Run(cfg, HistoryOf(source))
    }

    ghost function HistoryOf(source: int): seq<Frame>
      reads this
    {
      if source in history then history[source] else []
    }

    constructor (cfg: Config)
      ensures Valid() && this.cfg == cfg && emitState == map[] && history == map[]
    {
      this.cfg := cfg;
      emitState, history := map[], map[];
    }

    /** Decides one frame; `shown` are its objects with the voted labels. */
    method ShouldEmitMessage(source: int, objects: seq<FrameObject>, now: int)
      returns (emit: bool, reasons: seq<Reason>, shown: seq<FrameObject>)
      requires Valid()
      modifies this
      ensures Valid()
      ensures history == old(history)[source := old(HistoryOf(source)) + [Frame(objects, now)]]
      ensures
        var st := old(StateFor(emitState, source));
        emitState == old(emitState)[source := After(cfg, st, objects, now)]
        && emit == Publishes(cfg, st, objects, now)
        && (objects == [] ==> shown == [])
        && (objects != [] ==> shown == Shown(cfg, st, objects)
                              && reasons == Reasons(cfg, Voted(cfg, st, objects), shown, now))
    {
      hide Publishes, After, Voted, Shown, Reasons, Run;
      var st := StateFor(emitState, source);
      var next;
      next, emit, reasons, shown := DecideFrame(cfg, st, objects, now);
      RunSnoc(cfg, HistoryOf(source), Frame(objects, now));
      history := history[source := HistoryOf(source) + [Frame(objects, now)]];
      emitState := emitState[source := next];
      forall other ensures StateFor(emitState, other) == Run(cfg, HistoryOf(other)) {
        if other != source {
          assert HistoryOf(other) == old(HistoryOf(other));
          assert StateFor(emitState, other) == old(StateFor(emitState, other));
        }
      }
    }
  }

  lemma RunSnoc(cfg: Config, frames: seq<Frame>, f: Frame)
    ensures Run(cfg, frames + [f]) == After(cfg, Run(cfg, frames), f.objects, f.now)
  {
    hide After;
    assert (frames + [f])[..|frames|] == frames;
  }

  /** The body of should_emit_message for the state record of one source. */
  method DecideFrame(cfg: Config, st: SourceState, objects: seq<FrameObject>, now: int)
    returns (next: SourceState, emit: bool, reasons: seq<Reason>, shown: seq<FrameObject>)
    ensures next == After(cfg, st, objects, now) && emit == Publishes(cfg, st, objects, now)
    ensures objects == [] ==> shown == []
    ensures objects != [] ==>
      shown == Shown(cfg, st, objects) && reasons == Reasons(cfg, Voted(cfg, st, objects), shown, now)
  {
    hide Signature, Relabelled, VotesAfter, Remember, Reasons;
    if objects == [] {
      next := ResetSourceState(st);
      return next, false, [], [];
    }
    next := st;
    var votes;
    votes, shown := ApplyLabelMajorityVote(cfg.voteWindow, st.votes, objects);
    next := next.(votes := votes);
    var signature := BuildSignature(shown);
    reasons := CollectReasons(cfg, next, shown, signature, now);
    if next.lastEmitMs > 0 && Elapsed(next, now) < cfg.minGapMs {
      return next, false, reasons, shown;
    }
    if reasons == [] {
      return next, false, reasons, shown;
    }
    next := next.(lastEmitMs := now, hadDetection := true, lastSignature := signature);
    var memory := RememberAll(shown);
    next := next.(objects := memory);
    emit := true;
  }

  method ResetSourceState(st: SourceState) returns (r: SourceState)
    ensures r == Reset(st)
  {
    r := st;
    r := r.(hadDetection := false);
    r := r.(votes := map[]);
    r := r.(objects := map[]);
    r := r.(lastSignature := "");
  }

  method RememberAll(objects: seq<FrameObject>) returns (memory: map<nat, Emitted>)
    ensures memory == Remember(objects)
  {
    memory := map[];
    for i := 0 to |objects|
      invariant memory == Remember(objects[..i])
    {
      assert objects[..i + 1][..i] == objects[..i];
      memory := memory[objects[i].objectId := ViewOf(objects[i])];
    }
    assert objects[..|objects|] == objects;
  }

  method CollectReasons(cfg: Config, st: SourceState, objects: seq<FrameObject>, signature: string, now: int)
    returns (reasons: seq<Reason>)
    requires signature == Signature(objects)
    ensures reasons == Reasons(cfg, st, objects, now)
  {
    hide Signature, AnyLabelChange, AnyParentChange, AnyMotion;
    reasons := [];
    if cfg.emitOnFirstFrame && !st.hadDetection {
      reasons := reasons + [FirstFrame];
    }
    if cfg.emitOnObjectSetChange && signature != st.lastSignature {
      reasons := reasons + [ObjectSetChange];
    }
    assert reasons == When(cfg.emitOnFirstFrame && !st.hadDetection, FirstFrame)
                      + When(cfg.emitOnObjectSetChange && signature != st.lastSignature, ObjectSetChange);
    ghost var opening := reasons;
    var hasLabelChange, hasParentChange, hasMotionChange := CompareObjects(cfg, st.objects, objects);
    if hasLabelChange {
      reasons := reasons + [LabelChange];
    }
    assert reasons == opening + When(hasLabelChange, LabelChange);
    if hasParentChange {
      reasons := reasons + [ParentChange];
    }
    assert reasons == opening + When(hasLabelChange, LabelChange) + When(hasParentChange, ParentChange);
    MotionNeedsSetting(cfg, st.objects, objects);
    if cfg.emitOnMotionChange && hasMotionChange {
      reasons := reasons + [MotionChange];
    }
    assert reasons == Changes(cfg, st, objects);
    if reasons == [] && Elapsed(st, now) >= cfg.heartbeatMs {
      reasons := reasons + [Heartbeat];
    }
  }

  lemma MotionNeedsSetting(cfg: Config, memory: map<nat, Emitted>, objects: seq<FrameObject>)
    ensures AnyMotion(cfg, memory, objects) ==> cfg.emitOnMotionChange
  {
  }

  /** The loop over the objects that were already part of the last emission. */
  method CompareObjects(cfg: Config, memory: map<nat, Emitted>, objects: seq<FrameObject>)
    returns (label_: bool, parent: bool, motion: bool)
    ensures label_ == AnyLabelChange(cfg, memory, objects)
    ensures parent == AnyParentChange(cfg, memory, objects)
    ensures motion == AnyMotion(cfg, memory, objects)
  {
    label_, parent, motion := false, false, false;
    for i := 0 to |objects|
      invariant label_ == AnyLabelChange(cfg, memory, objects[..i])
      invariant parent == AnyParentChange(cfg, memory, objects[..i])
      invariant motion == AnyMotion(cfg, memory, objects[..i])
    {
      hide AnyLabelChange, AnyParentChange, AnyMotion, LabelDiffers, Moved;
      var o := objects[i];
      AnySnoc(cfg, memory, objects[..i], o);
      assert objects[..i + 1] == objects[..i] + [o];
      if o.objectId !in memory {
        continue;
      }
      var previous := memory[o.objectId];
      if cfg.emitOnLabelChange && LabelDiffers(previous, o) {
        label_ := true;
      }
      if cfg.emitOnParentChange && previous.parentId != o.parentId {
        parent := true;
      }
      if cfg.emitOnMotionChange {
        var moved := DetectMotion(cfg, previous.box, o.box);
        motion := motion || moved;
      }
    }
    assert objects[..|objects|] == objects;
  }

  method DetectMotion(cfg: Config, previous: Box, current: Box) returns (moved: bool)
    ensures moved == Moved(cfg, previous, current)
  {
    if ProbeIou(previous, current) < cfg.motionIou {
      moved := true;
    } else {
      moved := CenterShifted(previous, current, cfg.centerShiftRatio);
    }
  }

  lemma AnySnoc(cfg: Config, memory: map<nat, Emitted>, done: seq<FrameObject>, o: FrameObject)
    ensures
      var known := o.objectId in memory;
      AnyLabelChange(cfg, memory, done + [o])
      == (AnyLabelChange(cfg, memory, done)
          || (cfg.emitOnLabelChange && known && LabelDiffers(memory[o.objectId], o)))
    ensures
      var known := o.objectId in memory;
      AnyParentChange(cfg, memory, done + [o])
      == (AnyParentChange(cfg, memory, done)
          || (cfg.emitOnParentChange && known && memory[o.objectId].parentId != o.parentId))
    ensures
      var known := o.objectId in memory;
      AnyMotion(cfg, memory, done + [o])
      == (AnyMotion(cfg, memory, done)
          || (cfg.emitOnMotionChange && known && Moved(cfg, memory[o.objectId].box, o.box)))
  {
    hide LabelDiffers, Moved;
    var all := done + [o];
    assert all[|done|] == o;
    assert forall k :: 0 <= k < |done| ==> all[k] == done[k];
  }

  // ----- runs: the state is a function of the emissions ------------------------------------------

  ghost predicate EmitsAt(cfg: Config, frames: seq<Frame>, k: nat)
    requires k < |frames|
  {
    Publishes(cfg, Run(cfg, frames[..k]), frames[k].objects, frames[k].now)
  }

  ghost function ReasonsAt(cfg: Config, frames: seq<Frame>, k: nat): seq<Reason>
    requires k < |frames|
  {
    var st := Run(cfg, frames[..k]);
    Reasons(cfg, Voted(cfg, st, frames[k].objects), Shown(cfg, st, frames[k].objects), frames[k].now)
  }

  ghost function ShownAt(cfg: Config, frames: seq<Frame>, k: nat): seq<FrameObject>
    requires k < |frames|
  {
    Shown(cfg, Run(cfg, frames[..k]), frames[k].objects)
  }

  /** `k` is the latest emission, and no empty frame came after it. */
  ghost predicate Remembered(cfg: Config, frames: seq<Frame>, k: nat) {
    k < |frames| && EmitsAt(cfg, frames, k)
    && forall m :: k < m < |frames| ==> !EmitsAt(cfg, frames, m) && frames[m].objects != []
  }

  lemma RunAt(cfg: Config, frames: seq<Frame>, k: nat)
    requires k < |frames|
    ensures Run(cfg, frames[..k + 1]) == After(cfg, Run(cfg, frames[..k]), frames[k].objects, frames[k].now)
  {
    hide After;
    assert frames[..k + 1] == frames[..k] + [frames[k]];
    RunSnoc(cfg, frames[..k], frames[k]);
  }

  lemma StepMeans(cfg: Config, frames: seq<Frame>, k: nat)
    requires k < |frames|
    ensures
      var before, after := Run(cfg, frames[..k]), Run(cfg, frames[..k + 1]);
      if EmitsAt(cfg, frames, k) then
        after.lastEmitMs == frames[k].now && after.hadDetection
        && after.objects == Remember(ShownAt(cfg, frames, k))
        && after.lastSignature == Signature(ShownAt(cfg, frames, k))
      else
        after.lastEmitMs == before.lastEmitMs &&
        if frames[k].objects == [] then !after.hadDetection && after.objects == map[] && after.lastSignature == ""
        else after.hadDetection == before.hadDetection && after.objects == before.objects
             && after.lastSignature == before.lastSignature
  {
    hide Signature, Remember, Emits, Relabelled, VotesAfter;
    RunAt(cfg, frames, k);
  }

  /** What the state remembers is exactly the latest emission, unless an empty frame came after it. */
  lemma {:induction false} StateIsHistory(cfg: Config, frames: seq<Frame>, k: nat, n: nat)
    requires k < n <= |frames|
    requires EmitsAt(cfg, frames, k) && forall m :: k < m < n ==> !EmitsAt(cfg, frames, m)
    ensures
      var st := Run(cfg, frames[..n]);
      st.lastEmitMs == frames[k].now &&
      if forall m :: k < m < n ==> frames[m].objects != [] then
        st.hadDetection && st.objects == Remember(ShownAt(cfg, frames, k))
        && st.lastSignature == Signature(ShownAt(cfg, frames, k))
      else !st.hadDetection && st.objects == map[] && st.lastSignature == ""
    decreases n
  {
    hide EmitsAt, ShownAt, Signature, Remember, Run;
    StepMeans(cfg, frames, n - 1);
    if k < n - 1 {
      StateIsHistory(cfg, frames, k, n - 1);
      if frames[n - 1].objects != [] {
        assert (forall m :: k < m < n - 1 ==> frames[m].objects != [])
          ==> forall m :: k < m < n ==> frames[m].objects != [];
      }
    }
  }

  /** Before the first emission the state remembers nothing. */
  lemma {:induction false} NothingRemembered(cfg: Config, frames: seq<Frame>, n: nat)
    requires n <= |frames| && forall m :: 0 <= m < n ==> !EmitsAt(cfg, frames, m)
    ensures
      var st := Run(cfg, frames[..n]);
      st.lastEmitMs == 0 && !st.hadDetection && st.objects == map[] && st.lastSignature == ""
    decreases n
  {
    hide EmitsAt, ShownAt, Signature, Remember;
    if n > 0 {
      NothingRemembered(cfg, frames, n - 1);
      StepMeans(cfg, frames, n - 1);
    }
  }

  /** had_detection, the remembered objects and the remembered signature are all set or all clear. */
  lemma {:induction false} DetectionFlagExact(cfg: Config, frames: seq<Frame>)
    ensures
      var st := Run(cfg, frames);
      (st.hadDetection <==> st.objects != map[]) && (st.hadDetection <==> st.lastSignature != "")
  {
    hide EmitsAt, ShownAt, Signature, Run;
    if frames == [] {
      NothingRemembered(cfg, frames, 0);
      assert frames[..0] == frames;
    } else {
      var k := |frames| - 1;
      assert frames[..k + 1] == frames;
      DetectionFlagExact(cfg, frames[..k]);
      StepMeans(cfg, frames, k);
      if EmitsAt(cfg, frames, k) {
        EmissionNonempty(cfg, frames, k);
        SignatureNonempty(ShownAt(cfg, frames, k));
      }
    }
  }

  lemma EmissionNonempty(cfg: Config, frames: seq<Frame>, k: nat)
    requires k < |frames| && EmitsAt(cfg, frames, k)
    ensures frames[k].objects != [] && ShownAt(cfg, frames, k) != [] && Remember(ShownAt(cfg, frames, k)) != map[]
  {
    hide Emits, VoteAll, Relabel;
    var shown := ShownAt(cfg, frames, k);
    assert shown[|shown| - 1].objectId in Remember(shown);
  }

  // ----- spacing of emissions --------------------------------------------------------------------

  ghost predicate PositiveClock(frames: seq<Frame>) {
    forall k :: 0 <= k < |frames| ==> frames[k].now > 0
  }

  lemma NextEmissionApart(cfg: Config, frames: seq<Frame>, i: nat, j: nat)
    requires PositiveClock(frames) && i < j < |frames| && EmitsAt(cfg, frames, i) && EmitsAt(cfg, frames, j)
    requires forall m :: i < m < j ==> !EmitsAt(cfg, frames, m)
    ensures frames[j].now - frames[i].now >= cfg.minGapMs
  {
    StateIsHistory(cfg, frames, i, j);
    hide Reasons, Run, Shown, VotesAfter;
  }

  /**
   * Any two emissions of a source are at least min_emit_gap_ms apart, whatever empty frames lie between
   * them. The guard itself puts emissions in time order, so the clock need not be monotone.
   */
  lemma {:induction false} EmissionsApart(cfg: Config, frames: seq<Frame>, i: nat, j: nat)
    requires PositiveClock(frames) && cfg.minGapMs >= 0
    requires i < j < |frames| && EmitsAt(cfg, frames, i) && EmitsAt(cfg, frames, j)
    ensures frames[j].now - frames[i].now >= cfg.minGapMs
    decreases j - i
  {
    hide EmitsAt;
    if m :| i < m < j && EmitsAt(cfg, frames, m) {
      EmissionsApart(cfg, frames, i, m);
      EmissionsApart(cfg, frames, m, j);
    } else {
      NextEmissionApart(cfg, frames, i, j);
    }
  }

  ghost function Emissions(cfg: Config, frames: seq<Frame>, n: nat): nat
    requires n <= |frames|
  {
    if n == 0 then 0 else Emissions(cfg, frames, n - 1) + (if EmitsAt(cfg, frames, n - 1) then 1 else 0)
  }

  /** Rate bound: `c` emissions span at least `c - 1` gaps. */
  lemma {:induction false} EmissionRate(cfg: Config, frames: seq<Frame>, i: nat, j: nat)
    requires PositiveClock(frames) && cfg.minGapMs >= 0
    requires i <= j < |frames| && EmitsAt(cfg, frames, i) && EmitsAt(cfg, frames, j)
    ensures frames[j].now - frames[i].now >= (Emissions(cfg, frames, j) - Emissions(cfg, frames, i)) * cfg.minGapMs
    decreases j - i
  {
    hide EmitsAt;
    if i < j {
      var m := PreviousEmission(cfg, frames, i, j);
      EmissionRate(cfg, frames, i, m);
      NextEmissionApart(cfg, frames, m, j);
      var c := Emissions(cfg, frames, m) - Emissions(cfg, frames, i);
      assert (c + 1) * cfg.minGapMs == c * cfg.minGapMs + cfg.minGapMs;
    }
  }

  lemma {:induction false} PreviousEmission(cfg: Config, frames: seq<Frame>, i: nat, j: nat) returns (m: nat)
    requires i < j <= |frames| && EmitsAt(cfg, frames, i)
    ensures i <= m < j && EmitsAt(cfg, frames, m)
    ensures forall l :: m < l < j ==> !EmitsAt(cfg, frames, l)
    ensures Emissions(cfg, frames, j) == Emissions(cfg, frames, m) + 1
    decreases j
  {
    hide EmitsAt;
    if EmitsAt(cfg, frames, j - 1) {
      m := j - 1;
    } else {
      m := PreviousEmission(cfg, frames, i, j - 1);
    }
  }

  // ----- which frames are emitted ----------------------------------------------------------------

  lemma RaisedIff(cfg: Config, st: SourceState, objects: seq<FrameObject>, now: int)
    ensures
      var changes := Changes(cfg, st, objects);
      && (FirstFrame in changes <==> cfg.emitOnFirstFrame && !st.hadDetection)
      && (ObjectSetChange in changes <==> cfg.emitOnObjectSetChange && Signature(objects) != st.lastSignature)
      && (LabelChange in changes <==> AnyLabelChange(cfg, st.objects, objects))
      && (ParentChange in changes <==> AnyParentChange(cfg, st.objects, objects))
      && (MotionChange in changes <==> AnyMotion(cfg, st.objects, objects))
      && Heartbeat !in changes
    ensures forall r :: r != Heartbeat ==> (r in Reasons(cfg, st, objects, now) <==> r in Changes(cfg, st, objects))
  {
    hide Signature, AnyLabelChange, AnyParentChange, AnyMotion;
  }

  lemma EmitsIffRaised(cfg: Config, st: SourceState, objects: seq<FrameObject>, now: int)
    ensures Emits(cfg, st, objects, now) <==>
      !Suppressed(cfg, st, now) && ((exists r :: r in Changes(cfg, st, objects)) || Elapsed(st, now) >= cfg.heartbeatMs)
  {
    hide Changes;
    var changes := Changes(cfg, st, objects);
    assert changes != [] ==> changes[0] in changes;
  }

  lemma NothingToCompare(cfg: Config, objects: seq<FrameObject>)
    ensures !AnyLabelChange(cfg, map[], objects) && !AnyParentChange(cfg, map[], objects)
    ensures !AnyMotion(cfg, map[], objects)
  {
  }

  /** A heartbeat is reported only when nothing else is. */
  lemma HeartbeatAlone(cfg: Config, st: SourceState, objects: seq<FrameObject>, now: int)
    ensures Heartbeat in Reasons(cfg, st, objects, now) ==> Reasons(cfg, st, objects, now) == [Heartbeat]
  {
    hide Signature, AnyLabelChange, AnyParentChange, AnyMotion;
  }

  function Rank(r: Reason): nat {
    match r
    case FirstFrame => 0
    case ObjectSetChange => 1
    case LabelChange => 2
    case ParentChange => 3
    case MotionChange => 4
    case Heartbeat => 5
  }

  /** Reasons are reported in this order, each at most once. */
  lemma ReasonsOrdered(cfg: Config, st: SourceState, objects: seq<FrameObject>, now: int)
    ensures
      var reasons := Reasons(cfg, st, objects, now);
      forall i, j :: 0 <= i < j < |reasons| ==> Rank(reasons[i]) < Rank(reasons[j])
  {
    hide Signature, AnyLabelChange, AnyParentChange, AnyMotion;
  }

  /** No source stays silent: a nonempty frame past both the heartbeat and the gap is emitted. */
  lemma HeartbeatEmits(cfg: Config, frames: seq<Frame>, i: nat, j: nat)
    requires PositiveClock(frames) && i < j < |frames| && EmitsAt(cfg, frames, i) && frames[j].objects != []
    requires forall m :: i < m < j ==> !EmitsAt(cfg, frames, m)
    requires frames[j].now - frames[i].now >= cfg.heartbeatMs && frames[j].now - frames[i].now >= cfg.minGapMs
    ensures EmitsAt(cfg, frames, j)
  {
    StateIsHistory(cfg, frames, i, j);
    hide Changes, Run, Relabelled, VotesAfter;
  }

  /** The first nonempty frame of a source is emitted exactly when one of three settings allows it. */
  lemma FirstNonemptyFrame(cfg: Config, frames: seq<Frame>, j: nat)
    requires j < |frames| && frames[j].objects != [] && forall m :: 0 <= m < j ==> !EmitsAt(cfg, frames, m)
    ensures EmitsAt(cfg, frames, j) <==>
      cfg.emitOnFirstFrame || cfg.emitOnObjectSetChange || cfg.heartbeatMs <= 0
  {
    hide Run, Voted, Shown, Signature, Emits, Changes;
    NothingRemembered(cfg, frames, j);
    var st, shown := Run(cfg, frames[..j]), ShownAt(cfg, frames, j);
    ShownLength(cfg, st, frames[j].objects);
    SignatureNonempty(shown);
    VotingKeepsMemory(cfg, st, frames[j].objects);
    EmitsFromNothing(cfg, Voted(cfg, st, frames[j].objects), shown, frames[j].now);
  }

  lemma VotingKeepsMemory(cfg: Config, st: SourceState, objects: seq<FrameObject>)
    ensures Voted(cfg, st, objects) == st.(votes := Voted(cfg, st, objects).votes)
  {
    hide VotesAfter;
  }

  lemma EmitsFromNothing(cfg: Config, st: SourceState, objects: seq<FrameObject>, now: int)
    requires st.lastEmitMs == 0 && !st.hadDetection && st.objects == map[] && st.lastSignature == ""
    requires Signature(objects) != ""
    ensures Emits(cfg, st, objects, now) <==>
      cfg.emitOnFirstFrame || cfg.emitOnObjectSetChange || cfg.heartbeatMs <= 0
  {
    hide Changes, Signature, Emits, AnyLabelChange, AnyParentChange, AnyMotion;
    EmitsIffRaised(cfg, st, objects, now);
    RaisedIff(cfg, st, objects, now);
    NothingToCompare(cfg, objects);
  }

  lemma ShownLength(cfg: Config, st: SourceState, objects: seq<FrameObject>)
    ensures |Shown(cfg, st, objects)| == |objects|
  {
    hide VoteAll, Relabel;
  }

  /** With those settings off a source never emits anything, however long it runs. */
  lemma {:induction false} SilentForever(cfg: Config, frames: seq<Frame>, k: nat)
    requires !cfg.emitOnFirstFrame && !cfg.emitOnObjectSetChange && cfg.heartbeatMs > 0 && k < |frames|
    ensures !EmitsAt(cfg, frames, k)
    decreases k
  {
    hide Emits, Run;
    forall m: nat | m < k ensures !EmitsAt(cfg, frames, m) {
      SilentForever(cfg, frames, m);
    }
    if frames[k].objects != [] {
      FirstNonemptyFrame(cfg, frames, k);
    }
  }

  // ----- the object-set change reason ------------------------------------------------------------

  ghost predicate SetChangeAt(cfg: Config, frames: seq<Frame>, k: nat)
    requires k < |frames|
  {
    ObjectSetChange in ReasonsAt(cfg, frames, k)
  }

  lemma SetChangeMeans(cfg: Config, frames: seq<Frame>, k: nat)
    requires k < |frames|
    ensures SetChangeAt(cfg, frames, k) <==>
      cfg.emitOnObjectSetChange && Signature(ShownAt(cfg, frames, k)) != Run(cfg, frames[..k]).lastSignature
  {
    hide Signature, Run, Relabelled, VotesAfter, AnyLabelChange, AnyParentChange, AnyMotion;
  }

  lemma ShownMembers(cfg: Config, frames: seq<Frame>, k: nat)
    requires k < |frames|
    ensures Members(ShownAt(cfg, frames, k)) == Members(frames[k].objects)
    ensures |ShownAt(cfg, frames, k)| == |frames[k].objects|
    ensures SemicolonFree(frames[k].objects) ==> SemicolonFree(ShownAt(cfg, frames, k))
    ensures Signature(ShownAt(cfg, frames, k)) == Signature(frames[k].objects)
  {
    hide Signature, Run, VoteAll, Relabel, Sort, Join;
    var st := Run(cfg, frames[..k]);
    var shown := ShownAt(cfg, frames, k);
    RelabelKeepsMembers(Window(cfg.voteWindow), st.votes, frames[k].objects);
    SameMembersSameSignature(shown, frames[k].objects);
    forall i | 0 <= i < |shown| ensures shown[i].objectType == frames[k].objects[i].objectType {
      assert Members(shown)[i] == Members(frames[k].objects)[i];
    }
  }

  lemma SameMembersSameSignature(a: seq<FrameObject>, b: seq<FrameObject>)
    requires multiset(Members(a)) == multiset(Members(b))
    ensures Signature(a) == Signature(b)
  {
    hide Part, Join, Sort;
    MapPermuted(Part, Members(a), Members(b));
    SortCanonical(Parts(a), Parts(b));
  }

  /**
   * The reason is exact: a nonempty frame raises it iff nothing is remembered (no emission yet, or an empty
   * frame since) or its multiset of (id, class, type, parent) differs from the last emitted one.
   */
  lemma ObjectSetChangeExact(cfg: Config, frames: seq<Frame>, k: nat, j: nat)
    requires cfg.emitOnObjectSetChange && j < |frames| && frames[j].objects != []
    requires Remembered(cfg, frames[..j], k)
    requires SemicolonFree(frames[k].objects) && SemicolonFree(frames[j].objects)
    ensures SetChangeAt(cfg, frames, j) <==>
      multiset(Members(frames[j].objects)) != multiset(Members(frames[k].objects))
  {
    hide Signature, Run, SemicolonFree, Members, Publishes, Shown;
    PrefixEmissions(cfg, frames, j);
    forall m | k < m < j ensures !EmitsAt(cfg, frames, m) && frames[m].objects != [] {
      assert !EmitsAt(cfg, frames[..j], m) && frames[..j][m].objects != [];
    }
    StateIsHistory(cfg, frames, k, j);
    SetChangeMeans(cfg, frames, j);
    ShownMembers(cfg, frames, j);
    ShownMembers(cfg, frames, k);
    EmissionNonempty(cfg, frames, k);
    SignatureExact(frames[j].objects, frames[k].objects);
  }

  lemma PrefixEmissions(cfg: Config, frames: seq<Frame>, j: nat)
    requires j <= |frames|
    ensures forall m :: 0 <= m < j ==> (EmitsAt(cfg, frames[..j], m) <==> EmitsAt(cfg, frames, m))
  {
    hide Publishes, Run;
    forall m | 0 <= m < j ensures EmitsAt(cfg, frames[..j], m) <==> EmitsAt(cfg, frames, m) {
      assert frames[..j][..m] == frames[..m];
    }
  }

  /** With nothing remembered every nonempty frame raises the reason. */
  lemma ObjectSetChangeAfterReset(cfg: Config, frames: seq<Frame>, j: nat)
    requires cfg.emitOnObjectSetChange && j < |frames| && frames[j].objects != []
    requires forall k :: !Remembered(cfg, frames[..j], k)
    ensures SetChangeAt(cfg, frames, j)
  {
    hide Signature, Run, EmitsAt;
    PrefixEmissions(cfg, frames, j);
    if k :| 0 <= k < j && EmitsAt(cfg, frames, k) {
      var latest := LatestEmission(cfg, frames, k, j);
      RememberedIff(cfg, frames, latest, j);
      StateIsHistory(cfg, frames, latest, j);
    } else {
      NothingRemembered(cfg, frames, j);
    }
    SetChangeMeans(cfg, frames, j);
    ShownMembers(cfg, frames, j);
    SignatureNonempty(frames[j].objects);
  }

  lemma RememberedIff(cfg: Config, frames: seq<Frame>, k: nat, j: nat)
    requires k < j <= |frames| && EmitsAt(cfg, frames, k) && forall m :: k < m < j ==> !EmitsAt(cfg, frames, m)
    ensures Remembered(cfg, frames[..j], k) <==> forall m :: k < m < j ==> frames[m].objects != []
  {
    hide EmitsAt;
    PrefixEmissions(cfg, frames, j);
    if Remembered(cfg, frames[..j], k) {
      forall m | k < m < j ensures frames[m].objects != [] {
        assert frames[..j][m].objects != [];
      }
    }
  }

  lemma {:induction false} LatestEmission(cfg: Config, frames: seq<Frame>, k: nat, n: nat) returns (m: nat)
    requires k < n <= |frames| && EmitsAt(cfg, frames, k)
    ensures k <= m < n && EmitsAt(cfg, frames, m) && forall l :: m < l < n ==> !EmitsAt(cfg, frames, l)
  {
    hide EmitsAt;
    m := PreviousEmission(cfg, frames, k, n);
  }

  // ----- suppressed changes are not lost ---------------------------------------------------------

  /** Object `q` of the new view is object `p` of the old one, the last that carried its id there. */
  ghost predicate SameObject(before: seq<FrameObject>, now: seq<FrameObject>, p: nat, q: nat) {
    && p < |before| && q < |now| && before[p].objectId == now[q].objectId
    && forall i :: p < i < |before| ==> before[i].objectId != before[p].objectId
  }

  ghost predicate LabelsChanged(before: seq<FrameObject>, now: seq<FrameObject>) {
    exists p: nat, q: nat :: SameObject(before, now, p, q)
      && (now[q].objectType != before[p].objectType || now[q].classId != before[p].classId
          || now[q].labelSignature != before[p].labelSignature)
  }

  ghost predicate ParentsChanged(before: seq<FrameObject>, now: seq<FrameObject>) {
    exists p: nat, q: nat :: SameObject(before, now, p, q) && now[q].parentId != before[p].parentId
  }

  ghost predicate ObjectsMoved(cfg: Config, before: seq<FrameObject>, now: seq<FrameObject>) {
    exists p: nat, q: nat :: SameObject(before, now, p, q) && Moved(cfg, before[p].box, now[q].box)
  }

  /** In this respect frame `j` shows something else than the emission at `k` did. */
  ghost predicate Differs(cfg: Config, frames: seq<Frame>, k: nat, j: nat, reason: Reason)
    requires k < j < |frames|
  {
    var before, now := ShownAt(cfg, frames, k), ShownAt(cfg, frames, j);
    match reason
    case ObjectSetChange =>
      cfg.emitOnObjectSetChange && Signature(frames[j].objects) != Signature(frames[k].objects)
    case LabelChange => cfg.emitOnLabelChange && LabelsChanged(before, now)
    case ParentChange => cfg.emitOnParentChange && ParentsChanged(before, now)
    case MotionChange => cfg.emitOnMotionChange && ObjectsMoved(cfg, before, now)
    case _ => false
  }

  lemma {:induction false} RememberedFrom(objects: seq<FrameObject>, id: nat) returns (p: nat)
    requires id in Remember(objects)
    ensures p < |objects| && objects[p].objectId == id && Remember(objects)[id] == ViewOf(objects[p])
    ensures forall i :: p < i < |objects| ==> objects[i].objectId != id
  {
    var n := |objects| - 1;
    if objects[n].objectId == id {
      p := n;
    } else {
      p := RememberedFrom(objects[..n], id);
    }
  }

  /** Comparing with the memory is comparing with the objects of the emission themselves. */
  lemma MemoryCompares(cfg: Config, before: seq<FrameObject>, now: seq<FrameObject>)
    ensures AnyLabelChange(cfg, Remember(before), now) <==> cfg.emitOnLabelChange && LabelsChanged(before, now)
    ensures AnyParentChange(cfg, Remember(before), now) <==> cfg.emitOnParentChange && ParentsChanged(before, now)
    ensures AnyMotion(cfg, Remember(before), now) <==> cfg.emitOnMotionChange && ObjectsMoved(cfg, before, now)
  {
    hide Remember, Moved;
    forall q: nat | q < |now| && now[q].objectId in Remember(before)
      ensures exists p: nat :: SameObject(before, now, p, q)
    {
      var p := RememberedFrom(before, now[q].objectId);
      assert SameObject(before, now, p, q);
    }
    forall p: nat, q: nat | SameObject(before, now, p, q)
      ensures now[q].objectId in Remember(before) && Remember(before)[now[q].objectId] == ViewOf(before[p])
    {
      RememberMeans(before, p);
    }
  }

  ghost predicate Quiet(cfg: Config, frames: seq<Frame>, last: nat, j: nat)
    requires last < j <= |frames|
  {
    EmitsAt(cfg, frames, last) && forall m :: last < m < j ==> !EmitsAt(cfg, frames, m)
  }

  /** No empty frame between the two. */
  ghost predicate NoReset(frames: seq<Frame>, last: nat, j: nat)
    requires last < j <= |frames|
  {
    forall m :: last < m < j ==> frames[m].objects != []
  }

  /** Without a reset since the emission at `last`, exactly the differences from it are raised. */
  lemma RaisedAgainstEmission(cfg: Config, frames: seq<Frame>, last: nat, j: nat, reason: Reason)
    requires last < j < |frames| && Quiet(cfg, frames, last, j) && NoReset(frames, last, j) && reason != Heartbeat
    ensures reason in ReasonsAt(cfg, frames, j) <==> Differs(cfg, frames, last, j, reason)
  {
    hide Run, EmitsAt, Changes, Reasons, Signature, AnyLabelChange, AnyParentChange, AnyMotion, Relabelled, VotesAfter,
      Remember, LabelsChanged, ParentsChanged, ObjectsMoved;
    StateIsHistory(cfg, frames, last, j);
    var st := Run(cfg, frames[..j]);
    RaisedIff(cfg, Voted(cfg, st, frames[j].objects), ShownAt(cfg, frames, j), frames[j].now);
    ShownMembers(cfg, frames, j);
    ShownMembers(cfg, frames, last);
    MemoryCompares(cfg, ShownAt(cfg, frames, last), ShownAt(cfg, frames, j));
  }

  /**
   * Past the gap of the latest emission a nonempty frame is emitted exactly when it differs from that emission
   * in some respect or the heartbeat is due. After a reset it is emitted whatever it shows: the emission before
   * the reset shows that first_frame or object_set_change is enabled, or that a heartbeat is always due. Only a
   * negative gap with a clock set back leaves a choice.
   */
  lemma EmittedPastGapIff(cfg: Config, frames: seq<Frame>, last: nat, j: nat)
    requires PositiveClock(frames) && last < j < |frames| && Quiet(cfg, frames, last, j) && frames[j].objects != []
    requires frames[j].now - frames[last].now >= cfg.minGapMs
    ensures
      var due := frames[j].now - frames[last].now >= cfg.heartbeatMs;
      EmitsAt(cfg, frames, j) <==>
        if NoReset(frames, last, j) then due || exists reason :: Differs(cfg, frames, last, j, reason)
        else due || cfg.emitOnFirstFrame || cfg.emitOnObjectSetChange
    ensures !NoReset(frames, last, j) && (cfg.minGapMs >= 0 || frames[last].now <= frames[j].now) ==>
      EmitsAt(cfg, frames, j)
  {
    if !cfg.emitOnFirstFrame && !cfg.emitOnObjectSetChange && cfg.heartbeatMs > 0 {
      SilentForever(cfg, frames, last);
    }
    hide EmitsAt;
    EmittedPastGap(cfg, frames, last, j);
  }

  lemma EmittedPastGap(cfg: Config, frames: seq<Frame>, last: nat, j: nat)
    requires PositiveClock(frames) && last < j < |frames| && Quiet(cfg, frames, last, j) && frames[j].objects != []
    requires frames[j].now - frames[last].now >= cfg.minGapMs
    ensures
      var due := frames[j].now - frames[last].now >= cfg.heartbeatMs;
      EmitsAt(cfg, frames, j) <==>
        if NoReset(frames, last, j) then due || exists reason :: Differs(cfg, frames, last, j, reason)
        else due || cfg.emitOnFirstFrame || cfg.emitOnObjectSetChange
  {
    hide Run, Changes, Reasons, Signature, AnyLabelChange, AnyParentChange, AnyMotion, Relabelled, VotesAfter, Differs,
      Emits;
    var st, shown := Run(cfg, frames[..j]), ShownAt(cfg, frames, j);
    var voted := Voted(cfg, st, frames[j].objects);
    StateIsHistory(cfg, frames, last, j);
    EmitsIffRaised(cfg, voted, shown, frames[j].now);
    RaisedIff(cfg, voted, shown, frames[j].now);
    if NoReset(frames, last, j) {
      forall reason | reason != Heartbeat
        ensures reason in Changes(cfg, voted, shown) <==> Differs(cfg, frames, last, j, reason)
      {
        RaisedAgainstEmission(cfg, frames, last, j, reason);
      }
      HeartbeatIsNoDifference(cfg, frames, last, j);
    } else {
      ShownLength(cfg, st, frames[j].objects);
      SignatureNonempty(shown);
      NothingToCompare(cfg, shown);
    }
  }

  lemma HeartbeatIsNoDifference(cfg: Config, frames: seq<Frame>, k: nat, j: nat)
    requires k < j < |frames|
    ensures !Differs(cfg, frames, k, j, Heartbeat)
  {
  }

  /** After an empty frame every nonempty frame past the gap of the latest emission is emitted. */
  lemma PastGapAfterReset(cfg: Config, frames: seq<Frame>, last: nat, j: nat)
    requires PositiveClock(frames) && last < j < |frames| && Quiet(cfg, frames, last, j) && frames[j].objects != []
    requires frames[j].now - frames[last].now >= cfg.minGapMs
    requires cfg.minGapMs >= 0 || frames[last].now <= frames[j].now
    requires !NoReset(frames, last, j)
    ensures EmitsAt(cfg, frames, j)
  {
    hide Quiet, NoReset, EmitsAt;
    EmittedPastGapIff(cfg, frames, last, j);
  }

  /**
   * A change of any kind that the gap suppresses at frame `i` is not lost: if it is still there at `j`, the
   * first nonempty frame past the gap, that frame is emitted, and for the same reason. If an empty frame came
   * in between, `j` is emitted in any case; only its reasons may be others.
   */
  lemma SuppressedChangeIsEmitted(cfg: Config, frames: seq<Frame>, last: nat, i: nat, j: nat, reason: Reason)
    requires PositiveClock(frames) && last < i < j < |frames|
    requires Quiet(cfg, frames, last, i) && frames[i].objects != [] && frames[j].objects != []
    requires reason in ReasonsAt(cfg, frames, i) && !EmitsAt(cfg, frames, i)
    requires forall m :: i < m < j && frames[m].objects != [] ==> frames[m].now - frames[last].now < cfg.minGapMs
    requires frames[j].now - frames[last].now >= cfg.minGapMs
    requires if NoReset(frames, last, j) then Differs(cfg, frames, last, j, reason)
             else cfg.minGapMs >= 0 || frames[last].now <= frames[j].now
    ensures EmitsAt(cfg, frames, j)
    ensures NoReset(frames, last, j) ==> reason in ReasonsAt(cfg, frames, j)
  {
    hide EmitsAt, Differs, ReasonsAt, Run;
    QuietWithinGap(cfg, frames, last, i, j);
    EmittedPastGapIff(cfg, frames, last, j);
    if NoReset(frames, last, j) {
      HeartbeatIsNoDifference(cfg, frames, last, j);
      RaisedAgainstEmission(cfg, frames, last, j, reason);
    } else {
      PastGapAfterReset(cfg, frames, last, j);
    }
  }

  /** An object-set change is emitted for that reason even if empty frames came in between. */
  lemma SuppressedSetChangeIsEmitted(cfg: Config, frames: seq<Frame>, last: nat, i: nat, j: nat)
    requires PositiveClock(frames) && last < i < j < |frames|
    requires Quiet(cfg, frames, last, i) && frames[i].objects != [] && frames[j].objects != []
    requires SetChangeAt(cfg, frames, i) && !EmitsAt(cfg, frames, i)
    requires forall m :: i < m < j && frames[m].objects != [] ==> frames[m].now - frames[last].now < cfg.minGapMs
    requires frames[j].now - frames[last].now >= cfg.minGapMs
    requires multiset(Members(frames[j].objects)) == multiset(Members(frames[i].objects))
    ensures EmitsAt(cfg, frames, j) && SetChangeAt(cfg, frames, j)
  {
    hide Signature, Run, Members, EmitsAt, SetChangeAt, ShownAt;
    StateIsHistory(cfg, frames, last, i);
    QuietWithinGap(cfg, frames, last, i, j);
    StateIsHistory(cfg, frames, last, j);
    SetChangeMeans(cfg, frames, i);
    SetChangeMeans(cfg, frames, j);
    ShownMembers(cfg, frames, i);
    ShownMembers(cfg, frames, j);
    SameMembersSameSignature(frames[i].objects, frames[j].objects);
    SignatureNonempty(frames[j].objects);
    assert Run(cfg, frames[..j]).lastSignature == Run(cfg, frames[..i]).lastSignature
           || Run(cfg, frames[..j]).lastSignature == "";
    RaisedPastGapEmits(cfg, frames, j);
  }

  /** No frame within the gap of the latest emission is emitted. */
  lemma QuietWithinGap(cfg: Config, frames: seq<Frame>, last: nat, i: nat, j: nat)
    requires PositiveClock(frames) && last < i < j < |frames| && EmitsAt(cfg, frames, last)
    requires forall m :: last < m <= i ==> !EmitsAt(cfg, frames, m)
    requires forall m :: i < m < j && frames[m].objects != [] ==> frames[m].now - frames[last].now < cfg.minGapMs
    ensures forall m :: last < m < j ==> !EmitsAt(cfg, frames, m)
    decreases j
  {
    hide EmitsAt, ShownAt, Remember, Run;
    if i < j - 1 {
      QuietWithinGap(cfg, frames, last, i, j - 1);
      if EmitsAt(cfg, frames, j - 1) {
        EmissionNonempty(cfg, frames, j - 1);
        NextEmissionApart(cfg, frames, last, j - 1);
      }
    }
  }

  lemma RaisedPastGapEmits(cfg: Config, frames: seq<Frame>, j: nat)
    requires j < |frames| && frames[j].objects != [] && SetChangeAt(cfg, frames, j)
    requires
      var st := Run(cfg, frames[..j]);
      st.lastEmitMs > 0 ==> frames[j].now - st.lastEmitMs >= cfg.minGapMs
    ensures EmitsAt(cfg, frames, j)
  {
    hide Reasons, Run, Shown, VotesAfter;
  }

  /**
   * A whole such run, for any two frames with different objects: the first is emitted, the change one
   * millisecond later is suppressed, and it is emitted when the gap is over.
   */
  lemma SuppressionHappens(cfg: Config, a: seq<FrameObject>, b: seq<FrameObject>, t: int)
    requires cfg.emitOnObjectSetChange && cfg.minGapMs > 1 && t > 0 && a != [] && b != []
    requires SemicolonFree(a) && SemicolonFree(b) && multiset(Members(a)) != multiset(Members(b))
    ensures
      var frames := [Frame(a, t), Frame(b, t + 1), Frame(b, t + cfg.minGapMs)];
      && PositiveClock(frames) && EmitsAt(cfg, frames, 0)
      && SetChangeAt(cfg, frames, 1) && !EmitsAt(cfg, frames, 1)
      && SetChangeAt(cfg, frames, 2) && EmitsAt(cfg, frames, 2)
  {
    hide EmitsAt, SetChangeAt, Run, Members, SemicolonFree;
    var frames := [Frame(a, t), Frame(b, t + 1), Frame(b, t + cfg.minGapMs)];
    FirstNonemptyFrame(cfg, frames, 0);
    PrefixEmissions(cfg, frames, 1);
    assert Remembered(cfg, frames[..1], 0);
    ObjectSetChangeExact(cfg, frames, 0, 1);
    if EmitsAt(cfg, frames, 1) {
      NextEmissionApart(cfg, frames, 0, 1);
    }
    SuppressedSetChangeIsEmitted(cfg, frames, 0, 1, 2);
  }

  /** A frame that shows the same objects as the emission differs from it in no respect. */
  lemma UnchangedDiffersNowhere(cfg: Config, frames: seq<Frame>, k: nat, j: nat, reason: Reason)
    requires k < j < |frames| && ShownAt(cfg, frames, k) == ShownAt(cfg, frames, j)
    requires Signature(frames[k].objects) == Signature(frames[j].objects)
    requires cfg.motionIou <= 1.0 && cfg.centerShiftRatio > 0.0
    requires forall i, m :: 0 <= i < m < |ShownAt(cfg, frames, k)| ==>
      ShownAt(cfg, frames, k)[i].objectId != ShownAt(cfg, frames, k)[m].objectId
    requires forall i :: 0 <= i < |ShownAt(cfg, frames, k)| ==>
      ShownAt(cfg, frames, k)[i].box.width > 0.0 && ShownAt(cfg, frames, k)[i].box.height > 0.0
    ensures !Differs(cfg, frames, k, j, reason)
  {
    hide ShownAt, Signature, Moved;
    var shown := ShownAt(cfg, frames, k);
    forall p: nat, q: nat | SameObject(shown, shown, p, q) ensures p == q && !Moved(cfg, shown[p].box, shown[q].box) {
      MotionExtremes(cfg, shown[p].box, shown[p].box);
    }
  }

  // ----- votes over a run ------------------------------------------------------------------------

  function ObjectsOf(frames: seq<Frame>): (r: seq<seq<FrameObject>>)
    ensures |r| == |frames|
  {
    seq(|frames|, k requires 0 <= k < |frames| => frames[k].objects)
  }

  /** The label votes of a source depend only on the frames since its last empty one. */
  lemma {:induction false} VotesSinceReset(cfg: Config, frames: seq<Frame>, e: nat)
    requires e <= |frames| && (e == 0 || frames[e - 1].objects == [])
    requires forall m :: e <= m < |frames| ==> frames[m].objects != []
    ensures Run(cfg, frames).votes == FrameRun(Window(cfg.voteWindow), ObjectsOf(frames[e..]))
  {
    hide VotesAfter, Emits, Shown, Signature, Remember;
    if e < |frames| {
      var n := |frames| - 1;
      VotesSinceReset(cfg, frames[..n], e);
      var tail := frames[e..];
      assert frames[..n][e..] == tail[..|tail| - 1];
      assert ObjectsOf(tail)[..|tail| - 1] == ObjectsOf(tail[..|tail| - 1]);
    } else if e > 0 {
      assert ObjectsOf(frames[e..]) == [];
    } else {
      assert ObjectsOf(frames[e..]) == [];
    }
  }

  /** A frame shows of an object what its observations since the last empty frame elected. */
  lemma ShownSinceReset(cfg: Config, frames: seq<Frame>, e: nat, j: nat, at: seq<nat>, id: nat)
    requires e <= j < |frames| && (e == 0 || frames[e - 1].objects == [])
    requires OncePerFrame(ObjectsOf(frames[e..j + 1]), at, id)
    ensures |ShownAt(cfg, frames, j)| == |frames[j].objects| && at[j - e] < |frames[j].objects|
    ensures
      var seen := LabelsSeen(ObjectsOf(frames[e..j + 1]), at);
      ShowsElected(Window(cfg.voteWindow), seen, ShownAt(cfg, frames, j)[at[j - e]])
  {
    hide Run, Relabelled, FrameRun, ShowsElected;
    var all := ObjectsOf(frames[e..j + 1]);
    forall m | e <= m <= j ensures frames[m].objects != [] {
      assert OccursOnceAt(all[m - e], at[m - e], id);
    }
    VotesSinceReset(cfg, frames[..j], e);
    assert all[..j - e] == ObjectsOf(frames[..j][e..]);
    assert OccursOnceAt(all[j - e], at[j - e], id);
    ShownLength(cfg, Run(cfg, frames[..j]), frames[j].objects);
    ShownLabels(Window(cfg.voteWindow), all, at, id);
  }
}
