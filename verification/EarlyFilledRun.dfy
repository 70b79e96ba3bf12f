/** Four frames after which an object has one bypass more than the time since its first capture allows. */
module EarlyFilledRun {
  import opened Options
  import opened ObjectGroups
  import opened CropPublish
  import opened CaptureDecision

  const SECOND := 1_000_000_000

  /** One token, refilled every 10 s; no gap; captures 100 s apart; one observation is enough everywhere. */
  const SETTINGS := CaptureDecision.Config(1, 1, 1, 1, 10 * SECOND, 0, 100 * SECOND)
  const FILTER: seq<string> := ["car"]

  const BOX := PixelBox(0, 0, 10, 10)

  function Car(tid: nat, labels: string, parent: Option<Obj>): Obj {
    Obj(tid, "car", labels, 0, BOX, parent)
  }

  /** The one group of a frame that shows a single object. */
  function SoloGroup(x: Obj): Group {
    if x.parent.Some? then Group(x.parent, x.parent.value.tid, [x]) else Group(Some(x), x.tid, [])
  }

  lemma SoloGroups(source: nat, cache: ParentCache, x: Obj)
    requires x.tid != UNTRACKED && if x.parent.Some? then x.parent.value.tid != UNTRACKED else cache == map[]
    ensures Groups(source, cache, [x]) == [SoloGroup(x)]
  {
    hide ComposeKey, FirstLoop, DeferredOf, Attach;
    assert [x][..0] == [];
    var p := Placed(x, PlaceOf(source, cache, x));
    assert Rounds(source, cache, [x]) == [p];
    EmptyLoops();
    LoopsPush([], p);
    assert [] + [p] == [p] && [] + [x] == [x];
    AttachNothing([SoloGroup(x)]);
  }

  /** A frame with one object, in terms of its one group. */
  method ShowAlone(h: CropObjectHandler, ctx: FrameContext, x: Obj) returns (ghost round: Round)
    requires h.Valid() && x.tid != UNTRACKED
    requires if x.parent.Some? then x.parent.value.tid != UNTRACKED else h.parents == map[]
    modifies h
    ensures h.Valid()
    ensures RoundOk(h.cfg, h.labelFilter, old(h.trace), old(h.log), ctx, SoloGroup(x), round)
    ensures h.trace == GroupTraces(h.labelFilter, ctx, old(h.trace), SoloGroup(x), round.published)
  {
    hide CropObjectHandler.Valid, Groups, GroupTraces, RoundOk, FrameHeaders, ComposeKey;
    SoloGroups(ctx.source, h.parents, x);
    ghost var groups, rounds := h.ProcessFrame(ctx, [x]);
    round := rounds[0];
    OneRound(h.cfg, h.labelFilter, ctx, old(h.trace), h.log, |old(h.log)|, groups, rounds);
    assert h.log[..|old(h.log)|] == old(h.log);
  }

  lemma OneRound(cfg: CaptureDecision.Config, filter: seq<string>, ctx: FrameContext, traces: Traces,
                 log: seq<LogEntry>, from: nat, groups: seq<Group>, rounds: seq<Round>)
    requires |groups| == |rounds| == 1 && FrameRoundOk(cfg, filter, traces, log, from, ctx, groups, rounds, 0)
    ensures from <= |log| && RoundOk(cfg, filter, traces, log[..from], ctx, groups[0], rounds[0])
    ensures FrameTraces(filter, ctx, traces, groups, rounds)
         == GroupTraces(filter, ctx, traces, groups[0], rounds[0].published)
  {
    hide RoundOk, GroupTraces, GroupHeaders;
    assert groups[..0] == [] && rounds[..0] == [];
  }

  lemma SignatureOfParent(parent: Obj, children: seq<Obj>)
    requires LabelledOnly(children) == []
    ensures GroupSignature(Some(parent), children) == parent.sgieLabels
  {
  }

  lemma UnlabelledChild(x: Obj)
    requires x.sgieLabels == ""
    ensures LabelledOnly([x]) == []
  {
    assert [x][..0] == [];
  }

  lemma OneChild(ctx: FrameContext, traces: Traces, x: Obj)
    requires x.objLabel == "car" && x.tid != UNTRACKED
    ensures ChildTraces(FILTER, ctx, traces, [x])
         == Append(traces, ComposeKey(ctx.source, x.tid), Captured(ctx.pts, x.sgieLabels))
  {
    assert [x][..0] == [];
    assert Accepts(FILTER, x);
  }

  lemma SmallKey(tid: nat)
    requires tid < 10
    ensures ComposeKey(0, tid) == tid
  {
  }

  /** What the four frames mean to object 1: decided, captured, and twice decided and captured again. */
  function Events(): (seq<Event>, Event, seq<Event>) {
    ([Decided(At(1 * SECOND), "a", 1)],
     Captured(At(10 * SECOND), "a"),
     [Decided(At(10 * SECOND + 1), "b", 3), Captured(At(10 * SECOND + 1), "b"),
      Decided(At(11 * SECOND), "c", 4), Captured(At(11 * SECOND), "c")])
  }

  /** The states of object 1 along the run. */
  lemma States()
    ensures
      var (before, capture, events) := Events();
      var k1 := KeyState(Gate(1, 1, 1, At(1 * SECOND), "a", "", 0), None);
      var k2 := KeyState(Gate(1, 1, 1, At(1 * SECOND), "a", "", 0), Some(At(10 * SECOND)));
      var k3 := KeyState(Gate(3, 1, 0, At(1 * SECOND), "a", "", 0), Some(At(10 * SECOND)));
      var k4 := KeyState(Gate(3, 1, 0, At(1 * SECOND), "b", "", 0), Some(At(10 * SECOND + 1)));
      && Step(SETTINGS, NEW_KEY, before[0]) == k1 && Outcome(SETTINGS, NEW_KEY, before[0]) == FirstSeen
      && Step(SETTINGS, k1, capture) == k2
      && Step(SETTINGS, k2, events[0]) == k3 && Outcome(SETTINGS, k2, events[0]) == Bypass
      && Step(SETTINGS, k3, events[1]) == k4 && Outcome(SETTINGS, k4, events[2]) == Bypass
  {
  }

  lemma Runs()
    ensures
      var (before, capture, events) := Events();
      && Outcome(SETTINGS, Run(SETTINGS, NEW_KEY, before + [capture]), events[0]) == Bypass
      && Outcome(SETTINGS, Run(SETTINGS, NEW_KEY, before + [capture] + events[..2]), events[2]) == Bypass
      && Bypasses(SETTINGS, Run(SETTINGS, NEW_KEY, before + [capture]), events) >= 2
  {
    hide Decide, Bypasses;
    var (before, capture, events) := Events();
    States();
    hide Step, Outcome;
    RunSnoc(SETTINGS, NEW_KEY, [], before[0]);
    assert [] + [before[0]] == before;
    RunSnoc(SETTINGS, NEW_KEY, before, capture);
    var k2 := Run(SETTINGS, NEW_KEY, before + [capture]);
    RunSnoc(SETTINGS, NEW_KEY, before + [capture], events[0]);
    RunSnoc(SETTINGS, NEW_KEY, before + [capture] + [events[0]], events[1]);
    assert before + [capture] + [events[0]] + [events[1]] == before + [capture] + events[..2];
    CountTwo(k2, events);
  }

  lemma CountTwo(k: KeyState, events: seq<Event>)
    requires |events| == 4 && Outcome(SETTINGS, k, events[0]) == Bypass
    requires Outcome(SETTINGS, Step(SETTINGS, Step(SETTINGS, k, events[0]), events[1]), events[2]) == Bypass
    ensures Bypasses(SETTINGS, k, events) >= 2
  {
    hide Step, Outcome;
    var one, two := events[1..], events[2..];
    assert one[0] == events[1] && one[1..] == two && two[0] == events[2];
    assert Bypasses(SETTINGS, Step(SETTINGS, Step(SETTINGS, k, events[0]), events[1]), two) >= 1;
  }

  lemma RejectedDecision(ctx: FrameContext)
    ensures DecisionOf(ctx, SoloGroup(Obj(1, "dog", "a", 0, BOX, None))) == Decided(ctx.pts, "a", ctx.frameNum)
  {
    hide GroupSignature;
    SignatureOfParent(Obj(1, "dog", "a", 0, BOX, None), []);
  }

  /** A parent that has nothing behind it is sent at once. */
  lemma NewParentSent(ctx: FrameContext, traces: Traces, log: seq<LogEntry>, x: Obj, r: Round)
    requires ctx.pts.At? && ctx.source == 0 && x == Car(1, "a", Some(Car(2, "", None))) && TraceAt(traces, 2) == []
    requires RoundOk(SETTINGS, FILTER, traces, log, ctx, SoloGroup(x), r)
    ensures r.published
    ensures TraceAt(GroupTraces(FILTER, ctx, traces, SoloGroup(x), true), 1)
         == TraceAt(traces, 1) + [Captured(ctx.pts, "a")]
  {
    hide GroupSignature, LastPayload, ChildTraces;
    SmallKey(1);
    SmallKey(2);
    hide ComposeKey;
    assert Accepts(FILTER, x.parent.value);
    var p, g := x.parent.value, SoloGroup(x);
    assert Run(SETTINGS, NEW_KEY, []) == NEW_KEY;
    assert r.decision == Outcome(SETTINGS, NEW_KEY, DecisionOf(ctx, g)) == FirstSeen;
    var decided := Append(traces, 2, DecisionOf(ctx, g));
    OneChild(ctx, Append(decided, 2, Captured(ctx.pts, GroupSignature(g.parent, g.children))), x);
  }

  /** A frame in which object 1, as the parent of object 3, shows `labels` and is bypassed. */
  lemma BypassSent(ctx: FrameContext, traces: Traces, log: seq<LogEntry>, labels: string, r: Round)
    requires ctx.source == 0
    requires
      var k := Run(SETTINGS, NEW_KEY, TraceAt(traces, 1));
      Outcome(SETTINGS, k, Decided(ctx.pts, labels, ctx.frameNum)) == Bypass
    requires RoundOk(SETTINGS, FILTER, traces, log, ctx, SoloGroup(Car(3, "", Some(Car(1, labels, None)))), r)
    ensures r.published
    ensures TraceAt(GroupTraces(FILTER, ctx, traces, SoloGroup(Car(3, "", Some(Car(1, labels, None)))), true), 1)
         == TraceAt(traces, 1) + [Decided(ctx.pts, labels, ctx.frameNum), Captured(ctx.pts, labels)]
  {
    hide GroupSignature, LastPayload, ChildTraces, Run, Outcome;
    var child, parent := Car(3, "", Some(Car(1, labels, None))), Car(1, labels, None);
    SmallKey(1);
    SmallKey(3);
    hide ComposeKey;
    UnlabelledChild(child);
    SignatureOfParent(parent, [child]);
    assert Accepts(FILTER, parent);
    var decided := Append(traces, 1, Decided(ctx.pts, labels, ctx.frameNum));
    OneChild(ctx, Append(decided, 1, Captured(ctx.pts, labels)), child);
  }

  /** The first frame: object 1 is decided, and not sent, because its label does not pass the filter. */
  lemma RejectedFirst(ctx: FrameContext, log: seq<LogEntry>, r: Round)
    requires ctx.source == 0
    requires RoundOk(SETTINGS, FILTER, map[], log, ctx, SoloGroup(Obj(1, "dog", "a", 0, BOX, None)), r)
    ensures !r.published
    ensures
      var after := GroupTraces(FILTER, ctx, map[], SoloGroup(Obj(1, "dog", "a", 0, BOX, None)), false);
      TraceAt(after, 1) == [Decided(ctx.pts, "a", ctx.frameNum)] && TraceAt(after, 2) == []
  {
    hide GroupSignature, LastPayload, Run, Outcome;
    SmallKey(1);
    hide ComposeKey;
    RejectedDecision(ctx);
    assert !Accepts(FILTER, Obj(1, "dog", "a", 0, BOX, None));
    var after := GroupTraces(FILTER, ctx, map[], SoloGroup(Obj(1, "dog", "a", 0, BOX, None)), false);
    assert after == Append(map[], 1, Decided(ctx.pts, "a", ctx.frameNum));
    assert after.Keys == {1};
  }

  /**
   * The run. At 1 s object 1 shows a label that the filter rejects: its FirstSeen decision fills the bucket and
   * is not sent. At 10 s it is captured as a child. From then on it shows an accepted label and is the parent of
   * object 3; its labels change twice, and both bypasses are sent: two within one second of the first capture,
   * with one token and a refill period of 10 s.
   */
  method OverspendingRun() returns (h: CropObjectHandler)
    ensures h.Valid() && h.cfg == SETTINGS && h.labelFilter == FILTER
    ensures
      var (before, capture, events) := Events();
      && h.TraceOf(1) == before + [capture] + events
      && NoCapture(before) && InWindow(before, 0, 10 * SECOND) && InWindow(events, 10 * SECOND, 11 * SECOND)
      && Bypasses(SETTINGS, Run(SETTINGS, NEW_KEY, before + [capture]), events)
         > SETTINGS.burstMax + (11 * SECOND - 10 * SECOND) / SETTINGS.refillNs
  {
    hide CropObjectHandler.Valid, RoundOk, GroupTraces, SoloGroup, Bypasses, Run, Outcome, Decide;
    Runs();
    h := new CropObjectHandler(SETTINGS, FILTER, 0);
    ghost var t, l := h.trace, h.log;

    var seen := FrameContext(0, At(1 * SECOND), 0, 1);
    ghost var r := ShowAlone(h, seen, Obj(1, "dog", "a", 0, BOX, None));
    RejectedFirst(seen, l, r);

    var taken := FrameContext(0, At(10 * SECOND), 0, 2);
    t, l := h.trace, h.log;
    r := ShowAlone(h, taken, Car(1, "a", Some(Car(2, "", None))));
    NewParentSent(taken, t, l, Car(1, "a", Some(Car(2, "", None))), r);

    ghost var (before, capture, events) := Events();
    assert h.TraceOf(1) == before + [capture];
    var first := FrameContext(0, At(10 * SECOND + 1), 0, 3);
    t, l := h.trace, h.log;
    r := ShowAlone(h, first, Car(3, "", Some(Car(1, "b", None))));
    BypassSent(first, t, l, "b", r);

    assert h.TraceOf(1) == before + [capture] + events[..2];
    var second := FrameContext(0, At(11 * SECOND), 0, 4);
    t, l := h.trace, h.log;
    r := ShowAlone(h, second, Car(3, "", Some(Car(1, "c", None))));
    BypassSent(second, t, l, "c", r);
    assert h.TraceOf(1) == before + [capture] + events;
  }
}
