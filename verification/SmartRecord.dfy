/**
 * Smart-record sessions (smart_record_probe_handler.cpp). Each locked section is one atomic step; the
 * sr-done callback may run between any two of them.
 */
module SmartRecord {
  import opened Options

  /** Settings in whole seconds; `maxConcurrent` 0 means no limit. */
  datatype Config = Config(preEvent: nat, postEvent: nat, minInterval: nat, maxConcurrent: int, labels: seq<string>)

  datatype Session = Session(id: nat, startTime: nat, durationSec: nat)

  datatype SourceState = SourceState(lastRecordTime: Option<nat>, session: Option<Session>)

  const IDLE := SourceState(None, None)
  const SECOND := 1_000_000_000
  const GRACE := 5 * SECOND
  const CLOCK_LIMIT := 0x1_0000_0000_0000_0000

  type States = map<nat, SourceState>

  function StateOf(states: States, source: nat): SourceState {
    if source in states then states[source] else IDLE
  }

  function ActiveSources(states: States): set<nat> {
    set source | source in states && states[source].session.Some?
  }

  function Deadline(session: Session): nat {
    session.startTime + session.durationSec * SECOND + GRACE
  }

  /** Where the recorded data begins: the trigger time less the pre-event buffer. */
  function ActualStart(cfg: Config, now: nat): nat {
    if now > cfg.preEvent * SECOND then now - cfg.preEvent * SECOND else 0
  }

  /** Unsigned 64-bit subtraction. */
  function Minus64(a: nat, b: nat): int {
    if a >= b then a - b else a + CLOCK_LIMIT - b
  }

  // ----- the locked sections on values -----------------------------------------------------------

  function Expire(st: SourceState, now: nat): SourceState {
    if st.session.Some? && now > Deadline(st.session.value) then st.(session := None) else st
  }

  function Cleaned(states: States, now: nat): States {
    map source | source in states :: Expire(states[source], now)
  }

  predicate BelowLimit(cfg: Config, states: States) {
    cfg.maxConcurrent > 0 ==> |ActiveSources(states)| < cfg.maxConcurrent
  }

  predicate IntervalPassed(cfg: Config, st: SourceState, now: nat) {
    st.lastRecordTime.Some? ==> Minus64(now, st.lastRecordTime.value) >= cfg.minInterval * SECOND
  }

  predicate CanStart(cfg: Config, states: States, source: nat, now: nat) {
    var st := StateOf(states, source);
    st.session.None? && BelowLimit(cfg, states) && IntervalPassed(cfg, st, now)
  }

  function Started(cfg: Config, states: States, source: nat, id: nat, now: nat): States {
    states[source := SourceState(Some(ActualStart(cfg, now)), Some(Session(id, now, cfg.preEvent + cfg.postEvent)))]
  }

  function Done(states: States, source: nat): States {
    if source in states then states[source := states[source].(session := None)] else states
  }

  // ----- the invariant ---------------------------------------------------------------------------

  /** One recording that was started. */
  datatype Start = Start(source: nat, now: nat)

  ghost function LastStart(trace: seq<Start>, source: nat): Option<nat> {
    if trace == [] then None
    else if trace[|trace| - 1].source == source then Some(trace[|trace| - 1].now)
    else LastStart(trace[..|trace| - 1], source)
  }

  ghost predicate InOrder(trace: seq<Start>, clock: nat) {
    (forall i, j :: 0 <= i < j < |trace| ==> trace[i].now <= trace[j].now)
    && forall i :: 0 <= i < |trace| ==> trace[i].now <= clock
  }

  /** The minimum interval runs from where the first recording's data begins, `preEvent` seconds before its trigger. */
  ghost predicate SpacedPair(cfg: Config, first: Start, second: Start) {
    first.source == second.source ==>
      second.now >= (if first.now > cfg.preEvent * SECOND then first.now - cfg.preEvent * SECOND else 0)
                    + cfg.minInterval * SECOND
  }

  /** Any two starts of a source are the minimum interval apart, counted from the first one's recorded data. */
  ghost predicate Spaced(cfg: Config, trace: seq<Start>) {
    forall i, j :: 0 <= i < j < |trace| ==> SpacedPair(cfg, trace[i], trace[j])
  }

  /** The state of a source reflects its last start. */
  ghost predicate Matches(cfg: Config, st: SourceState, last: Option<nat>) {
    match last
    case None => st == IDLE
    case Some(t) =>
      st.lastRecordTime == Some(if t > cfg.preEvent * SECOND then t - cfg.preEvent * SECOND else 0)
      && (st.session.Some? ==>
            st.session.value.startTime == t && st.session.value.durationSec == cfg.preEvent + cfg.postEvent)
  }

  ghost predicate AllMatch(cfg: Config, states: States, trace: seq<Start>) {
    forall source :: Matches(cfg, StateOf(states, source), LastStart(trace, source))
  }

  ghost predicate WithinLimit(cfg: Config, states: States) {
    cfg.maxConcurrent > 0 ==> |ActiveSources(states)| <= cfg.maxConcurrent
  }

  ghost predicate Inv(cfg: Config, states: States, trace: seq<Start>, clock: nat) {
    clock < CLOCK_LIMIT && InOrder(trace, clock) && Spaced(cfg, trace) && AllMatch(cfg, states, trace)
    && WithinLimit(cfg, states)
  }

  /** No session has outlived its recording time and the grace period. */
  ghost predicate AllInTime(states: States, now: nat) {
    forall source :: StateOf(states, source).session.Some? ==> InTime(StateOf(states, source).session.value, now)
  }

  ghost predicate InTime(session: Session, now: nat) {
    now <= session.startTime + (session.durationSec + 5) * SECOND
  }

  /** `b` is `a` after some sessions were cleared. */
  ghost predicate OnlyCleared(a: States, b: States) {
    forall source ::
      StateOf(b, source) == StateOf(a, source) || StateOf(b, source) == StateOf(a, source).(session := None)
  }

  lemma ClearedActive(a: States, b: States)
    requires OnlyCleared(a, b)
    ensures ActiveSources(b) <= ActiveSources(a) && |ActiveSources(b)| <= |ActiveSources(a)|
  {
    forall source | source in ActiveSources(b) ensures source in ActiveSources(a) {
      assert StateOf(b, source).session.Some?;
    }
    SubsetSize(ActiveSources(b), ActiveSources(a));
  }

  lemma {:induction false} SubsetSize(a: set<nat>, b: set<nat>)
    requires a <= b
    ensures |a| <= |b|
  {
    if a != {} {
      var x :| x in a;
      SubsetSize(a - {x}, b - {x});
    }
  }

  /** Clearing sessions, by sr-done or by expiry, keeps the invariant. */
  lemma ClearingKeeps(cfg: Config, a: States, b: States, trace: seq<Start>, clock: nat)
    requires Inv(cfg, a, trace, clock) && OnlyCleared(a, b)
    ensures Inv(cfg, b, trace, clock)
  {
    hide InOrder, Spaced, LastStart, ActiveSources;
    ClearedActive(a, b);
    forall source ensures Matches(cfg, StateOf(b, source), LastStart(trace, source)) {
      assert Matches(cfg, StateOf(a, source), LastStart(trace, source));
    }
  }

  lemma ClearingKeepsInTime(a: States, b: States, now: nat)
    requires AllInTime(a, now) && OnlyCleared(a, b)
    ensures AllInTime(b, now)
  {
    forall source | StateOf(b, source).session.Some?
      ensures InTime(StateOf(b, source).session.value, now)
    {
      assert StateOf(b, source) == StateOf(a, source);
    }
  }

  /** A source that may start still may after any sr-done callbacks. */
  lemma ClearingKeepsCanStart(cfg: Config, a: States, b: States, source: nat, now: nat)
    requires CanStart(cfg, a, source, now) && OnlyCleared(a, b)
    ensures CanStart(cfg, b, source, now)
  {
    ClearedActive(a, b);
    hide ActiveSources;
    assert StateOf(b, source) == StateOf(a, source) || StateOf(b, source) == StateOf(a, source).(session := None);
  }

  lemma CleanedOnlyClears(states: States, now: nat)
    ensures OnlyCleared(states, Cleaned(states, now)) && AllInTime(Cleaned(states, now), now)
  {
  }

  lemma DoneOnlyClears(states: States, source: nat)
    ensures OnlyCleared(states, Done(states, source))
  {
  }

  lemma {:induction false} LastStartIsLatest(trace: seq<Start>, source: nat, clock: nat, i: nat)
    requires InOrder(trace, clock) && i < |trace| && trace[i].source == source
    ensures LastStart(trace, source).Some? && trace[i].now <= LastStart(trace, source).value <= clock
  {
    var n := |trace| - 1;
    if trace[n].source != source {
      FrontInOrder(trace, clock);
      LastStartIsLatest(trace[..n], source, clock, i);
    }
  }

  lemma FrontInOrder(trace: seq<Start>, clock: nat)
    requires InOrder(trace, clock) && trace != []
    ensures InOrder(trace[..|trace| - 1], clock)
  {
  }

  lemma LastStartSnoc(trace: seq<Start>, s: Start, source: nat)
    ensures LastStart(trace + [s], source) == if s.source == source then Some(s.now) else LastStart(trace, source)
  {
    assert (trace + [s])[..|trace|] == trace;
  }

  /** A permitted start keeps the spacing: the stored start time stands for all earlier starts of the source. */
  lemma StartKeepsSpacing(cfg: Config, states: States, trace: seq<Start>, source: nat, now: nat)
    requires Inv(cfg, states, trace, now) && IntervalPassed(cfg, StateOf(states, source), now)
    ensures Spaced(cfg, trace + [Start(source, now)])
  {
    hide LastStart, ActiveSources;
    var all := trace + [Start(source, now)];
    forall i, j | 0 <= i < j < |all| ensures SpacedPair(cfg, all[i], all[j]) {
      if j == |trace| {
        if trace[i].source == source {
          LastStartIsLatest(trace, source, now, i);
          assert Matches(cfg, StateOf(states, source), LastStart(trace, source));
        }
      } else {
        assert SpacedPair(cfg, trace[i], trace[j]);
      }
    }
  }

  lemma StartedActive(cfg: Config, states: States, source: nat, id: nat, now: nat)
    ensures ActiveSources(Started(cfg, states, source, id, now)) == ActiveSources(states) + {source}
  {
  }

  /** Starting under the conditions of the check keeps the invariant. */
  lemma StartKeeps(cfg: Config, states: States, trace: seq<Start>, source: nat, id: nat, now: nat)
    requires Inv(cfg, states, trace, now) && CanStart(cfg, states, source, now)
    ensures Inv(cfg, Started(cfg, states, source, id, now), trace + [Start(source, now)], now)
  {
    StartedActive(cfg, states, source, id, now);
    StartKeepsSpacing(cfg, states, trace, source, now);
    hide ActiveSources, Spaced, LastStart;
    var after, s := Started(cfg, states, source, id, now), Start(source, now);
    forall other ensures Matches(cfg, StateOf(after, other), LastStart(trace + [s], other)) {
      LastStartSnoc(trace, s, other);
      assert Matches(cfg, StateOf(states, other), LastStart(trace, other));
    }
    assert WithinLimit(cfg, after);
  }

  lemma StartKeepsInTime(cfg: Config, states: States, source: nat, id: nat, now: nat)
    requires AllInTime(states, now)
    ensures AllInTime(Started(cfg, states, source, id, now), now)
  {
    var after := Started(cfg, states, source, id, now);
    forall other | StateOf(after, other).session.Some?
      ensures InTime(StateOf(after, other).session.value, now)
    {
      if other != source {
        assert StateOf(after, other) == StateOf(states, other);
      }
    }
  }

  // ----- what the invariant gives ------------------------------------------------------------------

  /**
   * No source is locked out by a missing sr-done: once its own last recording is past its deadline and its
   * interval is over, the next batch may start it as soon as the limit has room, whatever the others do.
   */
  lemma NeverLockedOut(cfg: Config, states: States, trace: seq<Start>, clock: nat, source: nat, t: nat, now: nat)
    requires Inv(cfg, states, trace, clock) && clock <= now && LastStart(trace, source) == Some(t)
    requires now > t + (cfg.preEvent + cfg.postEvent + 5) * SECOND
    requires now >= (if t > cfg.preEvent * SECOND then t - cfg.preEvent * SECOND else 0) + cfg.minInterval * SECOND
    ensures CanStart(cfg, Cleaned(states, now), source, now) <==> BelowLimit(cfg, Cleaned(states, now))
  {
    hide LastStart, Spaced, ActiveSources;
    LastStartInTrace(trace, source, clock);
    assert Matches(cfg, StateOf(states, source), LastStart(trace, source));
  }

  /** A session is given up by the cleanup exactly when its recording time and five seconds of grace are over. */
  lemma ExpiredIff(cfg: Config, states: States, trace: seq<Start>, clock: nat, source: nat, now: nat)
    requires Inv(cfg, states, trace, clock) && StateOf(states, source).session.Some?
    ensures LastStart(trace, source).Some?
    ensures StateOf(Cleaned(states, now), source).session == None
      <==> now > LastStart(trace, source).value + (cfg.preEvent + cfg.postEvent + 5) * 1_000_000_000
  {
    hide LastStart, Spaced, ActiveSources;
    assert Matches(cfg, StateOf(states, source), LastStart(trace, source));
  }

  /** The room comes back by itself: when every recording is past its deadline any source may start. */
  lemma LimitFreesItself(cfg: Config, states: States, trace: seq<Start>, clock: nat, now: nat)
    requires Inv(cfg, states, trace, clock)
    requires now > clock + (cfg.preEvent + cfg.postEvent + 5) * SECOND
    ensures BelowLimit(cfg, Cleaned(states, now))
  {
    hide LastStart, Spaced;
    var after := Cleaned(states, now);
    forall other ensures StateOf(after, other).session.None? {
      assert Matches(cfg, StateOf(states, other), LastStart(trace, other));
      LastStartInTrace(trace, other, clock);
    }
    assert ActiveSources(after) == {} by {
      assert forall other :: other in ActiveSources(after) ==> StateOf(after, other).session.Some?;
    }
  }

  lemma {:induction false} LastStartInTrace(trace: seq<Start>, source: nat, clock: nat)
    requires InOrder(trace, clock)
    ensures LastStart(trace, source).Some? ==> LastStart(trace, source).value <= clock
  {
    if trace != [] {
      FrontInOrder(trace, clock);
      LastStartInTrace(trace[..|trace| - 1], source, clock);
    }
  }

  /** A source is refused exactly for one of the three reasons, read off the starts and the active sessions. */
  lemma RefusedIff(cfg: Config, states: States, trace: seq<Start>, source: nat, now: nat)
    requires Inv(cfg, states, trace, now)
    ensures !CanStart(cfg, states, source, now) <==>
      source in ActiveSources(states)
      || (cfg.maxConcurrent > 0 && |ActiveSources(states)| == cfg.maxConcurrent)
      || exists i :: 0 <= i < |trace| && !SpacedPair(cfg, trace[i], Start(source, now))
  {
    hide Spaced, LastStart;
    assert Matches(cfg, StateOf(states, source), LastStart(trace, source));
    if IntervalPassed(cfg, StateOf(states, source), now) {
      StartKeepsSpacing(cfg, states, trace, source, now);
      SpacedLast(cfg, trace, Start(source, now));
    } else {
      var i := LastStartIndex(trace, source, now);
      assert !SpacedPair(cfg, trace[i], Start(source, now));
    }
  }

  lemma SpacedLast(cfg: Config, trace: seq<Start>, s: Start)
    requires Spaced(cfg, trace + [s])
    ensures forall i :: 0 <= i < |trace| ==> SpacedPair(cfg, trace[i], s)
  {
    var all := trace + [s];
    forall i | 0 <= i < |trace| ensures SpacedPair(cfg, trace[i], s) {
      assert SpacedPair(cfg, all[i], all[|trace|]);
    }
  }

  lemma {:induction false} LastStartIndex(trace: seq<Start>, source: nat, clock: nat) returns (i: nat)
    requires InOrder(trace, clock) && LastStart(trace, source).Some?
    ensures i < |trace| && trace[i] == Start(source, LastStart(trace, source).value) && trace[i].now <= clock
  {
    i := |trace| - 1;
    if trace[i].source != source {
      FrontInOrder(trace, clock);
      i := LastStartIndex(trace[..i], source, clock);
    }
  }

  /**
   * A source whose recording finishes at once may be started again at the same instant exactly when the
   * interval does not exceed the pre-event time available: one start per source and batch is not enforced.
   */
  lemma RestartAtOnceIff(cfg: Config, states: States, source: nat, id: nat, now: nat)
    requires CanStart(cfg, states, source, now)
    ensures CanStart(cfg, Done(Started(cfg, states, source, id, now), source), source, now)
      <==> if now > cfg.preEvent * SECOND then cfg.minInterval <= cfg.preEvent else cfg.minInterval * SECOND <= now
  {
    var after := Done(Started(cfg, states, source, id, now), source);
    assert ActiveSources(after) == ActiveSources(states);
    hide ActiveSources;
  }

  /** sr-done carries no session: a late one for an expired session clears the session started after it. */
  lemma LateDoneClearsNewSession(cfg: Config, states: States, source: nat, first: nat, second: nat, t: nat, now: nat)
    requires CanStart(cfg, states, source, t) && now < CLOCK_LIMIT
    requires now > t + (cfg.preEvent + cfg.postEvent + 5) * SECOND && now - t >= cfg.minInterval * SECOND
    requires BelowLimit(cfg, Cleaned(Started(cfg, states, source, first, t), now))
    ensures
      var expired := Cleaned(Started(cfg, states, source, first, t), now);
      var again := Started(cfg, expired, source, second, now);
      CanStart(cfg, expired, source, now)
      && again[source].session == Some(Session(second, now, cfg.preEvent + cfg.postEvent))
      && Done(again, source)[source].session == None
  {
    hide ActiveSources;
  }

  // ----- the handler -------------------------------------------------------------------------------

  datatype Frame = Frame(source: nat, objectLabels: seq<string>)

  predicate Triggers(cfg: Config, f: Frame) {
    f.objectLabels != []
    && (cfg.labels == [] || exists k :: 0 <= k < |f.objectLabels| && f.objectLabels[k] in cfg.labels)
  }

  class Handler {
    const cfg: Config
    var sourceStates: States
    /** All starts so far, and the clock reading of the latest batch. */
    ghost var trace: seq<Start>
    ghost var clock: nat
    /** Permitted starts given up because the source element was not found. */
    ghost var missing: nat

    ghost predicate Valid()
      reads this
    {
      Inv(cfg, sourceStates, trace, clock)
    }

    constructor (cfg: Config)
      ensures Valid() && this.cfg == cfg && sourceStates == map[] && trace == [] && clock == 0
    {
      this.cfg := cfg;
      sourceStates, trace, clock, missing := map[], [], 0, 0;
    }

    method CleanupExpiredSessions(now: nat)
      modifies this`sourceStates
      ensures sourceStates == Cleaned(old(sourceStates), now)
    {
      var remaining := sourceStates.Keys;
      while remaining != {}
        invariant remaining <= old(sourceStates).Keys == sourceStates.Keys
        invariant forall s :: s in sourceStates ==>
          sourceStates[s] == if s in remaining then old(sourceStates)[s] else Expire(old(sourceStates)[s], now)
        decreases |remaining|
      {
        var source :| source in remaining;
        remaining := remaining - {source};
        var state := sourceStates[source];
        if state.session.Some? {
          var session := state.session.value;
          var expected := session.durationSec * SECOND;
          var deadline := session.startTime + expected + GRACE;
          if now > deadline {
            sourceStates := sourceStates[source := state.(session := None)];
          }
        }
      }
    }

    method CountActiveRecordings() returns (count: nat)
      ensures count == |ActiveSources(sourceStates)|
    {
      count := 0;
      var remaining := sourceStates.Keys;
      ghost var counted: set<nat> := {};
      while remaining != {}
        invariant remaining <= sourceStates.Keys && counted !! remaining && count == |counted|
        invariant counted == set s | s in sourceStates && s !in remaining && sourceStates[s].session.Some?
        decreases |remaining|
      {
        var source :| source in remaining;
        remaining := remaining - {source};
        if sourceStates[source].session.Some? {
          count := count + 1;
          counted := counted + {source};
        }
      }
      assert counted == ActiveSources(sourceStates);
    }

    method CanStartRecording(source: nat, now: nat) returns (ok: bool)
      modifies this`sourceStates
      ensures sourceStates == old(sourceStates)[source := StateOf(old(sourceStates), source)]
      ensures ok == CanStart(cfg, old(sourceStates), source, now)
    {
      var state := StateOf(sourceStates, source);
      sourceStates := sourceStates[source := state];
      assert ActiveSources(sourceStates) == ActiveSources(old(sourceStates));
      if state.session.Some? {
        return false;
      }
      if cfg.maxConcurrent > 0 {
        var active := CountActiveRecordings();
        if active >= cfg.maxConcurrent {
          return false;
        }
      }
      if state.lastRecordTime.Some? {
        if Minus64(now, state.lastRecordTime.value) < cfg.minInterval * SECOND {
          return false;
        }
      }
      ok := true;
    }

    method OnRecordingDone(source: nat)
      modifies this`sourceStates
      ensures sourceStates == Done(old(sourceStates), source)
      ensures old(Valid()) ==> Valid()
    {
      hide Inv;
      if Valid() {
        DoneOnlyClears(sourceStates, source);
        ClearingKeeps(cfg, sourceStates, Done(sourceStates, source), trace, clock);
      }
      if source in sourceStates && sourceStates[source].session.Some? {
        sourceStates := sourceStates[source := sourceStates[source].(session := None)];
      }
    }

    /** Any number of sr-done callbacks, for any sources. */
    method Interleave()
      modifies this`sourceStates
      ensures OnlyCleared(old(sourceStates), sourceStates)
    {
      var rounds: int := *;
      if rounds < 0 {
        rounds := 0;
      }
      for i := 0 to rounds
        invariant OnlyCleared(old(sourceStates), sourceStates)
      {
        var source: nat := *;
        DoneOnlyClears(sourceStates, source);
        OnRecordingDone(source);
      }
    }

    /** The second half of start_recording: stores the session under the lock. */
    method StoreSession(source: nat, id: nat, now: nat)
      requires Valid() && clock == now && CanStart(cfg, sourceStates, source, now)
      modifies this`sourceStates, this`trace
      ensures Valid() && clock == now
      ensures sourceStates == Started(cfg, old(sourceStates), source, id, now)
      ensures source in sourceStates && sourceStates[source].lastRecordTime
        == Some(if now > cfg.preEvent * SECOND then now - cfg.preEvent * SECOND else 0)
      ensures sourceStates[source].session == Some(Session(id, now, cfg.preEvent + cfg.postEvent))
      ensures trace == old(trace) + [Start(source, now)]
    {
      hide Inv, CanStart;
      StartKeeps(cfg, sourceStates, trace, source, id, now);
      var session := Session(id, now, cfg.preEvent + cfg.postEvent);
      var preEventNs := cfg.preEvent * SECOND;
      var actualStart := if now > preEventNs then now - preEventNs else 0;
      sourceStates := sourceStates[source := SourceState(Some(actualStart), Some(session))];
      trace := trace + [Start(source, now)];
    }

    /**
     * Check and start for one triggering frame; callbacks run between the check, the signal and the store.
     * `base` and `begun` are the states and the number of starts when the batch began.
     */
    method TryStart(source: nat, now: nat, ghost base: States, ghost begun: nat)
      requires Valid() && clock == now && AllInTime(sourceStates, now)
      requires begun <= |trace| && Since(base, begun, sourceStates, trace)
      modifies this
      ensures Valid() && clock == now && AllInTime(sourceStates, now)
      ensures Since(base, begun, sourceStates, trace)
      ensures if CanStart(cfg, old(sourceStates), source, now) then
          (trace == old(trace) + [Start(source, now)] && missing == old(missing))
          || (trace == old(trace) && missing == old(missing) + 1)
        else trace == old(trace) && missing == old(missing)
    {
      hide Inv, AllInTime, OnlyCleared, CanStart, Since;
      ghost var before := sourceStates;
      var ok := CanStartRecording(source, now);
      TouchClearsNothing(before, source);
      label Checked:
      Interleave();
      ClearedTwice(before, old@Checked(sourceStates), sourceStates);
      ClearingKeeps(cfg, before, sourceStates, trace, clock);
      ClearingKeepsInTime(before, sourceStates, now);
      ClearingKeepsSince(base, begun, before, sourceStates, trace);
      if ok {
        var found: bool := *;
        if !found {
          missing := missing + 1;
          return;
        }
        ClearingKeepsCanStart(cfg, before, sourceStates, source, now);
        var id: nat := *;
        StartKeepsInTime(cfg, sourceStates, source, id, now);
        StartKeepsSince(cfg, base, begun, sourceStates, trace, source, id, now);
        StoreSession(source, id, now);
      }
    }

    /**
     * One batch. Sessions past their deadline are cleared first. Every start is for a triggering frame,
     * and if no source element was missing every triggering source was started in this batch, unless the
     * check refused it from the start or the starts of this batch used up the limit.
     */
    method ProcessBatch(frames: seq<Frame>, now: nat)
      requires Valid() && clock <= now < CLOCK_LIMIT
      modifies this
      ensures Valid() && clock == now && AllInTime(sourceStates, now)
      ensures old(trace) <= trace && |trace| <= |old(trace)| + |frames|
      ensures forall k :: |old(trace)| <= k < |trace| ==> trace[k].now == now && Triggered(cfg, frames, trace[k].source)
      ensures missing == old(missing) ==>
        forall i :: 0 <= i < |frames| && Triggers(cfg, frames[i]) ==>
          Served(cfg, Cleaned(old(sourceStates), now), |old(trace)|, trace, frames[i].source, now)
    {
      hide AllInTime, OnlyCleared, CanStart, Triggers, Triggered, Since, Served;
      LaterClock(cfg, sourceStates, trace, clock, now);
      hide Inv;
      ghost var base, begun := Cleaned(sourceStates, now), |trace|;
      CleanedOnlyClears(sourceStates, now);
      ClearingKeeps(cfg, sourceStates, base, trace, now);
      CleanupExpiredSessions(now);
      NothingSince(base, trace);
      clock := now;
      for i := 0 to |frames|
        invariant Valid() && clock == now && AllInTime(sourceStates, now)
        invariant begun == |old(trace)| && Since(base, begun, sourceStates, trace)
        invariant old(trace) <= trace && |trace| <= |old(trace)| + i && missing >= old(missing)
        invariant forall k :: |old(trace)| <= k < |trace| ==>
          trace[k].now == now && Triggered(cfg, frames, trace[k].source)
        invariant missing == old(missing) ==>
          forall j :: 0 <= j < i && Triggers(cfg, frames[j]) ==> Served(cfg, base, begun, trace, frames[j].source, now)
      {
        label Before:
        Interleave();
        ghost var earlier := trace;
        ClearingKeeps(cfg, old@Before(sourceStates), sourceStates, trace, clock);
        ClearingKeepsInTime(old@Before(sourceStates), sourceStates, now);
        ClearingKeepsSince(base, begun, old@Before(sourceStates), sourceStates, trace);
        var trigger := FirstMatch(frames[i]);
        if trigger {
          TriggeredAt(cfg, frames, i);
          RefusedServed(cfg, base, begun, sourceStates, trace, frames[i].source, now);
          TryStart(frames[i].source, now, base, begun);
          StartedServed(cfg, base, begun, earlier, trace, frames[i].source, now);
        }
        forall j | 0 <= j < i && Served(cfg, base, begun, earlier, frames[j].source, now)
          ensures Served(cfg, base, begun, trace, frames[j].source, now)
        {
          StaysServed(cfg, base, begun, earlier, trace, frames[j].source, now);
        }
      }
    }

    /** The loop over the objects of a frame: stops at the first one that passes the label filter. */
    method FirstMatch(f: Frame) returns (trigger: bool)
      ensures trigger == Triggers(cfg, f)
      ensures trigger <==>
        exists k :: 0 <= k < |f.objectLabels| && (cfg.labels == [] || f.objectLabels[k] in cfg.labels)
    {
      trigger := false;
      for k := 0 to |f.objectLabels|
        invariant k > 0 ==> cfg.labels != []
        invariant forall m :: 0 <= m < k ==> f.objectLabels[m] !in cfg.labels
      {
        if cfg.labels != [] && f.objectLabels[k] !in cfg.labels {
          continue;
        }
        return true;
      }
    }
  }

  ghost predicate StartedIn(trace: seq<Start>, begun: nat, source: nat) {
    exists k :: begun <= k < |trace| && trace[k].source == source
  }

  /** Sources not started since the batch began have only had sessions cleared. */
  ghost predicate Since(base: States, begun: nat, states: States, trace: seq<Start>) {
    forall source ::
      || StartedIn(trace, begun, source)
      || StateOf(states, source) == StateOf(base, source)
      || StateOf(states, source) == StateOf(base, source).(session := None)
  }

  /** Started in this batch, or refused from its start, or the limit is used up. */
  ghost predicate Served(cfg: Config, base: States, begun: nat, trace: seq<Start>, source: nat, now: nat) {
    || StartedIn(trace, begun, source)
    || !CanStart(cfg, base, source, now)
    || (cfg.maxConcurrent > 0 && |ActiveSources(base)| + |trace| - begun >= cfg.maxConcurrent)
  }

  lemma NothingSince(base: States, trace: seq<Start>)
    ensures Since(base, |trace|, base, trace)
  {
  }

  lemma ClearingKeepsSince(base: States, begun: nat, a: States, b: States, trace: seq<Start>)
    requires Since(base, begun, a, trace) && OnlyCleared(a, b)
    ensures Since(base, begun, b, trace)
  {
    hide StartedIn;
    forall source | !StartedIn(trace, begun, source)
      ensures StateOf(b, source) == StateOf(base, source)
           || StateOf(b, source) == StateOf(base, source).(session := None)
    {
      assert StateOf(b, source) == StateOf(a, source) || StateOf(b, source) == StateOf(a, source).(session := None);
    }
  }

  lemma StartKeepsSince(cfg: Config, base: States, begun: nat, states: States, trace: seq<Start>, source: nat,
                        id: nat, now: nat)
    requires Since(base, begun, states, trace) && begun <= |trace|
    ensures Since(base, begun, Started(cfg, states, source, id, now), trace + [Start(source, now)])
  {
    var longer := trace + [Start(source, now)];
    assert longer[|trace|].source == source;
    forall other ensures StartedIn(trace, begun, other) ==> StartedIn(longer, begun, other) {
      StartedStays(trace, longer, begun, other);
    }
  }

  lemma StartedStays(earlier: seq<Start>, trace: seq<Start>, begun: nat, source: nat)
    requires earlier <= trace
    ensures StartedIn(earlier, begun, source) ==> StartedIn(trace, begun, source)
  {
    if StartedIn(earlier, begun, source) {
      var k :| begun <= k < |earlier| && earlier[k].source == source;
      assert trace[k].source == source;
    }
  }

  /** The sessions of a batch are at most those it began with and those it started. */
  lemma ActiveSince(base: States, begun: nat, states: States, trace: seq<Start>)
    requires Since(base, begun, states, trace) && begun <= |trace|
    ensures |ActiveSources(states)| <= |ActiveSources(base)| + |trace| - begun
  {
    var added := SourcesFrom(trace, begun);
    forall source | source in ActiveSources(states) ensures source in ActiveSources(base) + added {
      if StartedIn(trace, begun, source) {
        var k :| begun <= k < |trace| && trace[k].source == source;
      } else {
        assert StateOf(states, source).session.Some?;
      }
    }
    SubsetSize(ActiveSources(states), ActiveSources(base) + added);
    FewSources(trace, begun);
  }

  ghost function SourcesFrom(trace: seq<Start>, begun: nat): set<nat> {
    set k | begun <= k < |trace| :: trace[k].source
  }

  lemma {:induction false} FewSources(trace: seq<Start>, begun: nat)
    requires begun <= |trace|
    ensures |SourcesFrom(trace, begun)| <= |trace| - begun
    decreases |trace|
  {
    if begun == |trace| {
      assert SourcesFrom(trace, begun) == {};
    } else {
      var front, last := trace[..|trace| - 1], trace[|trace| - 1];
      FewSources(front, begun);
      assert SourcesFrom(trace, begun) == SourcesFrom(front, begun) + {last.source};
    }
  }

  lemma RefusedServed(cfg: Config, base: States, begun: nat, states: States, trace: seq<Start>, source: nat, now: nat)
    requires Since(base, begun, states, trace) && begun <= |trace|
    ensures !CanStart(cfg, states, source, now) ==> Served(cfg, base, begun, trace, source, now)
  {
    hide ActiveSources, StartedIn;
    ActiveSince(base, begun, states, trace);
  }

  lemma StartedServed(cfg: Config, base: States, begun: nat, earlier: seq<Start>, trace: seq<Start>, source: nat,
                      now: nat)
    requires begun <= |earlier|
    ensures trace == earlier + [Start(source, now)] ==> Served(cfg, base, begun, trace, source, now)
  {
    if trace == earlier + [Start(source, now)] {
      assert trace[|earlier|].source == source;
    }
  }

  lemma StaysServed(cfg: Config, base: States, begun: nat, earlier: seq<Start>, trace: seq<Start>, source: nat,
                    now: nat)
    requires earlier <= trace && Served(cfg, base, begun, earlier, source, now)
    ensures Served(cfg, base, begun, trace, source, now)
  {
    hide CanStart, ActiveSources;
    StartedStays(earlier, trace, begun, source);
  }

  ghost predicate Triggered(cfg: Config, frames: seq<Frame>, source: nat) {
    exists i :: 0 <= i < |frames| && frames[i].source == source && Triggers(cfg, frames[i])
  }

  lemma TriggeredAt(cfg: Config, frames: seq<Frame>, i: nat)
    requires i < |frames| && Triggers(cfg, frames[i])
    ensures Triggered(cfg, frames, frames[i].source)
  {
  }

  lemma LaterClock(cfg: Config, states: States, trace: seq<Start>, clock: nat, now: nat)
    requires Inv(cfg, states, trace, clock) && clock <= now < CLOCK_LIMIT
    ensures Inv(cfg, states, trace, now)
  {
    hide Spaced, AllMatch, WithinLimit;
  }

  lemma TouchClearsNothing(states: States, source: nat)
    ensures OnlyCleared(states, states[source := StateOf(states, source)])
  {
  }

  lemma ClearedTwice(a: States, b: States, c: States)
    requires OnlyCleared(a, b) && OnlyCleared(b, c)
    ensures OnlyCleared(a, c)
  {
    forall source
      ensures StateOf(c, source) == StateOf(a, source) || StateOf(c, source) == StateOf(a, source).(session := None)
    {
      assert StateOf(b, source) == StateOf(a, source) || StateOf(b, source) == StateOf(a, source).(session := None);
      assert StateOf(c, source) == StateOf(b, source) || StateOf(c, source) == StateOf(b, source).(session := None);
    }
  }
}
