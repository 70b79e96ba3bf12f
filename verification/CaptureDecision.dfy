/** The per-object capture decision (decide_capture, refill_tokens, attempt_bypass in crop_object_handler.cpp). */
module CaptureDecision {
  import opened Options

  /** A presentation time stamp, or GST_CLOCK_TIME_NONE. */
  datatype Pts = NoPts | At(ns: nat)

  datatype Decision = Skip | FirstSeen | Bypass | Heartbeat

  datatype Config = Config(
    burstMax: nat, kOn: nat, kOff: nat, kLabel: nat, refillNs: nat, gapNs: nat, intervalNs: nat)

  /** configure() clamps its inputs so that this holds. */
  ghost predicate Configured(cfg: Config) {
    cfg.kOn >= 1 && cfg.kOff >= 1 && cfg.kLabel >= 1 && cfg.refillNs >= 1
  }

  /** The decision part of ObjectPubState. */
  datatype Gate = Gate(
    lastSeenFrame: nat, onStable: nat, tokens: int, refill: Pts,
    lastSgie: string, pendingSgie: string, pendingCount: nat)

  const NEW_GATE := Gate(0, 0, 0, NoPts, "", "", 0)

  /** The narrowing to a 32-bit int. */
  function Wrap32(q: nat): (r: int)
    ensures r <= q && -0x8000_0000 <= r < 0x8000_0000 && (q - r) % 0x1_0000_0000 == 0
  {
    var low := q % 0x1_0000_0000;
    if low >= 0x8000_0000 then low - 0x1_0000_0000 else low
  }

  function RefillTokens(cfg: Config, g: Gate, now: Pts): Gate {
    if now.NoPts? then g
    else if g.refill.NoPts? then g.(refill := now, tokens := cfg.burstMax)
    else if now.ns <= g.refill.ns then g
    else
      var elapsed := now.ns - g.refill.ns;
      if cfg.refillNs == 0 || elapsed < cfg.refillNs then g
      else
        var filled := g.tokens + Wrap32(elapsed / cfg.refillNs);
        g.(tokens := if filled < cfg.burstMax then filled else cfg.burstMax, refill := now)
  }

  function ClearPending(g: Gate): Gate {
    g.(pendingSgie := "", pendingCount := 0)
  }

  predicate StableStep(cfg: Config, was: nat, frame: nat) {
    was > 0 && was < frame && frame - was <= cfg.kOff
  }

  function Observe(cfg: Config, g: Gate, frame: nat): Gate {
    g.(onStable := if StableStep(cfg, g.lastSeenFrame, frame) then g.onStable + 1 else 1, lastSeenFrame := frame)
  }

  function CheckLabel(cfg: Config, g: Gate, sig: string): (Gate, Decision) {
    var p := if g.pendingSgie == sig then g.(pendingCount := g.pendingCount + 1)
             else g.(pendingSgie := sig, pendingCount := 1);
    if p.pendingCount >= cfg.kLabel && p.tokens > 0 then (ClearPending(p.(tokens := p.tokens - 1)), Bypass)
    else (p, Skip)
  }

  /** Time since the last capture; zero when time stamps run backwards. */
  function Elapsed(last: Pts, now: Pts): nat
    requires last.At? && now.At?
  {
    if now.ns >= last.ns then now.ns - last.ns else 0
  }

  /** `cap` is the entry of last_capture_pts_, if any. */
  function Decide(cfg: Config, g: Gate, cap: Option<Pts>, pts: Pts, sig: string, frame: nat): (Gate, Decision) {
    var seen := Observe(cfg, g, frame);
    if seen.onStable < cfg.kOn then (seen, Skip)
    else if cap == None then
      (ClearPending(seen.(tokens := cfg.burstMax, lastSgie := sig, refill := if pts.At? then pts else seen.refill)),
       FirstSeen)
    else if cfg.intervalNs == 0 || cap.value.NoPts? || pts.NoPts? then (seen, Heartbeat)
    else
      var elapsed, filled := Elapsed(cap.value, pts), RefillTokens(cfg, seen, pts);
      if elapsed >= cfg.intervalNs then (ClearPending(filled), Heartbeat)
      else if elapsed < cfg.gapNs then (filled, Skip)
      else if sig == "" || sig == filled.lastSgie then (ClearPending(filled), Skip)
      else CheckLabel(cfg, filled, sig)
  }

  // ----- the life of one object key -----------------------------------------------------------------------

  /** A decision taken for the key, or a capture recorded for it (its own, or forced by its parent's group). */
  datatype Event = Decided(pts: Pts, sig: string, frame: nat) | Captured(pts: Pts, sig: string)

  datatype KeyState = KeyState(gate: Gate, cap: Option<Pts>)

  const NEW_KEY := KeyState(NEW_GATE, None)

  function Step(cfg: Config, k: KeyState, e: Event): KeyState {
    match e
    case Decided(pts, sig, frame) => k.(gate := Decide(cfg, k.gate, k.cap, pts, sig, frame).0)
    case Captured(pts, sig) => KeyState(k.gate.(lastSgie := sig), Some(pts))
  }

  function Outcome(cfg: Config, k: KeyState, e: Event): Decision {
    match e
    case Decided(pts, sig, frame) => Decide(cfg, k.gate, k.cap, pts, sig, frame).1
    case Captured(_, _) => Skip
  }

  function Run(cfg: Config, k: KeyState, events: seq<Event>): KeyState {
    if events == [] then k else Step(cfg, Run(cfg, k, events[..|events| - 1]), events[|events| - 1])
  }

  lemma RunSnoc(cfg: Config, k: KeyState, events: seq<Event>, e: Event)
    ensures Run(cfg, k, events + [e]) == Step(cfg, Run(cfg, k, events), e)
  {
    hide Step;
    assert (events + [e])[..|events|] == events;
  }

  lemma {:induction false} RunConcat(cfg: Config, k: KeyState, a: seq<Event>, b: seq<Event>)
    ensures Run(cfg, k, a + b) == Run(cfg, Run(cfg, k, a), b)
  {
    hide Step;
    if b == [] {
      assert a + b == a;
    } else {
      RunConcat(cfg, k, a, b[..|b| - 1]);
      assert (a + b)[..|a + b| - 1] == a + b[..|b| - 1];
    }
  }

  // ----- token bucket: how many bypasses -------------------------------------------------------------------

  ghost function Bypasses(cfg: Config, k: KeyState, events: seq<Event>): nat
    decreases |events|
  {
    if events == [] then 0
    else (if Outcome(cfg, k, events[0]) == Bypass then 1 else 0) + Bypasses(cfg, Step(cfg, k, events[0]), events[1..])
  }

  /** All time stamps are valid, nondecreasing, and lie in [from, to]. */
  ghost predicate InWindow(events: seq<Event>, from: nat, to: nat) {
    && (forall i :: 0 <= i < |events| ==> events[i].pts.At? && from <= events[i].pts.ns <= to)
    && (forall i, j :: 0 <= i < j < |events| ==>
          events[i].pts.At? && events[j].pts.At? && events[i].pts.ns <= events[j].pts.ns)
  }

  lemma DivAdds(a: nat, b: nat, d: nat)
    requires d > 0
    ensures a / d + b / d <= (a + b) / d
  {
    var qa, qb := a / d, b / d;
    assert a == d * qa + a % d && b == d * qb + b % d;
    MulDistributes(d, qa, qb);
    DivAtLeast(a + b, d, qa + qb);
  }

  lemma MulDistributes(d: nat, a: nat, b: nat)
    ensures d * (a + b) == d * a + d * b
  {
  }

  lemma DivAtLeast(x: nat, d: nat, q: nat)
    requires d > 0 && x >= d * q
    ensures x / d >= q
  {
    var p := x / d;
    assert x == d * p + x % d;
    assert d * (p + 1) == d * p + d > x;
    if p < q {
      MulMono(d, p + 1, q);
      assert false;
    }
  }

  lemma MulMono(d: nat, a: nat, b: nat)
    requires a <= b
    ensures d * a <= d * b
  {
    assert d * b == d * a + d * (b - a);
  }

  /** From refill point `r` (the start for a bucket never filled), the allowance up to time `to`. */
  ghost function Allowance(cfg: Config, g: Gate, from: nat, to: nat): int
    requires cfg.refillNs > 0 && from <= to && (g.refill.At? ==> g.refill.ns <= to)
  {
    match g.refill
    case NoPts => cfg.burstMax + (to - from) / cfg.refillNs
    case At(r) => (if g.tokens > 0 then g.tokens else 0) + (to - r) / cfg.refillNs
  }

  /** A decision for a captured key either leaves the bucket alone, or refills it and may then spend one token. */
  lemma DecideTokens(cfg: Config, g: Gate, last: Pts, pts: Pts, sig: string, frame: nat)
    ensures
      var (t, d) := Decide(cfg, g, Some(last), pts, sig, frame);
      var filled := RefillTokens(cfg, g, pts);
      || (d != Bypass && t.tokens == g.tokens && t.refill == g.refill)
      || (d != Bypass && t.tokens == filled.tokens && t.refill == filled.refill)
      || (d == Bypass && filled.tokens > 0 && t.tokens == filled.tokens - 1 && t.refill == filled.refill)
  {
    hide Wrap32;
  }

  /** Refilling at `p` never creates allowance, although it drops remainders and caps at the burst size. */
  lemma RefillAllowance(cfg: Config, g: Gate, p: nat, from: nat, to: nat)
    requires Configured(cfg) && from <= p <= to && (g.refill.At? ==> g.refill.ns <= p)
    ensures
      var t := RefillTokens(cfg, g, At(p));
      t.refill.At? && t.refill.ns <= p && Allowance(cfg, t, p, to) <= Allowance(cfg, g, from, to)
  {
    hide Wrap32;
    if g.refill.At? {
      DivAdds(p - g.refill.ns, to - p, cfg.refillNs);
      assert (p - g.refill.ns) + (to - p) == to - g.refill.ns;
    } else {
      DivAdds(p - from, to - p, cfg.refillNs);
    }
  }

  /** One event: what it spends plus what it leaves is within the allowance. */
  lemma AllowanceStep(cfg: Config, k: KeyState, e: Event, from: nat, to: nat)
    requires Configured(cfg) && k.cap.Some? && e.pts.At? && from <= e.pts.ns <= to
    requires k.gate.refill.At? ==> k.gate.refill.ns <= e.pts.ns
    ensures
      var t := Step(cfg, k, e);
      && t.cap.Some? && (t.gate.refill.At? ==> t.gate.refill.ns <= e.pts.ns)
      && (if Outcome(cfg, k, e) == Bypass then 1 else 0) + Allowance(cfg, t.gate, e.pts.ns, to)
           <= Allowance(cfg, k.gate, from, to)
  {
    hide Decide, RefillTokens, Allowance;
    var p := e.pts.ns;
    var filled := RefillTokens(cfg, k.gate, e.pts);
    RefillAllowance(cfg, k.gate, p, from, to);
    SameBucket(cfg, k.gate, Step(cfg, k, e).gate, p, from, to);
    if e.Decided? {
      DecideTokens(cfg, k.gate, k.cap.value, e.pts, e.sig, e.frame);
      assert Step(cfg, k, e).gate.refill.At? ==> Step(cfg, k, e).gate.refill.ns <= p;
      SpendOne(cfg, filled, Step(cfg, k, e).gate, p, to);
    }
  }

  lemma SameBucket(cfg: Config, g: Gate, t: Gate, p: nat, from: nat, to: nat)
    requires Configured(cfg) && from <= p <= to && (g.refill.At? ==> g.refill.ns <= p)
    ensures t.tokens == g.tokens && t.refill == g.refill ==> Allowance(cfg, t, p, to) <= Allowance(cfg, g, from, to)
  {
    DivAdds(p - from, to - p, cfg.refillNs);
  }

  lemma SpendOne(cfg: Config, g: Gate, t: Gate, p: nat, to: nat)
    requires Configured(cfg) && p <= to && g.refill.At? && g.refill.ns <= p
    requires t.refill.At? ==> t.refill.ns <= p
    ensures t.refill == g.refill && t.tokens == g.tokens ==> Allowance(cfg, t, p, to) == Allowance(cfg, g, p, to)
    ensures t.refill == g.refill && g.tokens > 0 && t.tokens == g.tokens - 1 ==>
      Allowance(cfg, t, p, to) + 1 == Allowance(cfg, g, p, to)
  {
  }

  lemma AllowanceNonnegative(cfg: Config, g: Gate, from: nat, to: nat)
    requires cfg.refillNs > 0 && from <= to && (g.refill.At? ==> g.refill.ns <= to)
    ensures Allowance(cfg, g, from, to) >= 0
  {
    DivAtLeast(to - (if g.refill.At? then g.refill.ns else from), cfg.refillNs, 0);
  }

  lemma WindowTail(events: seq<Event>, from: nat, to: nat)
    requires events != [] && InWindow(events, from, to)
    ensures events[0].pts.At? && from <= events[0].pts.ns <= to && InWindow(events[1..], events[0].pts.ns, to)
  {
  }

  lemma {:induction false} WithinAllowance(cfg: Config, k: KeyState, events: seq<Event>, from: nat, to: nat)
    requires Configured(cfg) && k.cap.Some? && from <= to && InWindow(events, from, to)
    requires k.gate.refill.At? ==> k.gate.refill.ns <= from
    ensures Bypasses(cfg, k, events) <= Allowance(cfg, k.gate, from, to)
    decreases |events|
  {
    hide Step, Outcome, Allowance, InWindow;
    if events == [] {
      AllowanceNonnegative(cfg, k.gate, from, to);
    } else {
      WindowTail(events, from, to);
      AllowanceStep(cfg, k, events[0], from, to);
      WithinAllowance(cfg, Step(cfg, k, events[0]), events[1..], events[0].pts.ns, to);
    }
  }

  /** The PTS of the last FirstSeen decision of a run that started with a new key. */
  ghost function LastFirstSeen(cfg: Config, events: seq<Event>): Option<Pts> {
    if events == [] then None
    else
      var before, last := events[..|events| - 1], events[|events| - 1];
      if Outcome(cfg, Run(cfg, NEW_KEY, before), last) == FirstSeen then Some(last.pts) else LastFirstSeen(cfg, before)
  }

  ghost predicate NoCapture(events: seq<Event>) {
    forall i :: 0 <= i < |events| ==> events[i].Decided?
  }

  /** Before the first capture the bucket is empty until FirstSeen decisions fill it. */
  lemma {:induction false} BeforeCapture(cfg: Config, events: seq<Event>)
    requires NoCapture(events) && forall i :: 0 <= i < |events| ==> events[i].pts.At?
    ensures
      var k := Run(cfg, NEW_KEY, events);
      && k.cap == None
      && match LastFirstSeen(cfg, events)
         case None => k.gate.refill == NoPts
         case Some(pts) => k.gate.refill == pts && k.gate.tokens == cfg.burstMax
  {
    if events != [] {
      BeforeCapture(cfg, events[..|events| - 1]);
    }
  }

  /**
   * Bypasses after the first capture at `t0`, in any run of the key: at most burst_max plus one for each
   * full refill period since the last FirstSeen decision (or since `t0` when the capture was forced on a
   * key that had none), although refills drop remainders and the cast to int may wrap.
   */
  lemma BypassBound(cfg: Config, before: seq<Event>, t0: nat, sig: string, events: seq<Event>, to: nat)
    requires Configured(cfg) && NoCapture(before) && InWindow(before, 0, t0) && t0 <= to && InWindow(events, t0, to)
    ensures
      var k := Run(cfg, NEW_KEY, before + [Captured(At(t0), sig)]);
      match LastFirstSeen(cfg, before)
      case Some(At(r)) => r <= t0 && Bypasses(cfg, k, events) <= cfg.burstMax + (to - r) / cfg.refillNs
      case _ => Bypasses(cfg, k, events) <= cfg.burstMax + (to - t0) / cfg.refillNs
  {
    hide Outcome, Decide, Bypasses, InWindow, LastFirstSeen;
    var all := before + [Captured(At(t0), sig)];
    assert all[..|all| - 1] == before;
    WindowStamped(before, 0, t0);
    BeforeCapture(cfg, before);
    FirstSeenInRun(cfg, before, t0);
    WithinAllowance(cfg, Run(cfg, NEW_KEY, all), events, t0, to);
  }

  lemma WindowStamped(events: seq<Event>, from: nat, to: nat)
    requires InWindow(events, from, to)
    ensures forall i :: 0 <= i < |events| ==> events[i].pts.At?
  {
  }

  lemma {:induction false} FirstSeenInRun(cfg: Config, events: seq<Event>, t0: nat)
    requires InWindow(events, 0, t0)
    ensures match LastFirstSeen(cfg, events)
            case Some(At(r)) => r <= t0
            case Some(NoPts) => false
            case None => true
  {
    if events != [] {
      FirstSeenInRun(cfg, events[..|events| - 1], t0);
    }
  }

  /** In any window of a captured key: at most burst_max plus the refill periods begun, rounded up. */
  lemma {:induction false} BypassWindow(cfg: Config, k: KeyState, events: seq<Event>, from: nat, to: nat)
    requires Configured(cfg) && k.cap.Some? && k.gate.tokens <= cfg.burstMax
    requires from <= to && InWindow(events, from, to) && (k.gate.refill.At? ==> k.gate.refill.ns <= from)
    ensures Bypasses(cfg, k, events) <= cfg.burstMax + (to - from + cfg.refillNs - 1) / cfg.refillNs
    decreases |events|
  {
    hide Decide, RefillTokens;
    if events != [] {
      var e, t := events[0], Step(cfg, k, events[0]);
      var p := e.pts.ns;
      if Outcome(cfg, k, e) != Bypass {
        TokensCapped(cfg, k, e);
        BypassWindow(cfg, t, events[1..], p, to);
        DivMono(to - p + cfg.refillNs - 1, to - from + cfg.refillNs - 1, cfg.refillNs);
      } else {
        FirstBypass(cfg, k, events, from, to);
      }
    }
  }

  lemma DivMono(a: nat, b: nat, d: nat)
    requires a <= b && d > 0
    ensures a / d <= b / d
  {
    assert a == d * (a / d) + a % d;
    DivAtLeast(b, d, a / d);
  }

  lemma TokensCapped(cfg: Config, k: KeyState, e: Event)
    requires Configured(cfg) && k.cap.Some? && k.gate.tokens <= cfg.burstMax && e.pts.At?
    requires k.gate.refill.At? ==> k.gate.refill.ns <= e.pts.ns
    ensures var t := Step(cfg, k, e);
      t.cap.Some? && t.gate.tokens <= cfg.burstMax && (t.gate.refill.At? ==> t.gate.refill.ns <= e.pts.ns)
  {
    hide Decide;
    if e.Decided? {
      DecideTokens(cfg, k.gate, k.cap.value, e.pts, e.sig, e.frame);
    }
  }

  /** At the first bypass of a window the bucket was filled less than one period ago. */
  lemma FirstBypass(cfg: Config, k: KeyState, events: seq<Event>, from: nat, to: nat)
    requires Configured(cfg) && k.cap.Some? && k.gate.tokens <= cfg.burstMax
    requires from <= to && InWindow(events, from, to) && (k.gate.refill.At? ==> k.gate.refill.ns <= from)
    requires events != [] && Outcome(cfg, k, events[0]) == Bypass
    ensures Bypasses(cfg, k, events) <= cfg.burstMax + (to - from + cfg.refillNs - 1) / cfg.refillNs
  {
    hide Decide, Wrap32;
    var e, t := events[0], Step(cfg, k, events[0]);
    var p := e.pts.ns;
    DecideTokens(cfg, k.gate, k.cap.value, e.pts, e.sig, e.frame);
    assert t.gate.refill.At? && p - cfg.refillNs < t.gate.refill.ns <= p && t.gate.tokens <= cfg.burstMax - 1;
    WithinAllowance(cfg, t, events[1..], p, to);
    DivMono(to - t.gate.refill.ns, to - from + cfg.refillNs - 1, cfg.refillNs);
  }

  /** Along a run tokens stay within the burst size and the refill point is never in the future. */
  lemma {:induction false} BucketInRun(cfg: Config, events: seq<Event>, to: nat)
    requires InWindow(events, 0, to)
    ensures var g := Run(cfg, NEW_KEY, events).gate;
      g.tokens <= cfg.burstMax && (g.refill.At? ==> g.refill.ns <= to)
  {
    hide Decide;
    if events != [] {
      BucketInRun(cfg, events[..|events| - 1], to);
      var k, e := Run(cfg, NEW_KEY, events[..|events| - 1]), events[|events| - 1];
      if e.Decided? {
        if k.cap.Some? {
          DecideTokens(cfg, k.gate, k.cap.value, e.pts, e.sig, e.frame);
        } else {
          DecideUncaptured(cfg, k.gate, e.pts, e.sig, e.frame);
        }
      }
    }
  }

  /** Before the first capture a decision either leaves the bucket alone or fills it (FirstSeen). */
  lemma DecideUncaptured(cfg: Config, g: Gate, pts: Pts, sig: string, frame: nat)
    ensures
      var (t, d) := Decide(cfg, g, None, pts, sig, frame);
      if d == FirstSeen then t.tokens == cfg.burstMax && t.refill == (if pts.At? then pts else g.refill)
      else d == Skip && t.tokens == g.tokens && t.refill == g.refill
  {
  }

  /** The window bound for a key in any state a run can leave, captured or not. */
  lemma {:induction false} BypassWindowFrom(cfg: Config, k: KeyState, events: seq<Event>, from: nat, to: nat)
    requires Configured(cfg) && k.gate.tokens <= cfg.burstMax
    requires from <= to && InWindow(events, from, to) && (k.gate.refill.At? ==> k.gate.refill.ns <= from)
    ensures Bypasses(cfg, k, events) <= cfg.burstMax + (to - from + cfg.refillNs - 1) / cfg.refillNs
    decreases |events|
  {
    hide Decide, RefillTokens, Wrap32;
    if k.cap.Some? {
      BypassWindow(cfg, k, events, from, to);
    } else if events != [] {
      var e, t := events[0], Step(cfg, k, events[0]);
      var p := e.pts.ns;
      if e.Decided? {
        DecideUncaptured(cfg, k.gate, e.pts, e.sig, e.frame);
      }
      BypassWindowFrom(cfg, t, events[1..], p, to);
      DivMono(to - p + cfg.refillNs - 1, to - from + cfg.refillNs - 1, cfg.refillNs);
    }
  }

  /** The window bound for every run of a key and every window of it, also one that holds the first capture. */
  lemma BypassWindowInRun(cfg: Config, before: seq<Event>, events: seq<Event>, from: nat, to: nat)
    requires Configured(cfg) && InWindow(before, 0, from) && from <= to && InWindow(events, from, to)
    ensures Bypasses(cfg, Run(cfg, NEW_KEY, before), events)
         <= cfg.burstMax + (to - from + cfg.refillNs - 1) / cfg.refillNs
  {
    BucketInRun(cfg, before, from);
    BypassWindowFrom(cfg, Run(cfg, NEW_KEY, before), events, from, to);
  }

  // ----- frame hysteresis ------------------------------------------------------------------------------------

  ghost function Frames(events: seq<Event>): seq<nat> {
    if events == [] then []
    else
      var last := events[|events| - 1];
      Frames(events[..|events| - 1]) + (match last case Decided(_, _, frame) => [frame] case Captured(_, _) => [])
  }

  /** From position `c` on, every frame follows its predecessor by at most k_off frames. */
  ghost predicate StableFrom(cfg: Config, frames: seq<nat>, c: nat) {
    c <= |frames| && forall i :: c < i < |frames| ==> Follows(cfg, frames[i - 1], frames[i])
  }

  ghost predicate Follows(cfg: Config, was: nat, frame: nat) {
    0 < was < frame <= was + cfg.kOff
  }

  lemma StepFollows(cfg: Config, was: nat, frame: nat)
    ensures StableStep(cfg, was, frame) <==> Follows(cfg, was, frame)
  {
  }

  /** on_stable_count is the length of the longest suffix of observed frames with stable steps only. */
  lemma {:induction false} StableCount(cfg: Config, events: seq<Event>)
    ensures
      var frames, g := Frames(events), Run(cfg, NEW_KEY, events).gate;
      && g.onStable <= |frames| && (frames == [] <==> g.onStable == 0)
      && g.lastSeenFrame == (if frames == [] then 0 else frames[|frames| - 1])
      && StableFrom(cfg, frames, |frames| - g.onStable)
      && forall c :: 0 <= c < |frames| - g.onStable ==> !StableFrom(cfg, frames, c)
  {
    hide RefillTokens, CheckLabel;
    if events != [] {
      var before, last := events[..|events| - 1], events[|events| - 1];
      StableCount(cfg, before);
      if last.Decided? {
        var frames, g := Frames(before), Run(cfg, NEW_KEY, before).gate;
        DecideObserves(cfg, g, Run(cfg, NEW_KEY, before).cap, last.pts, last.sig, last.frame);
        StablePush(cfg, frames, last.frame, |frames| - g.onStable);
        StepFollows(cfg, g.lastSeenFrame, last.frame);
      } else {
        assert Frames(events) == Frames(before);
      }
    }
  }

  lemma DecideObserves(cfg: Config, g: Gate, cap: Option<Pts>, pts: Pts, sig: string, frame: nat)
    ensures
      var (t, d) := Decide(cfg, g, cap, pts, sig, frame);
      && t.lastSeenFrame == frame && t.onStable == Observe(cfg, g, frame).onStable
      && (d != Skip ==> t.onStable >= cfg.kOn)
  {
    hide Wrap32;
  }

  lemma StablePush(cfg: Config, frames: seq<nat>, frame: nat, c: nat)
    requires StableFrom(cfg, frames, c) && forall d :: 0 <= d < c ==> !StableFrom(cfg, frames, d)
    requires frames != [] ==> c < |frames|
    ensures
      var longer := frames + [frame];
      var start := if frames != [] && Follows(cfg, frames[|frames| - 1], frame) then c else |frames|;
      StableFrom(cfg, longer, start) && forall d :: 0 <= d < start ==> !StableFrom(cfg, longer, d)
  {
    hide Follows;
    var longer, n := frames + [frame], |frames|;
    assert forall i :: 0 <= i < n ==> longer[i] == frames[i];
    if n > 0 && Follows(cfg, frames[n - 1], frame) {
      assert StableFrom(cfg, longer, c);
      forall d | 0 <= d < c ensures !StableFrom(cfg, longer, d) {
        StableStays(cfg, frames, frame, d);
      }
    } else {
      forall d | 0 <= d < n ensures !StableFrom(cfg, longer, d) {
        assert longer[n - 1] == frames[n - 1] && longer[n] == frame;
      }
    }
  }

  lemma StableStays(cfg: Config, frames: seq<nat>, frame: nat, d: nat)
    requires d <= |frames| && !StableFrom(cfg, frames, d)
    ensures !StableFrom(cfg, frames + [frame], d)
  {
    hide Follows;
    var i :| d < i < |frames| && !Follows(cfg, frames[i - 1], frames[i]);
    assert (frames + [frame])[i - 1] == frames[i - 1] && (frames + [frame])[i] == frames[i];
  }

  // ----- the decision read off the history --------------------------------------------------------------------

  /** The latest observations of the key, at least k_on of them, follow each other closely. */
  ghost predicate Stable(cfg: Config, events: seq<Event>) {
    var frames := Frames(events);
    |frames| >= cfg.kOn && StableFrom(cfg, frames, |frames| - cfg.kOn)
  }

  /** The time stamp of the last capture, if any. */
  ghost function CapturedAt(events: seq<Event>): Option<Pts> {
    if events == [] then None
    else if events[|events| - 1].Captured? then Some(events[|events| - 1].pts)
    else CapturedAt(events[..|events| - 1])
  }

  /** The signature of the last capture or first sighting: the one a change is measured against. */
  ghost function ShownSig(cfg: Config, events: seq<Event>): string {
    if events == [] then ""
    else
      var before, last := events[..|events| - 1], events[|events| - 1];
      if last.Captured? || (Stable(cfg, events) && CapturedAt(before) == None) then last.sig else ShownSig(cfg, before)
  }

  /** Intervals apply, and both the last capture and this decision carry a time. */
  ghost predicate Timed(cfg: Config, before: seq<Event>, e: Event) {
    cfg.intervalNs > 0 && CapturedAt(before).Some? && CapturedAt(before).value.At? && e.pts.At?
  }

  ghost predicate IntervalOver(cfg: Config, before: seq<Event>, e: Event)
    requires Timed(cfg, before, e)
  {
    e.pts.ns >= CapturedAt(before).value.ns + cfg.intervalNs
  }

  ghost predicate GapOver(cfg: Config, before: seq<Event>, e: Event)
    requires Timed(cfg, before, e)
  {
    cfg.gapNs == 0 || e.pts.ns >= CapturedAt(before).value.ns + cfg.gapNs
  }

  /** A decision between the gap and the interval: the label matters. */
  ghost predicate LabelTurn(cfg: Config, before: seq<Event>, e: Event) {
    e.Decided? && Stable(cfg, before + [e]) && Timed(cfg, before, e)
    && !IntervalOver(cfg, before, e) && GapOver(cfg, before, e)
  }

  ghost predicate LabelChanged(cfg: Config, before: seq<Event>, e: Event) {
    e.sig != "" && e.sig != ShownSig(cfg, before)
  }

  /** A changed label at its k_label-th turn in a row, with a token left. */
  ghost predicate BypassDue(cfg: Config, before: seq<Event>, e: Event)
    requires Configured(cfg)
    decreases |before|, 1
  {
    LabelTurn(cfg, before, e) && LabelChanged(cfg, before, e)
    && ChecksInARow(cfg, before, e.sig) + 1 >= cfg.kLabel
    && Refilled(cfg, BucketAt(cfg, before), e.pts.ns).tokens > 0
  }

  /** Turns with the changed label `sig` since anything else was published, due, unchanged or showed another label. */
  ghost function ChecksInARow(cfg: Config, events: seq<Event>, sig: string): nat
    requires Configured(cfg)
    decreases |events|, 0
  {
    if events == [] then 0
    else
      var before, e := events[..|events| - 1], events[|events| - 1];
      if e.Captured? || !Stable(cfg, events) then ChecksInARow(cfg, before, sig)
      else if CapturedAt(before) == None then 0
      else if !Timed(cfg, before, e) then ChecksInARow(cfg, before, sig)
      else if IntervalOver(cfg, before, e) then 0
      else if !GapOver(cfg, before, e) then ChecksInARow(cfg, before, sig)
      else if !LabelChanged(cfg, before, e) || BypassDue(cfg, before, e) || e.sig != sig then 0
      else ChecksInARow(cfg, before, sig) + 1
  }

  /** Tokens, and the time they were last filled up to. */
  datatype Bucket = Bucket(tokens: int, filled: Pts)

  /** One token for every full period since the bucket was last filled, at most burst_max. */
  ghost function Refilled(cfg: Config, b: Bucket, now: nat): Bucket
    requires Configured(cfg)
  {
    if b.filled.NoPts? then Bucket(cfg.burstMax, At(now))
    else if now < b.filled.ns + cfg.refillNs then b
    else
      var tokens := b.tokens + Wrap32((now - b.filled.ns) / cfg.refillNs);
      Bucket(if tokens <= cfg.burstMax then tokens else cfg.burstMax, At(now))
  }

  /** Full at the first sighting; from then on refilled at every timed decision, and a bypass takes one. */
  ghost function BucketAt(cfg: Config, events: seq<Event>): Bucket
    requires Configured(cfg)
    decreases |events|, 0
  {
    if events == [] then Bucket(0, NoPts)
    else
      var before, e := events[..|events| - 1], events[|events| - 1];
      var b := BucketAt(cfg, before);
      if e.Captured? || !Stable(cfg, events) then b
      else if CapturedAt(before) == None then Bucket(cfg.burstMax, if e.pts.At? then e.pts else b.filled)
      else if !Timed(cfg, before, e) then b
      else
        var full := Refilled(cfg, b, e.pts.ns);
        if BypassDue(cfg, before, e) then full.(tokens := full.tokens - 1) else full
  }

  /** After `n` full periods there are `n` more tokens, or burst_max of them. */
  lemma RefilledByPeriods(cfg: Config, b: Bucket, now: nat, n: nat)
    requires Configured(cfg) && b.filled.At? && n < 0x8000_0000
    requires b.filled.ns + n * cfg.refillNs <= now < b.filled.ns + (n + 1) * cfg.refillNs
    requires b.tokens <= cfg.burstMax
    ensures
      var r := Refilled(cfg, b, now);
      && r.tokens == (if b.tokens + n <= cfg.burstMax then b.tokens + n else cfg.burstMax)
      && r.filled == if n == 0 then b.filled else At(now)
  {
    QuotientIs(now - b.filled.ns, cfg.refillNs, n);
    if n > 0 {
      assert n * cfg.refillNs >= cfg.refillNs by { MulMono(cfg.refillNs, 1, n); }
      Narrowed(n);
    }
  }

  lemma Narrowed(n: nat)
    requires n < 0x8000_0000
    ensures Wrap32(n) == n
  {
  }

  lemma QuotientIs(x: nat, d: nat, n: nat)
    requires d > 0 && n * d <= x < (n + 1) * d
    ensures x / d == n
  {
    DivAtLeast(x, d, n);
    var q := x / d;
    assert x == d * q + x % d;
    if q > n {
      MulMono(d, n + 1, q);
      assert false;
    }
  }

  /** The stored state of a key is what its history says. */
  ghost predicate Mirrors(cfg: Config, k: KeyState, events: seq<Event>)
    requires Configured(cfg)
  {
    && k.cap == CapturedAt(events) && k.gate.lastSgie == ShownSig(cfg, events)
    && Bucket(k.gate.tokens, k.gate.refill) == BucketAt(cfg, events)
    && forall sig :: sig != "" ==>
      ChecksInARow(cfg, events, sig) == if k.gate.pendingSgie == sig then k.gate.pendingCount else 0
  }

  lemma StableNow(cfg: Config, before: seq<Event>, e: Event)
    requires Configured(cfg) && e.Decided?
    ensures Observe(cfg, Run(cfg, NEW_KEY, before).gate, e.frame).onStable >= cfg.kOn <==> Stable(cfg, before + [e])
  {
    hide Decide, Run, Frames, Follows;
    var k := Run(cfg, NEW_KEY, before);
    RunSnoc(cfg, NEW_KEY, before, e);
    DecideObserves(cfg, k.gate, k.cap, e.pts, e.sig, e.frame);
    StableCount(cfg, before + [e]);
  }

  lemma RefillMeans(cfg: Config, g: Gate, now: nat)
    requires Configured(cfg)
    ensures
      var t := RefillTokens(cfg, g, At(now));
      && Bucket(t.tokens, t.refill) == Refilled(cfg, Bucket(g.tokens, g.refill), now)
      && t == g.(tokens := t.tokens, refill := t.refill)
  {
    hide Wrap32;
  }

  /** The decision on a captured key, in terms of what its history says. */
  lemma TurnMeans(cfg: Config, k: KeyState, before: seq<Event>, e: Event)
    requires Configured(cfg) && e.Decided? && Mirrors(cfg, k, before) && Stable(cfg, before + [e])
    requires Observe(cfg, k.gate, e.frame).onStable >= cfg.kOn && CapturedAt(before).Some?
    ensures
      var (t, d) := Decide(cfg, k.gate, k.cap, e.pts, e.sig, e.frame);
      if !Timed(cfg, before, e) || IntervalOver(cfg, before, e) then d == Heartbeat
      else d == if BypassDue(cfg, before, e) then Bypass else Skip
  {
    hide RefillTokens, Refilled, Stable, CapturedAt, ShownSig, ChecksInARow, BucketAt, StableStep;
    if Timed(cfg, before, e) {
      RefillMeans(cfg, Observe(cfg, k.gate, e.frame), e.pts.ns);
    }
  }

  lemma HistorySnoc(cfg: Config, before: seq<Event>, e: Event, sig: string)
    requires Configured(cfg)
    ensures CapturedAt(before + [e]) == if e.Captured? then Some(e.pts) else CapturedAt(before)
    ensures ShownSig(cfg, before + [e]) ==
      if e.Captured? || (Stable(cfg, before + [e]) && CapturedAt(before) == None) then e.sig else ShownSig(cfg, before)
    ensures BucketAt(cfg, before + [e]) ==
      var b := BucketAt(cfg, before);
      if e.Captured? || !Stable(cfg, before + [e]) then b
      else if CapturedAt(before) == None then Bucket(cfg.burstMax, if e.pts.At? then e.pts else b.filled)
      else if !Timed(cfg, before, e) then b
      else
        var full := Refilled(cfg, b, e.pts.ns);
        if BypassDue(cfg, before, e) then full.(tokens := full.tokens - 1) else full
    ensures ChecksInARow(cfg, before + [e], sig) ==
      if e.Captured? || !Stable(cfg, before + [e]) then ChecksInARow(cfg, before, sig)
      else if CapturedAt(before) == None then 0
      else if !Timed(cfg, before, e) then ChecksInARow(cfg, before, sig)
      else if IntervalOver(cfg, before, e) then 0
      else if !GapOver(cfg, before, e) then ChecksInARow(cfg, before, sig)
      else if !LabelChanged(cfg, before, e) || BypassDue(cfg, before, e) || e.sig != sig then 0
      else ChecksInARow(cfg, before, sig) + 1
  {
    hide Refilled, Stable, Timed, IntervalOver, GapOver, LabelChanged, BypassDue;
    var all := before + [e];
    assert all[..|all| - 1] == before && all[|all| - 1] == e;
  }

  lemma CaptureMirrors(cfg: Config, k: KeyState, before: seq<Event>, e: Event)
    requires Configured(cfg) && Mirrors(cfg, k, before) && e.Captured?
    ensures Mirrors(cfg, Step(cfg, k, e), before + [e])
  {
    hide Refilled, Stable, CapturedAt, ShownSig, ChecksInARow, BucketAt;
    HistorySnoc(cfg, before, e, "");
    forall sig: string ensures ChecksInARow(cfg, before + [e], sig) == ChecksInARow(cfg, before, sig) {
      HistorySnoc(cfg, before, e, sig);
    }
  }

  lemma DecisionMirrors(cfg: Config, k: KeyState, before: seq<Event>, e: Event)
    requires Configured(cfg) && Mirrors(cfg, k, before) && e.Decided?
    requires Observe(cfg, k.gate, e.frame).onStable >= cfg.kOn <==> Stable(cfg, before + [e])
    ensures Mirrors(cfg, Step(cfg, k, e), before + [e])
  {
    hide RefillTokens, Refilled, Stable, CapturedAt, ShownSig, ChecksInARow, BucketAt, StableStep;
    if e.pts.At? {
      RefillMeans(cfg, Observe(cfg, k.gate, e.frame), e.pts.ns);
    }
    var t := Step(cfg, k, e);
    HistorySnoc(cfg, before, e, "");
    assert t.cap == CapturedAt(before + [e]) && t.gate.lastSgie == ShownSig(cfg, before + [e]);
    forall sig: string | sig != ""
      ensures ChecksInARow(cfg, before + [e], sig) == if t.gate.pendingSgie == sig then t.gate.pendingCount else 0
    {
      HistorySnoc(cfg, before, e, sig);
    }
    assert Bucket(t.gate.tokens, t.gate.refill) == BucketAt(cfg, before + [e]);
  }

  /** In every run the stored state of the key is what its history says. */
  lemma {:induction false} StateMirrors(cfg: Config, events: seq<Event>)
    requires Configured(cfg)
    ensures Mirrors(cfg, Run(cfg, NEW_KEY, events), events)
  {
    hide Step, Observe, Stable, Mirrors;
    if events == [] {
      NothingMirrored(cfg);
    } else {
      var before, e := events[..|events| - 1], events[|events| - 1];
      assert events == before + [e];
      StateMirrors(cfg, before);
      if e.Decided? {
        StableNow(cfg, before, e);
        DecisionMirrors(cfg, Run(cfg, NEW_KEY, before), before, e);
      } else {
        CaptureMirrors(cfg, Run(cfg, NEW_KEY, before), before, e);
      }
    }
  }

  lemma NothingMirrored(cfg: Config)
    requires Configured(cfg)
    ensures Mirrors(cfg, NEW_KEY, [])
  {
  }

  /**
   * Which decision a key gets, read off its history alone. Before its first capture a stable key is "first seen".
   * After that a stable key gets a heartbeat when no interval or no time stamp applies or the interval since the
   * last capture is over, whatever its label; a bypass exactly when one is due; and nothing otherwise.
   */
  lemma DecisionIff(cfg: Config, before: seq<Event>, e: Event)
    requires Configured(cfg) && e.Decided?
    ensures
      var d, stable := Outcome(cfg, Run(cfg, NEW_KEY, before), e), Stable(cfg, before + [e]);
      && (d == FirstSeen <==> stable && NoCapture(before))
      && (d == Heartbeat <==> stable && !NoCapture(before)
                              && (!Timed(cfg, before, e) || IntervalOver(cfg, before, e)))
      && (d == Bypass <==> BypassDue(cfg, before, e))
  {
    hide Mirrors, Stable, Run, Frames, Follows, Decide;
    var k := Run(cfg, NEW_KEY, before);
    StateMirrors(cfg, before);
    StableNow(cfg, before, e);
    CapturedIff(before);
    if Stable(cfg, before + [e]) && CapturedAt(before).Some? {
      TurnMeans(cfg, k, before, e);
    } else {
      QuietMeans(cfg, k, before, e);
    }
  }

  lemma QuietMeans(cfg: Config, k: KeyState, before: seq<Event>, e: Event)
    requires Configured(cfg) && e.Decided? && Mirrors(cfg, k, before)
    requires Observe(cfg, k.gate, e.frame).onStable < cfg.kOn || CapturedAt(before) == None
    ensures
      Decide(cfg, k.gate, k.cap, e.pts, e.sig, e.frame).1
      == if Observe(cfg, k.gate, e.frame).onStable < cfg.kOn then Skip else FirstSeen
  {
    hide StableStep, CapturedAt, ShownSig, ChecksInARow, BucketAt;
  }

  lemma {:induction false} CapturedIff(events: seq<Event>)
    ensures CapturedAt(events) == None <==> NoCapture(events)
  {
    if events != [] {
      CapturedIff(events[..|events| - 1]);
    }
  }

  ghost predicate LastCaptureAt(events: seq<Event>, j: int) {
    0 <= j < |events| && events[j].Captured? && forall i :: j < i < |events| ==> events[i].Decided?
  }

  /** The captured time stamp is that of the last capture. */
  lemma {:induction false} CaptureMark(cfg: Config, events: seq<Event>, j: int)
    requires LastCaptureAt(events, j)
    ensures CapturedAt(events) == Some(events[j].pts) == Run(cfg, NEW_KEY, events).cap
  {
    if j < |events| - 1 {
      CaptureMark(cfg, events[..|events| - 1], j);
    }
  }

  /** Nothing is published before k_on observations in a row. */
  lemma PublishNeedsStability(cfg: Config, events: seq<Event>, e: Event)
    requires Configured(cfg) && Outcome(cfg, Run(cfg, NEW_KEY, events), e) != Skip
    ensures
      var frames := Frames(events + [e]);
      |frames| >= cfg.kOn && StableFrom(cfg, frames, |frames| - cfg.kOn)
  {
    hide Run, Frames, Timed, IntervalOver, LabelChanged, ChecksInARow;
    DecisionIff(cfg, events, e);
  }

  /** The pending counter of the code is the number of turns in a row. */
  lemma PendingCount(cfg: Config, events: seq<Event>, sig: string)
    requires Configured(cfg) && sig != ""
    ensures
      var g := Run(cfg, NEW_KEY, events).gate;
      ChecksInARow(cfg, events, sig) == (if g.pendingSgie == sig then g.pendingCount else 0)
  {
    hide Run, ChecksInARow, BucketAt, ShownSig, CapturedAt;
    StateMirrors(cfg, events);
  }

  /** A bypass is the k_label-th check in a row of one nonempty signature that differs from the published one. */
  lemma BypassNeedsStableLabel(cfg: Config, events: seq<Event>, e: Event)
    requires Configured(cfg) && Outcome(cfg, Run(cfg, NEW_KEY, events), e) == Bypass
    ensures e.sig != "" && e.sig != Run(cfg, NEW_KEY, events).gate.lastSgie == ShownSig(cfg, events)
    ensures ChecksInARow(cfg, events, e.sig) + 1 >= cfg.kLabel
  {
    hide Run, ChecksInARow, BucketAt, ShownSig, CapturedAt, LabelTurn;
    DecisionIff(cfg, events, e);
    StateMirrors(cfg, events);
  }

  /**
   * A stable key whose last capture is at least the interval old gets a heartbeat, whatever its label: an object
   * that never changes is still published once per interval.
   */
  lemma HeartbeatWhenDue(cfg: Config, before: seq<Event>, e: Event, j: int)
    requires Configured(cfg) && cfg.intervalNs > 0 && e.Decided? && Stable(cfg, before + [e])
    requires LastCaptureAt(before, j) && before[j].pts.At? && e.pts.At?
    requires e.pts.ns >= before[j].pts.ns + cfg.intervalNs
    ensures Outcome(cfg, Run(cfg, NEW_KEY, before), e) == Heartbeat
  {
    hide Stable, Run;
    CaptureMark(cfg, before, j);
    CapturedIff(before);
    DecisionIff(cfg, before, e);
  }

  // ----- capture spacing ---------------------------------------------------------------------------------------

  /** Every capture directly follows a publishing decision at the same time stamp. */
  ghost predicate OwnCaptures(cfg: Config, events: seq<Event>) {
    forall j :: 0 <= j < |events| && events[j].Captured? ==> OwnCapture(cfg, events, j)
  }

  ghost predicate OwnCapture(cfg: Config, events: seq<Event>, j: nat)
    requires j < |events|
  {
    && j > 0 && events[j - 1].Decided? && events[j - 1].pts == events[j].pts
    && Outcome(cfg, Run(cfg, NEW_KEY, events[..j - 1]), events[j - 1]) != Skip
  }

  /** Consecutive captures are at least min(capture_interval, bypass_min_gap) apart. */
  lemma CapturesApart(cfg: Config, events: seq<Event>, i: nat, j: nat, to: nat)
    requires cfg.intervalNs > 0 && OwnCaptures(cfg, events) && InWindow(events, 0, to)
    requires i < j < |events| && events[i].Captured? && events[j].Captured?
    requires forall m :: i < m < j ==> events[m].Decided?
    ensures events[j].pts.ns - events[i].pts.ns >= (if cfg.intervalNs < cfg.gapNs then cfg.intervalNs else cfg.gapNs)
  {
    hide RefillTokens, CheckLabel;
    assert OwnCapture(cfg, events, j);
    var before := events[..j - 1];
    assert LastCaptureAt(before, i);
    CaptureMark(cfg, before, i);
    var e := events[j - 1];
    CheckGivesBypass(cfg, RefillTokens(cfg, Observe(cfg, Run(cfg, NEW_KEY, before).gate, e.frame), e.pts), e.sig);
  }

  lemma CheckGivesBypass(cfg: Config, g: Gate, sig: string)
    ensures CheckLabel(cfg, g, sig).1 in {Skip, Bypass}
  {
  }
}
