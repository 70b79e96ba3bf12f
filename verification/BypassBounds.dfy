/** Exactly when the number of bypasses is bounded by the time since the first capture. */
module BypassBounds {
  import opened Options
  import opened CaptureDecision

  // ----- the bound and its condition -------------------------------------------------------------

  ghost function Captures(cfg: Config, before: seq<Event>, t0: nat, sig: string): KeyState {
    Run(cfg, NEW_KEY, before + [Captured(At(t0), sig)])
  }

  /** From a first capture at `t0` on, at most burst_max bypasses and one more per full refill period. */
  ghost predicate Bounded(cfg: Config, k: KeyState, t0: nat)
    requires cfg.refillNs > 0
  {
    forall events: seq<Event>, to: nat :: t0 <= to && InWindow(events, t0, to) ==>
      Bypasses(cfg, k, events) <= cfg.burstMax + (to - t0) / cfg.refillNs
  }

  /**
   * The bucket was filled before `t0`, by a FirstSeen decision that was not published, and can be emptied
   * before that filling is one refill period old.
   */
  ghost predicate FilledEarly(cfg: Config, before: seq<Event>, t0: nat) {
    && cfg.burstMax > 0 && cfg.gapNs < cfg.intervalNs
    && match LastFirstSeen(cfg, before)
       case Some(At(r)) => r < t0 && t0 + cfg.gapNs < r + cfg.refillNs
       case _ => false
  }

  // ----- without early filling the bound holds ---------------------------------------------------

  lemma {:induction false} NoTokens(cfg: Config, k: KeyState, events: seq<Event>, from: nat, to: nat)
    requires Configured(cfg) && k.cap.Some? && k.gate.tokens <= 0 && cfg.burstMax == 0
    requires InWindow(events, from, to) && (k.gate.refill.At? ==> k.gate.refill.ns <= from)
    ensures Bypasses(cfg, k, events) == 0
    decreases |events|
  {
    hide Decide;
    if events != [] {
      var e := events[0];
      TokensCapped(cfg, k, e);
      if e.Decided? {
        DecideTokens(cfg, k.gate, k.cap.value, e.pts, e.sig, e.frame);
      }
      NoTokens(cfg, Step(cfg, k, e), events[1..], e.pts.ns, to);
    }
  }

  /** An interval no longer than the gap leaves no time for a bypass. */
  lemma {:induction false} NoTime(cfg: Config, k: KeyState, events: seq<Event>)
    requires k.cap.Some? && cfg.intervalNs <= cfg.gapNs
    ensures Bypasses(cfg, k, events) == 0
    decreases |events|
  {
    hide RefillTokens, CheckLabel;
    if events != [] {
      NoTime(cfg, Step(cfg, k, events[0]), events[1..]);
    }
  }

  /** While the gap lasts a decision neither bypasses nor, before the first refill, touches the bucket. */
  lemma GapHolds(cfg: Config, k: KeyState, e: Event, r: nat)
    requires k.cap.Some? && k.cap.value.At? && e.Decided? && e.pts.At? && k.gate.refill == At(r)
    requires r <= e.pts.ns < r + cfg.refillNs && k.cap.value.ns <= e.pts.ns < k.cap.value.ns + cfg.gapNs
    ensures
      var t := Step(cfg, k, e);
      Outcome(cfg, k, e) != Bypass && t.cap == k.cap && t.gate.tokens == k.gate.tokens && t.gate.refill == At(r)
  {
    hide CheckLabel;
  }

  /** A full bucket that cannot be touched before its first refill is as good as one filled at `t0`. */
  lemma {:induction false} FullAtRefill(
    cfg: Config, k: KeyState, events: seq<Event>, r: nat, t0: nat, from: nat, to: nat)
    requires Configured(cfg) && k.cap.Some? && k.cap.value.At? && t0 <= k.cap.value.ns <= from
    requires k.gate.tokens == cfg.burstMax && k.gate.refill == At(r) && r <= t0 && r + cfg.refillNs <= t0 + cfg.gapNs
    requires from <= to && InWindow(events, from, to)
    ensures Bypasses(cfg, k, events) <= cfg.burstMax + (to - t0) / cfg.refillNs
    decreases |events|
  {
    hide Decide, RefillTokens, CheckLabel;
    if events != [] {
      var e, t := events[0], Step(cfg, k, events[0]);
      var p := e.pts.ns;
      if e.Captured? {
        FullAtRefill(cfg, t, events[1..], r, t0, p, to);
      } else if p < r + cfg.refillNs {
        GapHolds(cfg, k, e, r);
        FullAtRefill(cfg, t, events[1..], r, t0, p, to);
      } else {
        FirstRefill(cfg, k, e, r);
        assert t.cap == k.cap;
        if t.gate.refill == At(r) {
          FullAtRefill(cfg, t, events[1..], r, t0, p, to);
        } else {
          WithinAllowance(cfg, t, events[1..], p, to);
          DivMono(to - p, to - t0, cfg.refillNs);
        }
      }
    }
  }

  /** The first decision to look at the bucket a period after `r` refills it before it spends. */
  lemma FirstRefill(cfg: Config, k: KeyState, e: Event, r: nat)
    requires Configured(cfg) && k.cap.Some? && e.Decided? && e.pts.At?
    requires k.gate.tokens == cfg.burstMax && k.gate.refill == At(r) && r + cfg.refillNs <= e.pts.ns
    ensures
      var t := Step(cfg, k, e);
      || (t.gate.tokens == cfg.burstMax && t.gate.refill == At(r) && Outcome(cfg, k, e) != Bypass)
      || (t.gate.refill == e.pts && t.gate.refill != At(r)
          && t.gate.tokens + (if Outcome(cfg, k, e) == Bypass then 1 else 0) <= cfg.burstMax
          && (Outcome(cfg, k, e) == Bypass ==> t.gate.tokens >= 0))
  {
    hide Decide, Wrap32;
    DecideTokens(cfg, k.gate, k.cap.value, e.pts, e.sig, e.frame);
  }

  lemma NoBypassesWithin(cfg: Config, k: KeyState, events: seq<Event>, t0: nat, to: nat)
    requires cfg.refillNs > 0 && t0 <= to && Bypasses(cfg, k, events) == 0
    ensures Bypasses(cfg, k, events) <= cfg.burstMax + (to - t0) / cfg.refillNs
  {
  }

  /** The state right after the first capture. */
  lemma AfterFirstCapture(cfg: Config, before: seq<Event>, t0: nat, sig: string)
    requires Configured(cfg) && NoCapture(before) && InWindow(before, 0, t0)
    ensures
      var k := Captures(cfg, before, t0, sig);
      && k.cap == Some(At(t0)) && k.gate.tokens <= cfg.burstMax && (k.gate.refill.At? ==> k.gate.refill.ns <= t0)
      && match LastFirstSeen(cfg, before)
         case None => k.gate.refill == NoPts
         case Some(pts) => pts.At? && k.gate.refill == pts && k.gate.tokens == cfg.burstMax
  {
    hide Decide;
    RunSnoc(cfg, NEW_KEY, before, Captured(At(t0), sig));
    BeforeCapture(cfg, before);
    FirstSeenInRun(cfg, before, t0);
    BucketInRun(cfg, before, t0);
  }

  /**
   * Bypasses from the first capture at `t0` up to `to`: at most burst_max plus one for each full refill
   * period, unless the bucket was filled early. In particular whenever the FirstSeen decision was published
   * at once, or lies at least one refill period back.
   */
  lemma BypassBoundFromFirstCapture(
    cfg: Config, before: seq<Event>, t0: nat, sig: string, events: seq<Event>, to: nat)
    requires Configured(cfg) && NoCapture(before) && InWindow(before, 0, t0) && t0 <= to && InWindow(events, t0, to)
    requires !FilledEarly(cfg, before, t0)
    ensures Bypasses(cfg, Captures(cfg, before, t0, sig), events) <= cfg.burstMax + (to - t0) / cfg.refillNs
  {
    hide Step, Outcome, Run, LastFirstSeen;
    var k := Captures(cfg, before, t0, sig);
    AfterFirstCapture(cfg, before, t0, sig);
    if cfg.burstMax == 0 {
      NoTokens(cfg, k, events, t0, to);
      NoBypassesWithin(cfg, k, events, t0, to);
    } else if cfg.intervalNs <= cfg.gapNs {
      NoTime(cfg, k, events);
      NoBypassesWithin(cfg, k, events, t0, to);
    } else {
      match LastFirstSeen(cfg, before) {
        case Some(At(r)) =>
          if r == t0 {
            WithinAllowance(cfg, k, events, t0, to);
          } else {
            FullAtRefill(cfg, k, events, r, t0, t0, to);
          }
        case None =>
          WithinAllowance(cfg, k, events, t0, to);
      }
    }
  }

  // ----- with early filling it fails -------------------------------------------------------------

  lemma {:induction false} BypassesConcat(cfg: Config, k: KeyState, a: seq<Event>, b: seq<Event>)
    ensures Bypasses(cfg, k, a + b) == Bypasses(cfg, k, a) + Bypasses(cfg, Run(cfg, k, a), b)
    decreases |a|
  {
    hide Step, Outcome;
    if a == [] {
      assert a + b == b;
    } else {
      BypassesConcat(cfg, Step(cfg, k, a[0]), a[1..], b);
      assert (a + b)[1..] == a[1..] + b;
      RunFront(cfg, k, a);
    }
  }

  lemma RunFront(cfg: Config, k: KeyState, a: seq<Event>)
    requires a != []
    ensures Run(cfg, k, a) == Run(cfg, Step(cfg, k, a[0]), a[1..])
  {
    hide Step;
    RunConcat(cfg, k, [a[0]], a[1..]);
    assert [a[0]] + a[1..] == a;
    assert [a[0]][..0] == [];
  }

  lemma WindowConcat(a: seq<Event>, b: seq<Event>, from: nat, mid: nat, to: nat)
    requires InWindow(a, from, mid) && InWindow(b, mid, to) && from <= mid <= to
    ensures InWindow(a + b, from, to)
  {
  }

  /** Both effects of a block of events: the state it leaves and its bypasses. */
  ghost predicate Leads(cfg: Config, k: KeyState, events: seq<Event>, t: KeyState, bypasses: nat) {
    Run(cfg, k, events) == t && Bypasses(cfg, k, events) == bypasses
  }

  lemma LeadsConcat(cfg: Config, k: KeyState, a: seq<Event>, t: KeyState, m: nat, b: seq<Event>, u: KeyState, n: nat)
    requires Leads(cfg, k, a, t, m) && Leads(cfg, t, b, u, n)
    ensures Leads(cfg, k, a + b, u, m + n)
  {
    hide Step, Outcome, Run;
    RunConcat(cfg, k, a, b);
    BypassesConcat(cfg, k, a, b);
  }

  lemma LeadsOne(cfg: Config, k: KeyState, e: Event)
    ensures Leads(cfg, k, [e], Step(cfg, k, e), if Outcome(cfg, k, e) == Bypass then 1 else 0)
  {
    hide Step, Outcome;
    RunSnoc(cfg, k, [], e);
    assert [] + [e] == [e] && [e][1..] == [];
    NothingHappens(cfg, k);
    NothingHappens(cfg, Step(cfg, k, e));
  }

  /** Ready to bypass at `p`: stable, exactly one gap after the last capture, no refill due. */
  ghost predicate Ready(cfg: Config, k: KeyState, p: nat) {
    && k.cap.Some? && k.cap.value.At? && p == k.cap.value.ns + cfg.gapNs && cfg.gapNs < cfg.intervalNs
    && k.gate.onStable >= cfg.kOn && k.gate.lastSeenFrame > 0
    && k.gate.refill.At? && k.gate.refill.ns <= p < k.gate.refill.ns + cfg.refillNs
  }

  /** One more observation at the same time. */
  ghost function Again(p: nat, sig: string, k: KeyState): Event {
    Decided(At(p), sig, k.gate.lastSeenFrame + 1)
  }

  /** Observing without a label makes the key stable and changes nothing else but the pending label. */
  lemma WarmStep(cfg: Config, k: KeyState, p: nat)
    requires Configured(cfg) && k.cap.Some? && k.cap.value.At? && p == k.cap.value.ns + cfg.gapNs
    requires cfg.gapNs < cfg.intervalNs && k.gate.refill.At? && k.gate.refill.ns <= p < k.gate.refill.ns + cfg.refillNs
    ensures
      var e := Again(p, "", k);
      var t := Step(cfg, k, e);
      && Outcome(cfg, k, e) != Bypass
      && t.cap == k.cap && t.gate.tokens == k.gate.tokens && t.gate.refill == k.gate.refill
      && t.gate.lastSeenFrame > 0
      && t.gate.onStable >= (if k.gate.lastSeenFrame > 0 then k.gate.onStable + 1 else 1)
  {
    hide CheckLabel;
  }

  lemma {:induction false} WarmUp(cfg: Config, k: KeyState, p: nat, n: nat) returns (events: seq<Event>, t: KeyState)
    requires Configured(cfg) && k.cap.Some? && k.cap.value.At? && p == k.cap.value.ns + cfg.gapNs
    requires cfg.gapNs < cfg.intervalNs && k.gate.refill.At? && k.gate.refill.ns <= p < k.gate.refill.ns + cfg.refillNs
    ensures Leads(cfg, k, events, t, 0) && InWindow(events, p, p)
    ensures t.cap == k.cap && t.gate.tokens == k.gate.tokens && t.gate.refill == k.gate.refill
    ensures n > 0 ==> t.gate.lastSeenFrame > 0 && t.gate.onStable >= n
  {
    hide Step, Outcome, Run, Bypasses;
    if n == 0 {
      events, t := [], k;
      NothingHappens(cfg, k);
    } else {
      var first, mid := WarmUp(cfg, k, p, n - 1);
      var e := Again(p, "", mid);
      WarmStep(cfg, mid, p);
      events, t := first + [e], Step(cfg, mid, e);
      LeadsOne(cfg, mid, e);
      LeadsConcat(cfg, k, first, mid, 0, [e], t, 0);
    }
  }

  lemma NothingHappens(cfg: Config, k: KeyState)
    ensures Leads(cfg, k, [], k, 0)
  {
  }

  /** A label that differs from the published one. */
  ghost function Fresh(k: KeyState): string {
    k.gate.lastSgie + "x"
  }

  /** One check of a changed label: a bypass when it is the k_label-th in a row and a token is left. */
  lemma CheckStep(cfg: Config, k: KeyState, p: nat)
    requires Configured(cfg) && Ready(cfg, k, p) && k.gate.tokens > 0
    ensures
      var e := Again(p, Fresh(k), k);
      var t := Step(cfg, k, e);
      var count := if k.gate.pendingSgie == Fresh(k) then k.gate.pendingCount + 1 else 1;
      && Ready(cfg, t, p) && t.gate.lastSgie == k.gate.lastSgie && t.cap == k.cap && t.gate.refill == k.gate.refill
      && if count >= cfg.kLabel then
           Outcome(cfg, k, e) == Bypass && t.gate.tokens == k.gate.tokens - 1
         else
           Outcome(cfg, k, e) != Bypass && t.gate.tokens == k.gate.tokens
           && t.gate.pendingSgie == Fresh(t) && t.gate.pendingCount == count
  {
    assert Fresh(k) != "" && Fresh(k) != k.gate.lastSgie;
    hide Wrap32;
  }

  /** Spends one token at `p`. */
  lemma {:induction false} SpendToken(cfg: Config, k: KeyState, p: nat) returns (events: seq<Event>, t: KeyState)
    requires Configured(cfg) && Ready(cfg, k, p) && k.gate.tokens > 0
    ensures Leads(cfg, k, events, t, 1) && InWindow(events, p, p)
    ensures Ready(cfg, t, p) && t.cap == k.cap && t.gate.tokens == k.gate.tokens - 1 && t.gate.refill == k.gate.refill
    decreases cfg.kLabel - (if k.gate.pendingSgie == Fresh(k) then k.gate.pendingCount else 0)
  {
    hide Step, Outcome, Run, Bypasses, Ready;
    var e := Again(p, Fresh(k), k);
    CheckStep(cfg, k, p);
    LeadsOne(cfg, k, e);
    if Outcome(cfg, k, e) == Bypass {
      events, t := [e], Step(cfg, k, e);
    } else {
      var rest;
      rest, t := SpendToken(cfg, Step(cfg, k, e), p);
      events := [e] + rest;
      LeadsConcat(cfg, k, [e], Step(cfg, k, e), 0, rest, t, 1);
    }
  }

  lemma {:induction false} SpendAll(cfg: Config, k: KeyState, p: nat, n: nat) returns (events: seq<Event>, t: KeyState)
    requires Configured(cfg) && Ready(cfg, k, p) && k.gate.tokens == n
    ensures Leads(cfg, k, events, t, n) && InWindow(events, p, p)
    ensures Ready(cfg, t, p) && t.cap == k.cap && t.gate.tokens == 0 && t.gate.refill == k.gate.refill
    decreases n
  {
    hide Step, Outcome, Run, Bypasses, Ready;
    if n == 0 {
      events, t := [], k;
      NothingHappens(cfg, k);
    } else {
      var first, mid := SpendToken(cfg, k, p);
      var rest;
      rest, t := SpendAll(cfg, mid, p, n - 1);
      events := first + rest;
      LeadsConcat(cfg, k, first, mid, 1, rest, t, n - 1);
    }
  }

  /** A capture forced at `c` and an observation at `v`, one period after the last refill, give one token. */
  lemma RefillStage(cfg: Config, k: KeyState, c: nat, v: nat) returns (events: seq<Event>, t: KeyState)
    requires Configured(cfg) && cfg.burstMax > 0 && cfg.gapNs < cfg.intervalNs
    requires k.gate.tokens == 0 && k.gate.onStable >= cfg.kOn && k.gate.lastSeenFrame > 0
    requires k.gate.refill.At? && v == k.gate.refill.ns + cfg.refillNs && c <= v <= c + cfg.gapNs
    ensures Leads(cfg, k, events, t, 0) && InWindow(events, c, v)
    ensures t.cap == Some(At(c)) && t.gate.tokens == 1 && t.gate.refill == At(v)
    ensures t.gate.onStable >= cfg.kOn && t.gate.lastSeenFrame > 0
  {
    hide Run, Bypasses;
    var capture := Captured(At(c), "");
    var mid := Step(cfg, k, capture);
    var e := Again(v, "", mid);
    t := Step(cfg, mid, e);
    events := [capture] + [e];
    OnePeriod(cfg, Observe(cfg, mid.gate, mid.gate.lastSeenFrame + 1), v);
    hide RefillTokens, CheckLabel;
    LeadsOne(cfg, k, capture);
    LeadsOne(cfg, mid, e);
    LeadsConcat(cfg, k, [capture], mid, 0, [e], t, 0);
  }

  lemma OnePeriod(cfg: Config, g: Gate, v: nat)
    requires Configured(cfg) && cfg.burstMax > 0 && g.tokens == 0 && g.refill.At? && v == g.refill.ns + cfg.refillNs
    ensures
      var t := RefillTokens(cfg, g, At(v));
      t == g.(tokens := 1, refill := At(v))
  {
    assert (v - g.refill.ns) / cfg.refillNs == 1;
  }

  /**
   * From an empty bucket last filled at `v`, with the last bypass at `s`: refilling at exact periods spends
   * `m` more tokens by the time `v + m` periods, where the last bypass falls on a refill.
   */
  lemma {:induction false} SpendOnRefills(cfg: Config, k: KeyState, v: nat, s: nat)
    returns (events: seq<Event>, t: KeyState, m: nat)
    requires Configured(cfg) && cfg.burstMax > 0 && cfg.gapNs < cfg.intervalNs && cfg.gapNs < cfg.refillNs
    requires k.gate.tokens == 0 && k.gate.onStable >= cfg.kOn && k.gate.lastSeenFrame > 0
    requires k.gate.refill == At(v) && v <= s < v + cfg.refillNs
    ensures m > 0 && s <= v + m * cfg.refillNs
    ensures Leads(cfg, k, events, t, m) && InWindow(events, s, v + m * cfg.refillNs)
    decreases if s + cfg.gapNs > v + cfg.refillNs then s + cfg.gapNs - v - cfg.refillNs else 0
  {
    hide Run, Bypasses, Step, Outcome;
    var w := v + cfg.refillNs;
    var next := if s + cfg.gapNs > w then s + cfg.gapNs else w;
    var wait, full := RefillStage(cfg, k, next - cfg.gapNs, w);
    var spend, spent := SpendToken(cfg, full, next);
    LeadsConcat(cfg, k, wait, full, 0, spend, spent, 1);
    InWindowWider(wait, next - cfg.gapNs, w, s, next);
    WindowConcat(wait, spend, s, next, next);
    if next == w {
      events, t, m := wait + spend, spent, 1;
    } else {
      var rest, n;
      rest, t, n := SpendOnRefills(cfg, spent, w, next);
      events, m := (wait + spend) + rest, n + 1;
      LeadsConcat(cfg, k, wait + spend, spent, 1, rest, t, n);
      assert w + n * cfg.refillNs == v + m * cfg.refillNs;
      WindowConcat(wait + spend, rest, s, next, v + m * cfg.refillNs);
    }
  }

  lemma InWindowWider(a: seq<Event>, from: nat, to: nat, lo: nat, hi: nat)
    requires InWindow(a, from, to) && lo <= from && to <= hi
    ensures InWindow(a, lo, hi)
  {
  }

  /** Filled early, the bucket yields one bypass too many: all of it, then one token on each refill. */
  lemma FilledEarlyOverspends(cfg: Config, before: seq<Event>, t0: nat, sig: string)
    returns (events: seq<Event>, to: nat)
    requires Configured(cfg) && NoCapture(before) && InWindow(before, 0, t0) && FilledEarly(cfg, before, t0)
    ensures t0 <= to && InWindow(events, t0, to)
    ensures Bypasses(cfg, Captures(cfg, before, t0, sig), events) > cfg.burstMax + (to - t0) / cfg.refillNs
  {
    hide Run, Bypasses, Step, Outcome, LastFirstSeen;
    var k := Captures(cfg, before, t0, sig);
    AfterFirstCapture(cfg, before, t0, sig);
    var r := LastFirstSeen(cfg, before).value.ns;
    var s := t0 + cfg.gapNs;
    var warm, ready := WarmUp(cfg, k, s, cfg.kOn);
    var spend, spent := SpendAll(cfg, ready, s, cfg.burstMax);
    LeadsConcat(cfg, k, warm, ready, 0, spend, spent, cfg.burstMax);
    var rest, t, m := SpendOnRefills(cfg, spent, r, s);
    LeadsConcat(cfg, k, warm + spend, spent, cfg.burstMax, rest, t, m);
    events, to := (warm + spend) + rest, r + m * cfg.refillNs;
    WindowConcat(warm, spend, s, s, s);
    InWindowWider(warm + spend, s, s, t0, s);
    WindowConcat(warm + spend, rest, t0, s, to);
    LessThanPeriods(to - t0, cfg.refillNs, m);
  }

  lemma LessThanPeriods(x: nat, d: nat, m: nat)
    requires d > 0 && m > 0 && x < m * d
    ensures x / d < m
  {
    if x / d >= m {
      MulMono(d, m, x / d);
    }
  }

  /** The bound from the first capture holds in every run exactly when the bucket was not filled early. */
  lemma BypassBoundIff(cfg: Config, before: seq<Event>, t0: nat, sig: string)
    requires Configured(cfg) && NoCapture(before) && InWindow(before, 0, t0)
    ensures Bounded(cfg, Captures(cfg, before, t0, sig), t0) <==> !FilledEarly(cfg, before, t0)
  {
    hide Run, Bypasses, InWindow, FilledEarly;
    if FilledEarly(cfg, before, t0) {
      var events, to := FilledEarlyOverspends(cfg, before, t0, sig);
    } else {
      forall events: seq<Event>, to: nat | t0 <= to && InWindow(events, t0, to)
        ensures Bypasses(cfg, Captures(cfg, before, t0, sig), events) <= cfg.burstMax + (to - t0) / cfg.refillNs
      {
        BypassBoundFromFirstCapture(cfg, before, t0, sig, events, to);
      }
    }
  }
}
