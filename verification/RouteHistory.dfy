/** The frame evidence cache in terms of routes: what is kept and answered for one camera. */
module RouteHistory {
  import opened Options
  import opened SuffixWindow
  import opened FrameEvidenceCache
  import opened FrameCacheHistory

  /** Every route that occurs in the run has a pipeline id free of the separator. */
  ghost predicate AllPlain(ops: seq<Op>) {
    forall i :: 0 <= i < |ops| ==>
      match ops[i]
      case StoreOp(e, _) => Plain(e.meta.route)
      case ResolveOp(r, _, _, _) => Plain(r)
      case ClearOp(_) => true
  }

  /** When the camera was last stored to or resolved, since the last clear. */
  ghost function LastTouchOn(ops: seq<Op>, r: Route): Option<int> {
    if ops == [] then None
    else
      var before := LastTouchOn(ops[..|ops| - 1], r);
      match ops[|ops| - 1]
      case StoreOp(e, stored) => if stored && e.meta.route == r then Some(e.cachedAtMs) else before
      case ResolveOp(asked, _, _, now) => if asked == r then Some(now) else before
      case ClearOp(_) => None
  }

  /** The frames of the camera that are live: those the limit and the time to live leave of its own stores. */
  ghost function LiveOn(cfg: Config, ops: seq<Op>, r: Route): seq<Entry> {
    match LastTouchOn(ops, r)
    case None => []
    case Some(t) => Window(cfg, OnRoute(Stored(ops), r), t)
  }

  lemma {:induction false} OnRouteIsOfSource(h: seq<Entry>, r: Route)
    requires Plain(r) && forall i :: 0 <= i < |h| ==> Plain(h[i].meta.route)
    ensures OnRoute(h, r) == OfSource(h, SourceKey(r))
  {
    hide SourceKey;
    if h != [] {
      OnRouteIsOfSource(h[..|h| - 1], r);
      SourceKeyExact(h[|h| - 1].meta.route, r);
    }
  }

  lemma {:induction false} LastTouchOnIsOfSource(ops: seq<Op>, r: Route)
    requires Plain(r) && AllPlain(ops)
    ensures LastTouchOn(ops, r) == LastTouch(ops, SourceKey(r))
    ensures forall i :: 0 <= i < |Stored(ops)| ==> Plain(Stored(ops)[i].meta.route)
  {
    hide SourceKey, Plain;
    if ops != [] {
      var last := ops[|ops| - 1];
      LastTouchOnIsOfSource(ops[..|ops| - 1], r);
      match last
      case StoreOp(e, _) => SourceKeyExact(e.meta.route, r);
      case ResolveOp(asked, _, _, _) => SourceKeyExact(asked, r);
      case ClearOp(_) =>
    }
  }

  lemma LiveOnIsLiveOf(cfg: Config, ops: seq<Op>, r: Route)
    requires Plain(r) && AllPlain(ops)
    ensures LiveOn(cfg, ops, r) == LiveOf(cfg, ops, SourceKey(r))
  {
    hide SourceKey, Plain, AllPlain, OnRoute, OfSource, LastTouch, LastTouchOn, Stored, Window;
    LastTouchOnIsOfSource(ops, r);
    OnRouteIsOfSource(Stored(ops), r);
  }

  lemma {:induction false} OnRouteMember(h: seq<Entry>, r: Route)
    ensures forall e :: e in OnRoute(h, r) <==> e in h && e.meta.route == r
  {
    if h != [] {
      OnRouteMember(h[..|h| - 1], r);
      assert h == h[..|h| - 1] + [h[|h| - 1]];
    }
  }

  /**
   * After any run with distinct frame keys and a nondecreasing clock the cache holds of one camera exactly the
   * live frames of its own store history; what other cameras store or ask for does not matter.
   */
  lemma CacheHoldsCamera(cfg: Config, ops: seq<Op>, r: Route)
    requires Monotone(ops) && DistinctKeys(Stored(ops)) && AllPlain(ops) && Plain(r)
    ensures
      var s, live := Run(cfg, ops), LiveOn(cfg, ops, r);
      && (forall e :: e in live ==>
            e.meta.route == r && e.meta.frameKey in s.entries && s.entries[e.meta.frameKey] == e)
      && (forall k :: k in s.entries && s.entries[k].meta.route == r ==> s.entries[k] in live)
  {
    hide SourceKey, Plain, AllPlain, OnRoute, LiveOf, LiveOn, Run, Stored, Monotone, DistinctKeys;
    var s, live := Run(cfg, ops), LiveOn(cfg, ops, r);
    LiveOnIsLiveOf(cfg, ops, r);
    CacheHoldsLiveHistory(cfg, ops, SourceKey(r));
    LiveOnRoute(cfg, ops, r);
    forall e | e in live ensures e.meta.frameKey in s.entries && s.entries[e.meta.frameKey] == e {
      var i :| 0 <= i < |live| && live[i] == e;
      assert Holds(s, SourceKey(r), live[i]);
    }
  }

  lemma LiveOnRoute(cfg: Config, ops: seq<Op>, r: Route)
    ensures forall e :: e in LiveOn(cfg, ops, r) ==> e in Stored(ops) && e.meta.route == r
  {
    hide OnRoute, Stored, LastTouchOn, LiveSuffix;
    if LastTouchOn(ops, r).Some? {
      var h, t := OnRoute(Stored(ops), r), LastTouchOn(ops, r).value;
      LiveSuffixIsSuffix(CachedAt, h, t, cfg.frameCacheTtlMs, cfg.maxFramesPerSource);
      OnRouteMember(Stored(ops), r);
      assert forall e :: e in h[|h| - |LiveOn(cfg, ops, r)|..] ==> e in h;
    }
  }

  // ----- what resolve answers a camera -----------------------------------------------------------

  ghost function Distance(e: Entry, ts: int): int {
    if e.meta.frameTsMs >= ts then e.meta.frameTsMs - ts else ts - e.meta.frameTsMs
  }

  /** Frame `i` is the earliest stored of the frames closest to `ts`, and within the gap. */
  ghost predicate Closest(frames: seq<Entry>, ts: int, gap: int, i: nat) {
    && i < |frames| && Distance(frames[i], ts) <= gap
    && (forall k :: 0 <= k < i ==> Distance(frames[k], ts) > Distance(frames[i], ts))
    && (forall k :: i < k < |frames| ==> Distance(frames[k], ts) >= Distance(frames[i], ts))
  }

  lemma NearestIsClosest(frames: seq<Entry>, ts: int, gap: int, answer: Option<Entry>)
    requires IsNearest(frames, ts, gap, answer)
    ensures match answer
            case Some(e) => exists i: nat :: Closest(frames, ts, gap, i) && frames[i] == e
            case None => forall k :: 0 <= k < |frames| ==> Distance(frames[k], ts) > gap
  {
    if answer.Some? {
      var i :| NearestAt(frames, ts, gap, i) && frames[i] == answer.value;
      assert Closest(frames, ts, gap, i);
    }
  }

  /**
   * Over any run, resolve answers a camera from its own live frames: the one with the requested key; otherwise the
   * one closest to the requested time within the gap, the earliest stored on ties; otherwise nothing.
   */
  lemma ResolveAnswersCamera(cfg: Config, before: seq<Op>, op: Op, answer: Option<Entry>)
    requires op.ResolveOp? && Monotone(before + [op]) && DistinctKeys(Stored(before)) && AllPlain(before + [op])
    requires IsAnswer(cfg, Run(cfg, before + [op]), op.route, op.key, op.ts, answer)
    ensures
      var live := Window(cfg, OnRoute(Stored(before), op.route), op.now);
      if exists e :: e in live && e.meta.frameKey == op.key then
        answer.Some? && answer.value in live && answer.value.meta.frameKey == op.key
      else
        match answer
        case Some(e) => exists i: nat :: Closest(live, op.ts, cfg.maxFrameGapMs, i) && live[i] == e
        case None => forall k :: 0 <= k < |live| ==> Distance(live[k], op.ts) > cfg.maxFrameGapMs
  {
    hide SourceKey, Plain, OnRoute, OfSource, LiveSuffix, Run, Stored, Monotone, DistinctKeys, IsAnswer, IsNearest;
    var r := op.route;
    ResolveAnswersHistory(cfg, before, op, answer);
    var ops := before + [op];
    assert Plain(r) by {
      assert ops[|before|] == op;
    }
    assert AllPlain(before) by {
      assert forall i :: 0 <= i < |before| ==> before[i] == ops[i];
    }
    LastTouchOnIsOfSource(before, r);
    OnRouteIsOfSource(Stored(before), r);
    var live := Window(cfg, OnRoute(Stored(before), r), op.now);
    WindowOnRoute(cfg, Stored(before), r, op.now);
    forall e | e in live && e.meta.frameKey == op.key ensures IsExact(live, r, op.key, e) {
    }
    if !(exists e :: IsExact(live, r, op.key, e)) {
      NearestIsClosest(live, op.ts, cfg.maxFrameGapMs, answer);
    }
  }

  /** Every frame of the window is on the route. */
  lemma WindowOnRoute(cfg: Config, h: seq<Entry>, r: Route, now: int)
    ensures
      var live := Window(cfg, OnRoute(h, r), now);
      (forall e :: e in live ==> e.meta.route == r) && OnRoute(live, r) == live
  {
    hide OnRoute, LiveSuffix;
    var on := OnRoute(h, r);
    LiveSuffixIsSuffix(CachedAt, on, now, cfg.frameCacheTtlMs, cfg.maxFramesPerSource);
    OnRouteMember(h, r);
    var live := Window(cfg, on, now);
    assert forall e :: e in on[|on| - |live|..] ==> e in on;
    AllOnRoute(live, r);
  }

  lemma {:induction false} AllOnRoute(h: seq<Entry>, r: Route)
    requires forall e :: e in h ==> e.meta.route == r
    ensures OnRoute(h, r) == h
  {
    if h != [] {
      assert h == h[..|h| - 1] + [h[|h| - 1]];
      AllOnRoute(h[..|h| - 1], r);
    }
  }

  // ----- the memory bound per camera -------------------------------------------------------------

  ghost function Routes(h: seq<Entry>): set<Route> {
    set e | e in h :: e.meta.route
  }

  ghost predicate HasStore(h: seq<Entry>, source: string) {
    exists e :: e in h && SourceOf(e) == source
  }

  lemma PruneAddsNoQueue(cfg: Config, s: State, source: string, now: int)
    ensures Prune(cfg, s, source, now).queues.Keys <= s.queues.Keys
  {
    hide PruneQueue;
  }

  /** Only cameras that stored something since the last clear have a queue. */
  lemma {:induction false} QueuesAreStored(cfg: Config, ops: seq<Op>)
    ensures forall x :: x in Run(cfg, ops).queues ==> HasStore(Stored(ops), x)
  {
    hide SourceKey, Prune;
    if ops != [] {
      var before, t := ops[..|ops| - 1], Run(cfg, ops[..|ops| - 1]);
      QueuesAreStored(cfg, before);
      match ops[|ops| - 1] {
        case StoreOp(e, _) => PruneAddsNoQueue(cfg, Pushed(t, e), SourceOf(e), e.cachedAtMs);
        case ResolveOp(r, _, _, now) => PruneAddsNoQueue(cfg, t, SourceKey(r), now);
        case ClearOp(_) =>
      }
      forall x | x in Run(cfg, ops).queues ensures HasStore(Stored(ops), x) {
        var last := ops[|ops| - 1];
        if last.StoreOp? && last.stored && x == SourceOf(last.entry) {
          assert last.entry in Stored(ops);
        } else {
          assert x in t.queues && HasStore(Stored(before), x);
          var e :| e in Stored(before) && SourceOf(e) == x;
          assert e in Stored(ops);
        }
      }
    }
  }

  lemma {:induction false} FewerKeys(keys: set<string>, routes: set<Route>)
    requires forall x :: x in keys ==> exists r :: r in routes && SourceKey(r) == x
    ensures |keys| <= |routes|
  {
    hide SourceKey;
    if keys != {} {
      var x :| x in keys;
      var r :| r in routes && SourceKey(r) == x;
      FewerKeys(keys - {x}, routes - {r});
    }
  }

  /** With a positive limit the cache holds at most that many frames for each camera that stored any. */
  lemma CameraBound(cfg: Config, ops: seq<Op>)
    requires cfg.maxFramesPerSource > 0
    ensures |Run(cfg, ops).entries| <= cfg.maxFramesPerSource * |Routes(Stored(ops))|
  {
    hide SourceKey, Run, Stored;
    var s, routes := Run(cfg, ops), Routes(Stored(ops));
    MemoryBound(cfg, ops);
    QueuesAreStored(cfg, ops);
    forall x | x in s.queues.Keys ensures exists r :: r in routes && SourceKey(r) == x {
      var e :| e in Stored(ops) && SourceOf(e) == x;
      assert e.meta.route in routes;
    }
    FewerKeys(s.queues.Keys, routes);
    MoreRoom(cfg.maxFramesPerSource, |s.queues|, |routes|);
  }

  lemma MoreRoom(limit: nat, n: nat, m: nat)
    requires n <= m
    ensures limit * n <= limit * m
  {
  }
}
