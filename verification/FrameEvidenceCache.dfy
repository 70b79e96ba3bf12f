/** The frame evidence cache (frame_evidence_cache.cpp) and its refinement of the store history. */
module FrameEvidenceCache {
  import opened Options
  import opened TextOrder

  datatype Config = Config(
    cacheOnFrameEvents: bool, frameCacheTtlMs: int, maxFramesPerSource: int, maxFrameGapMs: int)

  datatype Route = Route(pipelineId: string, sourceName: string, sourceId: int)

  datatype Metadata = Metadata(
    route: Route, frameNum: nat, frameTsMs: int, frameKey: string, overviewRef: string)

  datatype ObjectSnapshot = ObjectSnapshot(
    objectKey: string, instanceKey: string, cropRef: string, objectId: nat)

  datatype Entry = Entry(meta: Metadata, objects: seq<ObjectSnapshot>, cachedAtMs: int)

  /** The two maps of the cache. */
  datatype State = State(entries: map<string, Entry>, queues: map<string, seq<string>>)

  const EMPTY := State(map[], map[])

  function SourceKey(r: Route): string {
    r.pipelineId + "|" + r.sourceName + "|" + IntText(r.sourceId)
  }

  /** A pipeline id that cannot be confused with the beginning of a longer one. */
  ghost predicate Plain(r: Route) {
    '|' !in r.pipelineId
  }

  /** The key always determines the source id, and the whole route when pipeline ids are free of the separator. */
  lemma SourceKeyExact(a: Route, b: Route)
    ensures SourceKey(a) == SourceKey(b) <==>
      a.sourceId == b.sourceId && a.pipelineId + "|" + a.sourceName == b.pipelineId + "|" + b.sourceName
    ensures Plain(a) && Plain(b) ==> (SourceKey(a) == SourceKey(b) <==> a == b)
  {
    hide IntText;
    var p, q := a.pipelineId + "|" + a.sourceName, b.pipelineId + "|" + b.sourceName;
    assert SourceKey(a) == p + ['|'] + IntText(a.sourceId) && SourceKey(b) == q + ['|'] + IntText(b.sourceId);
    if SourceKey(a) == SourceKey(b) {
      IntTextAvoids(a.sourceId, '|');
      IntTextAvoids(b.sourceId, '|');
      SplitLast(p, IntText(a.sourceId), q, IntText(b.sourceId), '|');
      IntTextInjective(a.sourceId, b.sourceId);
    }
    if p == q && Plain(a) && Plain(b) {
      SplitFirst(a.pipelineId, a.sourceName, b.pipelineId, b.sourceName, '|');
    }
  }

  /** Two cameras whose pipeline id or name contains the separator can share a queue. */
  lemma SourceKeyCollision()
    ensures
      var a, b := Route("a|b", "c", 0), Route("a", "b|c", 0);
      a != b && SourceKey(a) == SourceKey(b)
  {
    hide IntText;
    var a, b := Route("a|b", "c", 0), Route("a", "b|c", 0);
    assert "a|b" + "|" + "c" == "a" + "|" + "b|c";
  }

  function SourceOf(e: Entry): string {
    SourceKey(e.meta.route)
  }

  function KeyOf(e: Entry): string {
    e.meta.frameKey
  }

  function CachedAt(e: Entry): int {
    e.cachedAtMs
  }

  // ----- the operations as functions of the state ------------------------------------------------

  predicate MustDrop(cfg: Config, e: Entry, length: nat, now: int) {
    || now - e.cachedAtMs > cfg.frameCacheTtlMs
    || (cfg.maxFramesPerSource > 0 && length > cfg.maxFramesPerSource)
  }

  function PruneQueue(cfg: Config, entries: map<string, Entry>, q: seq<string>, now: int)
    : (map<string, Entry>, seq<string>)
  {
    if q == [] then (entries, q)
    else if q[0] !in entries then PruneQueue(cfg, entries, q[1..], now)
    else if MustDrop(cfg, entries[q[0]], |q|, now) then PruneQueue(cfg, entries - {q[0]}, q[1..], now)
    else (entries, q)
  }

  function Prune(cfg: Config, s: State, source: string, now: int): State {
    if source !in s.queues then s
    else
      var (entries, q) := PruneQueue(cfg, s.entries, s.queues[source], now);
      State(entries, if q == [] then s.queues - {source} else s.queues[source := q])
  }

  function Queue(s: State, source: string): seq<string> {
    if source in s.queues then s.queues[source] else []
  }

  function Pushed(s: State, e: Entry): State {
    State(s.entries[KeyOf(e) := e], s.queues[SourceOf(e) := Queue(s, SourceOf(e)) + [KeyOf(e)]])
  }

  function Store(cfg: Config, s: State, e: Entry): State {
    Prune(cfg, Pushed(s, e), SourceOf(e), e.cachedAtMs)
  }

  /** The entries a queue still reaches that belong to the route, oldest first. */
  function Candidates(entries: map<string, Entry>, q: seq<string>, r: Route): seq<Entry> {
    if q == [] then []
    else
      Candidates(entries, q[..|q| - 1], r) +
      (var k := q[|q| - 1]; if k in entries && entries[k].meta.route == r then [entries[k]] else [])
  }

  function Abs(x: int): int {
    if x < 0 then -x else x
  }

  function Delta(e: Entry, ts: int): int {
    Abs(e.meta.frameTsMs - ts)
  }

  /** `best` is the earliest stored among the candidates closest to `ts` and within `gap`, if any. */
  ghost predicate IsNearest(cands: seq<Entry>, ts: int, gap: int, best: Option<Entry>) {
    match best
    case None => forall k :: 0 <= k < |cands| ==> Delta(cands[k], ts) > gap
    case Some(e) => exists i :: NearestAt(cands, ts, gap, i) && cands[i] == e
  }

  ghost predicate NearestAt(cands: seq<Entry>, ts: int, gap: int, i: int) {
    && 0 <= i < |cands| && Delta(cands[i], ts) <= gap
    && (forall k :: 0 <= k < i ==> Delta(cands[k], ts) > Delta(cands[i], ts))
    && (forall k :: i < k < |cands| ==> Delta(cands[k], ts) >= Delta(cands[i], ts))
  }

  /** What resolve may return from a pruned state. */
  ghost predicate IsAnswer(cfg: Config, s: State, r: Route, key: string, ts: int, answer: Option<Entry>) {
    if key in s.entries && s.entries[key].meta.route == r then answer == Some(s.entries[key])
    else IsNearest(Candidates(s.entries, Queue(s, SourceKey(r)), r), ts, cfg.maxFrameGapMs, answer)
  }

  class Cache {
    const cfg: Config
    var entries: map<string, Entry>
    var queues: map<string, seq<string>>

    function Contents(): State
      reads this
    {
      State(entries, queues)
    }

    constructor (cfg: Config)
      ensures this.cfg == cfg && Contents() == EMPTY
    {
      this.cfg := cfg;
      entries, queues := map[], map[];
    }

    /** `cloned` says whether copying the GPU surface succeeded. */
    method StoreFrame(meta: Metadata, objects: seq<ObjectSnapshot>, cloned: bool, now: int)
      returns (stored: bool)
      modifies this
      ensures stored == (cfg.cacheOnFrameEvents && cloned)
      ensures Contents() == if stored then Store(cfg, old(Contents()), Entry(meta, objects, now)) else old(Contents())
    {
      if !cfg.cacheOnFrameEvents {
        return false;
      }
      var entry := Entry(meta, objects, now);
      if !cloned {
        return false;
      }
      var source := SourceKey(meta.route);
      entries := entries[meta.frameKey := entry];
      var ordered := if source in queues then queues[source] else [];
      queues := queues[source := ordered + [meta.frameKey]];
      PruneLocked(source, now);
      return true;
    }

    method PruneLocked(source: string, now: int)
      modifies this
      ensures Contents() == Prune(cfg, old(Contents()), source, now)
    {
      if source !in queues {
        return;
      }
      var ordered := queues[source];
      while ordered != []
        invariant queues == old(queues)
        invariant PruneQueue(cfg, entries, ordered, now) == PruneQueue(cfg, old(entries), old(queues)[source], now)
        decreases |ordered|
      {
        if ordered[0] !in entries {
          ordered := ordered[1..];
          continue;
        }
        if !MustDrop(cfg, entries[ordered[0]], |ordered|, now) {
          break;
        }
        entries := entries - {ordered[0]};
        ordered := ordered[1..];
      }
      queues := if ordered == [] then queues - {source} else queues[source := ordered];
    }

    method Resolve(r: Route, key: string, ts: int, now: int) returns (answer: Option<Entry>)
      modifies this
      ensures Contents() == Prune(cfg, old(Contents()), SourceKey(r), now)
      ensures IsAnswer(cfg, Contents(), r, key, ts, answer)
    {
      hide SourceKey;
      var source := SourceKey(r);
      PruneLocked(source, now);
      if key in entries && entries[key].meta.route == r {
        return Some(entries[key]);
      }
      if source !in queues {
        return None;
      }
      var q := queues[source];
      answer := None;
      var bestDelta := cfg.maxFrameGapMs + 1;
      ghost var pruned := Contents();
      for i := 0 to |q|
        invariant Contents() == pruned
        invariant IsNearest(Candidates(entries, q[..i], r), ts, cfg.maxFrameGapMs, answer)
        invariant bestDelta == if answer.None? then cfg.maxFrameGapMs + 1 else Delta(answer.value, ts)
      {
        assert q[..i + 1][..i] == q[..i];
        ghost var before := Candidates(entries, q[..i], r);
        if q[i] in entries && entries[q[i]].meta.route == r {
          var candidate := entries[q[i]];
          var delta := Delta(candidate, ts);
          NearestPush(before, candidate, ts, cfg.maxFrameGapMs, answer);
          assert Candidates(entries, q[..i + 1], r) == before + [candidate];
          if delta <= cfg.maxFrameGapMs && delta < bestDelta {
            bestDelta := delta;
            answer := Some(candidate);
          }
        } else {
          assert Candidates(entries, q[..i + 1], r) == before;
        }
      }
      assert q[..|q|] == q;
    }

    method Clear()
      modifies this
      ensures Contents() == EMPTY
    {
      entries := map[];
      queues := map[];
    }
  }

  lemma NearestPush(cands: seq<Entry>, e: Entry, ts: int, gap: int, best: Option<Entry>)
    requires IsNearest(cands, ts, gap, best)
    ensures
      var limit := if best.None? then gap + 1 else Delta(best.value, ts);
      var next := if Delta(e, ts) <= gap && Delta(e, ts) < limit then Some(e) else best;
      IsNearest(cands + [e], ts, gap, next)
  {
    var all := cands + [e];
    var limit := if best.None? then gap + 1 else Delta(best.value, ts);
    if Delta(e, ts) <= gap && Delta(e, ts) < limit {
      if best.Some? {
        var i :| NearestAt(cands, ts, gap, i) && cands[i] == best.value;
        assert forall k :: 0 <= k < |cands| ==> Delta(cands[k], ts) >= Delta(cands[i], ts);
      }
      assert NearestAt(all, ts, gap, |cands|);
    } else if best.Some? {
      var i :| NearestAt(cands, ts, gap, i) && cands[i] == best.value;
      assert NearestAt(all, ts, gap, i);
    }
  }
}
