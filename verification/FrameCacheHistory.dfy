/** Whole runs of the frame evidence cache: exactness against the store history, and the memory bound. */
module FrameCacheHistory {
  import opened Options
  import opened SuffixWindow
  import opened FrameEvidenceCache

  /** One completed operation; every operation carries the clock reading it used. */
  datatype Op =
    | StoreOp(entry: Entry, stored: bool)
    | ResolveOp(route: Route, key: string, ts: int, now: int)
    | ClearOp(at: int)

  function TimeOf(op: Op): int {
    match op
    case StoreOp(e, _) => e.cachedAtMs
    case ResolveOp(_, _, _, now) => now
    case ClearOp(at) => at
  }

  function Apply(cfg: Config, s: State, op: Op): State {
    match op
    case StoreOp(e, stored) => if stored then Store(cfg, s, e) else s
    case ResolveOp(r, _, _, now) => Prune(cfg, s, SourceKey(r), now)
    case ClearOp(_) => EMPTY
  }

  function Run(cfg: Config, ops: seq<Op>): State {
    if ops == [] then EMPTY else Apply(cfg, Run(cfg, ops[..|ops| - 1]), ops[|ops| - 1])
  }

  // ----- the history a run leaves ----------------------------------------------------------------

  /** Everything stored since the last clear, oldest first. */
  ghost function Stored(ops: seq<Op>): seq<Entry> {
    if ops == [] then []
    else
      var before := Stored(ops[..|ops| - 1]);
      match ops[|ops| - 1]
      case StoreOp(e, stored) => if stored then before + [e] else before
      case ResolveOp(_, _, _, _) => before
      case ClearOp(_) => []
  }

  ghost function OfSource(h: seq<Entry>, source: string): seq<Entry> {
    if h == [] then []
    else OfSource(h[..|h| - 1], source) + (if SourceOf(h[|h| - 1]) == source then [h[|h| - 1]] else [])
  }

  /** When the source was last stored to or resolved, since the last clear. */
  ghost function LastTouch(ops: seq<Op>, source: string): Option<int> {
    if ops == [] then None
    else
      var before := LastTouch(ops[..|ops| - 1], source);
      match ops[|ops| - 1]
      case StoreOp(e, stored) => if stored && SourceOf(e) == source then Some(e.cachedAtMs) else before
      case ResolveOp(r, _, _, now) => if SourceKey(r) == source then Some(now) else before
      case ClearOp(_) => None
  }

  ghost function Window(cfg: Config, m: seq<Entry>, now: int): (r: seq<Entry>)
    ensures |r| <= |m|
  {
    LiveSuffix(CachedAt, m, now, cfg.frameCacheTtlMs, cfg.maxFramesPerSource)
  }

  /** The frames of the source that are live: the longest short and fresh suffix of its history. */
  ghost function LiveOf(cfg: Config, ops: seq<Op>, source: string): seq<Entry> {
    match LastTouch(ops, source)
    case None => []
    case Some(t) => Window(cfg, OfSource(Stored(ops), source), t)
  }

  ghost predicate Monotone(ops: seq<Op>) {
    forall i, j :: 0 <= i < j < |ops| ==> TimeOf(ops[i]) <= TimeOf(ops[j])
  }

  ghost predicate DistinctKeys(h: seq<Entry>) {
    forall i, j :: 0 <= i < j < |h| ==> KeyOf(h[i]) != KeyOf(h[j])
  }

  // ----- a simple model: the live frames of each source ------------------------------------------

  type Model = map<string, seq<Entry>>

  ghost function LiveIn(m: Model, source: string): seq<Entry> {
    if source in m then m[source] else []
  }

  ghost function WithLive(m: Model, source: string, live: seq<Entry>): Model {
    if live == [] then m - {source} else m[source := live]
  }

  ghost function ModelApply(cfg: Config, m: Model, op: Op): Model {
    match op
    case StoreOp(e, stored) =>
      if stored then WithLive(m, SourceOf(e), Window(cfg, LiveIn(m, SourceOf(e)) + [e], e.cachedAtMs)) else m
    case ResolveOp(r, _, _, now) => WithLive(m, SourceKey(r), Window(cfg, LiveIn(m, SourceKey(r)), now))
    case ClearOp(_) => map[]
  }

  ghost function ModelRun(cfg: Config, ops: seq<Op>): Model {
    if ops == [] then map[] else ModelApply(cfg, ModelRun(cfg, ops[..|ops| - 1]), ops[|ops| - 1])
  }

  ghost function Keys(h: seq<Entry>): (r: seq<string>)
    ensures |r| == |h| && forall i :: 0 <= i < |h| ==> r[i] == KeyOf(h[i])
  {
    seq(|h|, i requires 0 <= i < |h| => KeyOf(h[i]))
  }

  ghost predicate QueueMatches(s: State, source: string, live: seq<Entry>) {
    && source in s.queues && s.queues[source] == Keys(live) && live != []
    && forall i :: 0 <= i < |live| ==> Holds(s, source, live[i])
  }

  ghost predicate Holds(s: State, source: string, e: Entry) {
    SourceOf(e) == source && KeyOf(e) in s.entries && s.entries[KeyOf(e)] == e
  }

  ghost predicate Backed(m: Model, e: Entry) {
    exists x, i :: x in m && 0 <= i < |m[x]| && m[x][i] == e
  }

  /** The cache holds exactly the frames the model gives for each source, in order. */
  ghost predicate Represents(m: Model, s: State) {
    && s.queues.Keys == m.Keys
    && (forall x :: x in m ==> QueueMatches(s, x, m[x]))
    && (forall k :: k in s.entries ==> KeyOf(s.entries[k]) == k && Backed(m, s.entries[k]))
  }

  // ----- pruning is exact ------------------------------------------------------------------------

  /** The key of one of the first `n` entries. */
  ghost predicate AmongFirst(m: seq<Entry>, n: nat, k: string)
    requires n <= |m|
  {
    exists i :: 0 <= i < n && KeyOf(m[i]) == k
  }

  lemma {:induction false} PruneQueueExact(cfg: Config, entries: map<string, Entry>, m: seq<Entry>, now: int)
    requires Sorted(CachedAt, m) && DistinctKeys(m)
    requires forall i :: 0 <= i < |m| ==> KeyOf(m[i]) in entries && entries[KeyOf(m[i])] == m[i]
    ensures
      var r := Window(cfg, m, now);
      var pruned := PruneQueue(cfg, entries, Keys(m), now);
      && pruned.1 == Keys(r)
      && (forall k :: k in pruned.0 <==> k in entries && !AmongFirst(m, |m| - |r|, k))
      && (forall k :: k in pruned.0 ==> pruned.0[k] == entries[k])
  {
    var r := Window(cfg, m, now);
    if m != [] {
      FrontDecides(CachedAt, m, now, cfg.frameCacheTtlMs, cfg.maxFramesPerSource);
      if !Live(CachedAt, m, now, cfg.frameCacheTtlMs, cfg.maxFramesPerSource) {
        assert Keys(m)[1..] == Keys(m[1..]);
        PruneQueueExact(cfg, entries - {KeyOf(m[0])}, m[1..], now);
        AmongFirstStep(m, |m| - |r|);
      }
    }
  }

  lemma AmongFirstStep(m: seq<Entry>, n: nat)
    requires 0 < n <= |m|
    ensures forall k :: AmongFirst(m, n, k) <==> k == KeyOf(m[0]) || AmongFirst(m[1..], n - 1, k)
  {
    forall k | AmongFirst(m[1..], n - 1, k) ensures AmongFirst(m, n, k) {
      var i :| 0 <= i < n - 1 && KeyOf(m[1..][i]) == k;
      assert KeyOf(m[i + 1]) == k;
    }
    forall k | AmongFirst(m, n, k) && k != KeyOf(m[0]) ensures AmongFirst(m[1..], n - 1, k) {
      var i :| 0 <= i < n && KeyOf(m[i]) == k;
      assert KeyOf(m[1..][i - 1]) == k;
    }
  }

  /** The pruned cache represents the model with the window of that source. */
  lemma PruneRepresents(cfg: Config, s: State, m: Model, source: string, now: int)
    requires Represents(m, s)
    requires Sorted(CachedAt, LiveIn(m, source)) && DistinctKeys(LiveIn(m, source))
    ensures Represents(WithLive(m, source, Window(cfg, LiveIn(m, source), now)), Prune(cfg, s, source, now))
  {
    hide SourceOf, Prune;
    if source in m {
      var live, t := m[source], Prune(cfg, s, source, now);
      assert QueueMatches(s, source, live);
      var n := PruneDrops(cfg, s, source, live, now);
      PrunedBacked(s, m, source, n, t);
      forall x | x in m && x != source ensures QueueMatches(t, x, m[x]) {
        OtherQueueKept(s, m, source, n, t, x);
      }
      if n < |live| {
        OwnQueueKept(s, m, source, n, t);
      }
    } else {
      NothingToPrune(cfg, s, source, now);
      assert m - {source} == m;
    }
  }

  lemma NothingToPrune(cfg: Config, s: State, source: string, now: int)
    requires source !in s.queues
    ensures Prune(cfg, s, source, now) == s
  {
  }

  lemma PruneDrops(cfg: Config, s: State, source: string, live: seq<Entry>, now: int) returns (n: nat)
    requires QueueMatches(s, source, live) && Sorted(CachedAt, live) && DistinctKeys(live)
    ensures n <= |live| && Window(cfg, live, now) == live[n..]
    ensures
      var t := Prune(cfg, s, source, now);
      && Dropped(s, live, n, t)
      && t.queues == if n == |live| then s.queues - {source} else s.queues[source := Keys(live[n..])]
  {
    hide SourceOf, PruneQueue;
    forall i | 0 <= i < |live| ensures KeyOf(live[i]) in s.entries && s.entries[KeyOf(live[i])] == live[i] {
      assert Holds(s, source, live[i]);
    }
    PruneQueueExact(cfg, s.entries, live, now);
    LiveSuffixIsSuffix(CachedAt, live, now, cfg.frameCacheTtlMs, cfg.maxFramesPerSource);
    n := |live| - |Window(cfg, live, now)|;
  }

  ghost predicate Dropped(s: State, live: seq<Entry>, n: nat, t: State)
    requires n <= |live|
  {
    && (forall k :: k in t.entries <==> k in s.entries && !AmongFirst(live, n, k))
    && (forall k :: k in t.entries ==> t.entries[k] == s.entries[k])
  }

  lemma OtherQueueKept(s: State, m: Model, source: string, n: nat, t: State, x: string)
    requires source in m && x in m && x != source && n <= |m[source]|
    requires QueueMatches(s, source, m[source]) && QueueMatches(s, x, m[x])
    requires Dropped(s, m[source], n, t) && x in t.queues && t.queues[x] == s.queues[x]
    ensures QueueMatches(t, x, m[x])
  {
    forall i | 0 <= i < |m[x]| ensures Holds(t, x, m[x][i]) {
      assert Holds(s, x, m[x][i]);
      forall j | 0 <= j < n ensures KeyOf(m[source][j]) != KeyOf(m[x][i]) {
        assert Holds(s, source, m[source][j]);
      }
    }
  }

  lemma OwnQueueKept(s: State, m: Model, source: string, n: nat, t: State)
    requires source in m && n < |m[source]| && DistinctKeys(m[source])
    requires QueueMatches(s, source, m[source])
    requires Dropped(s, m[source], n, t) && source in t.queues && t.queues[source] == Keys(m[source][n..])
    ensures QueueMatches(t, source, m[source][n..])
  {
    var live := m[source];
    forall i | 0 <= i < |live| - n ensures Holds(t, source, live[n..][i]) {
      assert Holds(s, source, live[n + i]);
    }
  }

  lemma PrunedBacked(s: State, m: Model, source: string, n: nat, t: State)
    requires source in m && n <= |m[source]|
    requires Represents(m, s) && Dropped(s, m[source], n, t)
    ensures forall k :: k in t.entries ==>
      KeyOf(t.entries[k]) == k && Backed(WithLive(m, source, m[source][n..]), t.entries[k])
  {
    var live := m[source];
    var after := WithLive(m, source, live[n..]);
    forall k | k in t.entries ensures KeyOf(t.entries[k]) == k && Backed(after, t.entries[k]) {
      var e := s.entries[k];
      var x, i :| x in m && 0 <= i < |m[x]| && m[x][i] == e;
      if x == source {
        assert i >= n;
        assert after[source][i - n] == e;
      } else {
        assert after[x][i] == e;
      }
    }
  }

  lemma PushRepresents(s: State, m: Model, e: Entry)
    requires Represents(m, s) && KeyOf(e) !in s.entries
    ensures Represents(m[SourceOf(e) := LiveIn(m, SourceOf(e)) + [e]], Pushed(s, e))
  {
    hide SourceOf;
    var source, t := SourceOf(e), Pushed(s, e);
    var after := m[source := LiveIn(m, source) + [e]];
    forall x | x in after ensures QueueMatches(t, x, after[x]) {
      if x in m {
        assert QueueMatches(s, x, m[x]);
      }
      forall i | 0 <= i < |after[x]| ensures Holds(t, x, after[x][i]) {
        if x in m && i < |m[x]| {
          assert Holds(s, x, m[x][i]);
        }
      }
    }
    forall k | k in t.entries ensures KeyOf(t.entries[k]) == k && Backed(after, t.entries[k]) {
      if k == KeyOf(e) {
        assert after[source][|after[source]| - 1] == e;
      } else {
        var x, i :| x in m && 0 <= i < |m[x]| && m[x][i] == s.entries[k];
        assert after[x][i] == s.entries[k];
      }
    }
  }

  // ----- facts about histories -------------------------------------------------------------------

  lemma {:induction false} OfSourceMember(h: seq<Entry>, source: string)
    ensures forall e :: e in OfSource(h, source) <==> e in h && SourceOf(e) == source
  {
    if h != [] {
      OfSourceMember(h[..|h| - 1], source);
      assert h == h[..|h| - 1] + [h[|h| - 1]];
    }
  }

  lemma OfSourcePush(h: seq<Entry>, e: Entry, source: string)
    ensures OfSource(h + [e], source) == OfSource(h, source) + (if SourceOf(e) == source then [e] else [])
  {
    assert (h + [e])[..|h|] == h;
  }

  lemma {:induction false} OfSourceOrdered(h: seq<Entry>, source: string)
    requires Sorted(CachedAt, h) && DistinctKeys(h)
    ensures Sorted(CachedAt, OfSource(h, source)) && DistinctKeys(OfSource(h, source))
  {
    hide SourceOf;
    if h != [] {
      var init, e := h[..|h| - 1], h[|h| - 1];
      OfSourceOrdered(init, source);
      OfSourceMember(init, source);
      var kept := OfSource(init, source);
      forall k | 0 <= k < |kept| ensures CachedAt(kept[k]) <= CachedAt(e) && KeyOf(kept[k]) != KeyOf(e) {
        assert kept[k] in kept;
        var i :| 0 <= i < |init| && init[i] == kept[k];
        assert h[i] == kept[k];
      }
    }
  }

  lemma {:induction false} StoredInOrder(ops: seq<Op>, now: int)
    requires Monotone(ops) && (ops != [] ==> TimeOf(ops[|ops| - 1]) <= now)
    ensures Sorted(CachedAt, Stored(ops)) && forall e :: e in Stored(ops) ==> CachedAt(e) <= now
  {
    if ops != [] {
      var last := ops[|ops| - 1];
      StoredInOrder(ops[..|ops| - 1], TimeOf(last));
      if last.StoreOp? && last.stored {
        var before := Stored(ops[..|ops| - 1]);
        assert Stored(ops) == before + [last.entry];
        assert (before + [last.entry])[..|before|] == before;
        forall i, j | 0 <= i < j < |Stored(ops)| ensures CachedAt(Stored(ops)[i]) <= CachedAt(Stored(ops)[j]) {
          assert Stored(ops)[i] in before;
        }
      }
    }
  }

  lemma {:induction false} TouchedWithinTime(ops: seq<Op>, now: int)
    requires Monotone(ops) && (ops != [] ==> TimeOf(ops[|ops| - 1]) <= now)
    ensures forall x :: LastTouch(ops, x).Some? ==> LastTouch(ops, x).value <= now
    ensures forall x :: LastTouch(ops, x) == None ==> OfSource(Stored(ops), x) == []
  {
    if ops != [] {
      var last := ops[|ops| - 1];
      TouchedWithinTime(ops[..|ops| - 1], TimeOf(last));
      if last.StoreOp? && last.stored {
        var before := Stored(ops[..|ops| - 1]);
        assert Stored(ops) == before + [last.entry];
        assert (before + [last.entry])[..|before|] == before;
      }
    }
  }

  lemma StoredWithinTime(ops: seq<Op>, now: int)
    requires Monotone(ops) && (ops != [] ==> TimeOf(ops[|ops| - 1]) <= now)
    ensures Sorted(CachedAt, Stored(ops))
    ensures forall e :: e in Stored(ops) ==> CachedAt(e) <= now
    ensures forall x :: LastTouch(ops, x).Some? ==> LastTouch(ops, x).value <= now
    ensures forall x :: LastTouch(ops, x) == None ==> OfSource(Stored(ops), x) == []
  {
    hide Stored, LastTouch, OfSource;
    StoredInOrder(ops, now);
    TouchedWithinTime(ops, now);
  }

  // ----- the refinement theorem --------------------------------------------------------------------

  lemma MonotonePrefix(ops: seq<Op>)
    requires Monotone(ops) && ops != []
    ensures var before := ops[..|ops| - 1];
      Monotone(before) && (before != [] ==> TimeOf(before[|before| - 1]) <= TimeOf(ops[|ops| - 1]))
  {
  }

  ghost predicate NewKey(h: seq<Entry>, e: Entry) {
    forall i :: 0 <= i < |h| ==> KeyOf(h[i]) != KeyOf(e)
  }

  lemma StoredPrefix(ops: seq<Op>)
    requires ops != [] && !ops[|ops| - 1].ClearOp? && DistinctKeys(Stored(ops))
    ensures DistinctKeys(Stored(ops[..|ops| - 1]))
    ensures ops[|ops| - 1].StoreOp? && ops[|ops| - 1].stored ==>
      NewKey(Stored(ops[..|ops| - 1]), ops[|ops| - 1].entry)
  {
    var before, all := Stored(ops[..|ops| - 1]), Stored(ops);
    assert forall i :: 0 <= i < |before| ==> before[i] == all[i];
    if ops[|ops| - 1].StoreOp? && ops[|ops| - 1].stored {
      assert all[|before|] == ops[|ops| - 1].entry;
    }
  }

  /** The model never forgets or keeps anything the history window does not. */
  lemma {:induction false} ModelIsHistory(cfg: Config, ops: seq<Op>, source: string)
    requires Monotone(ops)
    ensures LiveIn(ModelRun(cfg, ops), source) == LiveOf(cfg, ops, source)
  {
    if ops != [] {
      var before, last := ops[..|ops| - 1], ops[|ops| - 1];
      MonotonePrefix(ops);
      ModelIsHistory(cfg, before, source);
      assert ops == before + [last];
      if last.StoreOp? && last.stored {
        StoreStep(cfg, before, last.entry, source);
      } else if last.ResolveOp? {
        ResolveStep(cfg, before, last, source);
      }
    }
  }

  lemma StoreStep(cfg: Config, before: seq<Op>, e: Entry, source: string)
    requires Monotone(before) && (before != [] ==> TimeOf(before[|before| - 1]) <= e.cachedAtMs)
    requires LiveIn(ModelRun(cfg, before), source) == LiveOf(cfg, before, source)
    ensures LiveIn(ModelApply(cfg, ModelRun(cfg, before), StoreOp(e, true)), source)
         == LiveOf(cfg, before + [StoreOp(e, true)], source)
  {
    hide SourceOf, OfSource, Window, ModelRun, Monotone, TimeOf;
    var ops := before + [StoreOp(e, true)];
    assert ops[..|ops| - 1] == before;
    OfSourcePush(Stored(before), e, source);
    if SourceOf(e) == source {
      LiveOfGrows(cfg, before, source, [e], e.cachedAtMs);
    } else {
      assert OfSource(Stored(ops), source) == OfSource(Stored(before), source);
    }
  }

  lemma ResolveStep(cfg: Config, before: seq<Op>, op: Op, source: string)
    requires op.ResolveOp? && Monotone(before) && (before != [] ==> TimeOf(before[|before| - 1]) <= op.now)
    requires LiveIn(ModelRun(cfg, before), source) == LiveOf(cfg, before, source)
    ensures LiveIn(ModelApply(cfg, ModelRun(cfg, before), op), source) == LiveOf(cfg, before + [op], source)
  {
    hide SourceKey;
    var ops := before + [op];
    assert ops[..|ops| - 1] == before;
    if SourceKey(op.route) == source {
      LiveOfGrows(cfg, before, source, [], op.now);
      assert OfSource(Stored(before), source) + [] == OfSource(Stored(before), source);
      assert LiveOf(cfg, before, source) + [] == LiveOf(cfg, before, source);
    }
  }

  /** Touching a source at `now` after pushing `more` leaves the window of the longer history. */
  lemma LiveOfGrows(cfg: Config, before: seq<Op>, source: string, more: seq<Entry>, now: int)
    requires Monotone(before) && (before != [] ==> TimeOf(before[|before| - 1]) <= now)
    ensures Window(cfg, OfSource(Stored(before), source) + more, now)
         == Window(cfg, LiveOf(cfg, before, source) + more, now)
  {
    StoredWithinTime(before, now);
    match LastTouch(before, source)
    case None =>
    case Some(t) =>
      LiveSuffixIncremental(CachedAt, OfSource(Stored(before), source), more, t, now,
                            cfg.frameCacheTtlMs, cfg.maxFramesPerSource);
  }

  lemma LiveOfOrdered(cfg: Config, ops: seq<Op>, source: string)
    requires Monotone(ops) && DistinctKeys(Stored(ops))
    ensures Sorted(CachedAt, LiveOf(cfg, ops, source)) && DistinctKeys(LiveOf(cfg, ops, source))
    ensures forall e :: e in LiveOf(cfg, ops, source) ==> e in Stored(ops) && SourceOf(e) == source
  {
    hide SourceOf, Stored, LastTouch, OfSource, LiveSuffix, Sorted, DistinctKeys;
    StoredOrdered(ops);
    OfSourceOrdered(Stored(ops), source);
    OfSourceMember(Stored(ops), source);
    var h := OfSource(Stored(ops), source);
    if LastTouch(ops, source).Some? {
      LiveSuffixIsSuffix(CachedAt, h, LastTouch(ops, source).value, cfg.frameCacheTtlMs, cfg.maxFramesPerSource);
      SuffixOrdered(h, |h| - |LiveOf(cfg, ops, source)|);
    } else {
      SuffixOrdered(h, |h|);
      assert LiveOf(cfg, ops, source) == [] == h[|h|..];
    }
  }

  lemma StoredOrdered(ops: seq<Op>)
    requires Monotone(ops)
    ensures Sorted(CachedAt, Stored(ops))
  {
    hide LastTouch, OfSource;
    if ops != [] {
      StoredInOrder(ops, TimeOf(ops[|ops| - 1]));
    }
  }

  lemma SuffixOrdered(h: seq<Entry>, n: nat)
    requires n <= |h| && Sorted(CachedAt, h) && DistinctKeys(h)
    ensures Sorted(CachedAt, h[n..]) && DistinctKeys(h[n..]) && forall e :: e in h[n..] ==> e in h
  {
  }

  /** After any run with distinct frame keys and a nondecreasing clock the cache is its live history. */
  lemma {:induction false} CacheRefinesModel(cfg: Config, ops: seq<Op>)
    requires Monotone(ops) && DistinctKeys(Stored(ops))
    ensures Represents(ModelRun(cfg, ops), Run(cfg, ops))
  {
    if ops != [] && !ops[|ops| - 1].ClearOp? {
      var before, last := ops[..|ops| - 1], ops[|ops| - 1];
      MonotonePrefix(ops);
      StoredPrefix(ops);
      CacheRefinesModel(cfg, before);
      match last {
        case StoreOp(e, stored) =>
          if stored {
            StoreRefines(cfg, before, e);
          }
        case ResolveOp(r, _, _, now) =>
          ModelIsHistory(cfg, before, SourceKey(r));
          LiveOfOrdered(cfg, before, SourceKey(r));
          PruneRepresents(cfg, Run(cfg, before), ModelRun(cfg, before), SourceKey(r), now);
      }
    }
  }

  lemma StoreRefines(cfg: Config, before: seq<Op>, e: Entry)
    requires Monotone(before) && (before != [] ==> TimeOf(before[|before| - 1]) <= e.cachedAtMs)
    requires DistinctKeys(Stored(before))
    requires NewKey(Stored(before), e)
    requires Represents(ModelRun(cfg, before), Run(cfg, before))
    ensures Represents(ModelApply(cfg, ModelRun(cfg, before), StoreOp(e, true)), Store(cfg, Run(cfg, before), e))
  {
    hide SourceOf;
    var s, m, source := Run(cfg, before), ModelRun(cfg, before), SourceOf(e);
    NotYetCached(cfg, before, e);
    PushRepresents(s, m, e);
    var live := LiveIn(m, source) + [e];
    ModelIsHistory(cfg, before, source);
    LiveOfOrdered(cfg, before, source);
    StoredWithinTime(before, e.cachedAtMs);
    PushOrdered(LiveIn(m, source), Stored(before), e);
    PruneRepresents(cfg, Pushed(s, e), m[source := live], source, e.cachedAtMs);
    WithLiveTwice(m, source, live, Window(cfg, live, e.cachedAtMs));
  }

  lemma WithLiveTwice(m: Model, source: string, live: seq<Entry>, r: seq<Entry>)
    ensures WithLive(m[source := live], source, r) == WithLive(m, source, r)
  {
    assert m[source := live] - {source} == m - {source};
    assert m[source := live][source := r] == m[source := r];
  }

  lemma PushOrdered(live: seq<Entry>, h: seq<Entry>, e: Entry)
    requires Sorted(CachedAt, live) && DistinctKeys(live) && NewKey(h, e)
    requires forall d :: d in live ==> d in h
    requires forall d :: d in h ==> CachedAt(d) <= CachedAt(e)
    ensures Sorted(CachedAt, live + [e]) && DistinctKeys(live + [e])
  {
    forall i | 0 <= i < |live| ensures CachedAt(live[i]) <= CachedAt(e) && KeyOf(live[i]) != KeyOf(e) {
      assert live[i] in h;
    }
  }

  lemma NotYetCached(cfg: Config, before: seq<Op>, e: Entry)
    requires Monotone(before) && DistinctKeys(Stored(before))
    requires NewKey(Stored(before), e)
    requires Represents(ModelRun(cfg, before), Run(cfg, before))
    ensures KeyOf(e) !in Run(cfg, before).entries
  {
    var s, m := Run(cfg, before), ModelRun(cfg, before);
    if KeyOf(e) in s.entries {
      var d := s.entries[KeyOf(e)];
      var x, i :| x in m && 0 <= i < |m[x]| && m[x][i] == d;
      ModelIsHistory(cfg, before, x);
      LiveOfOrdered(cfg, before, x);
      assert false;
    }
  }

  /** The live frames of a source, read off the cache state, are the live suffix of its store history. */
  lemma CacheHoldsLiveHistory(cfg: Config, ops: seq<Op>, source: string)
    requires Monotone(ops) && DistinctKeys(Stored(ops))
    ensures
      var s, live := Run(cfg, ops), LiveOf(cfg, ops, source);
      && Queue(s, source) == Keys(live)
      && (forall i :: 0 <= i < |live| ==> Holds(s, source, live[i]))
      && (forall k :: k in s.entries && SourceOf(s.entries[k]) == source ==> s.entries[k] in live)
  {
    hide SourceOf;
    var s, m := Run(cfg, ops), ModelRun(cfg, ops);
    CacheRefinesModel(cfg, ops);
    ModelIsHistory(cfg, ops, source);
    if source in m {
      assert QueueMatches(s, source, m[source]);
    }
    forall k | k in s.entries && SourceOf(s.entries[k]) == source ensures s.entries[k] in LiveOf(cfg, ops, source) {
      var x, i :| x in m && 0 <= i < |m[x]| && m[x][i] == s.entries[k];
      assert QueueMatches(s, x, m[x]) && Holds(s, x, m[x][i]);
    }
  }

  // ----- what resolve answers ----------------------------------------------------------------------

  ghost function OnRoute(h: seq<Entry>, r: Route): seq<Entry> {
    if h == [] then []
    else OnRoute(h[..|h| - 1], r) + (if h[|h| - 1].meta.route == r then [h[|h| - 1]] else [])
  }

  lemma {:induction false} CandidatesAreLive(entries: map<string, Entry>, live: seq<Entry>, r: Route)
    requires forall i :: 0 <= i < |live| ==> KeyOf(live[i]) in entries && entries[KeyOf(live[i])] == live[i]
    ensures Candidates(entries, Keys(live), r) == OnRoute(live, r)
  {
    if live != [] {
      CandidatesAreLive(entries, live[..|live| - 1], r);
      assert Keys(live)[..|live| - 1] == Keys(live[..|live| - 1]);
    }
  }

  /** The live frame that is asked for, if there is one. */
  ghost predicate IsExact(live: seq<Entry>, r: Route, key: string, e: Entry) {
    e in live && e.meta.route == r && KeyOf(e) == key
  }

  /**
   * Over any run: resolve returns the live frame of the route with the requested key when there is
   * one; otherwise the live frame of the route closest in time within the gap, the earliest stored
   * on ties; and None exactly when there is no such frame.
   */
  lemma ResolveAnswersHistory(cfg: Config, before: seq<Op>, op: Op, answer: Option<Entry>)
    requires op.ResolveOp? && Monotone(before + [op]) && DistinctKeys(Stored(before))
    requires IsAnswer(cfg, Run(cfg, before + [op]), op.route, op.key, op.ts, answer)
    ensures
      var live := Window(cfg, OfSource(Stored(before), SourceKey(op.route)), op.now);
      if exists e :: IsExact(live, op.route, op.key, e) then
        answer.Some? && IsExact(live, op.route, op.key, answer.value)
          && forall e :: IsExact(live, op.route, op.key, e) ==> e == answer.value
      else
        IsNearest(OnRoute(live, op.route), op.ts, cfg.maxFrameGapMs, answer)
  {
    hide SourceKey, SourceOf, Run, LiveSuffix;
    var ops, source := before + [op], SourceKey(op.route);
    assert ops[..|ops| - 1] == before;
    var s, live := Run(cfg, ops), LiveOf(cfg, ops, source);
    CacheHoldsLiveHistory(cfg, ops, source);
    forall i | 0 <= i < |live| ensures KeyOf(live[i]) in s.entries && s.entries[KeyOf(live[i])] == live[i] {
      assert Holds(s, source, live[i]);
    }
    CandidatesAreLive(s.entries, live, op.route);
    ExactIsLive(cfg, ops, op.route, op.key);
  }

  lemma ExactIsLive(cfg: Config, ops: seq<Op>, r: Route, key: string)
    requires Monotone(ops) && DistinctKeys(Stored(ops))
    ensures
      var s, live := Run(cfg, ops), LiveOf(cfg, ops, SourceKey(r));
      && (forall e :: IsExact(live, r, key, e) ==> key in s.entries && s.entries[key] == e)
      && (key in s.entries && s.entries[key].meta.route == r ==> IsExact(live, r, key, s.entries[key]))
  {
    hide SourceKey, Run, LiveSuffix;
    var s, source := Run(cfg, ops), SourceKey(r);
    var live := LiveOf(cfg, ops, source);
    CacheHoldsLiveHistory(cfg, ops, source);
    forall e | IsExact(live, r, key, e) ensures key in s.entries && s.entries[key] == e {
      var i :| 0 <= i < |live| && live[i] == e;
      assert Holds(s, source, live[i]);
    }
    if key in s.entries && s.entries[key].meta.route == r {
      assert SourceOf(s.entries[key]) == source;
      RunAccounted(cfg, ops);
    }
  }

  // ----- the memory bound, for every run ------------------------------------------------------------

  /** No assumption on keys or clock: every cached entry is still queued under its own source. */
  ghost predicate Accounted(cfg: Config, s: State) {
    && (forall k :: k in s.entries ==> KeyOf(s.entries[k]) == k && k in Queue(s, SourceOf(s.entries[k])))
    && (cfg.maxFramesPerSource > 0 ==>
          forall x :: x in s.queues ==> |s.queues[x]| <= cfg.maxFramesPerSource)
  }

  lemma {:induction false} PruneQueueAccounted(
    cfg: Config, entries: map<string, Entry>, q: seq<string>, now: int)
    ensures
      var (en, r) := PruneQueue(cfg, entries, q, now);
      && (cfg.maxFramesPerSource > 0 ==> |r| <= cfg.maxFramesPerSource)
      && (forall k :: k in en ==> k in entries && en[k] == entries[k])
      && (forall k :: k in en && k in q ==> k in r)
  {
    if q != [] && (q[0] !in entries || MustDrop(cfg, entries[q[0]], |q|, now)) {
      PruneQueueAccounted(cfg, if q[0] in entries then entries - {q[0]} else entries, q[1..], now);
    }
  }

  lemma PruneAccounted(cfg: Config, s: State, source: string, now: int)
    requires forall k :: k in s.entries ==> KeyOf(s.entries[k]) == k && k in Queue(s, SourceOf(s.entries[k]))
    requires cfg.maxFramesPerSource > 0 ==>
      forall x :: x in s.queues && x != source ==> |s.queues[x]| <= cfg.maxFramesPerSource
    ensures Accounted(cfg, Prune(cfg, s, source, now))
  {
    hide SourceOf;
    if source in s.queues {
      PruneQueueAccounted(cfg, s.entries, s.queues[source], now);
    }
  }

  lemma {:induction false} RunAccounted(cfg: Config, ops: seq<Op>)
    ensures Accounted(cfg, Run(cfg, ops))
  {
    hide SourceOf, SourceKey;
    if ops != [] {
      var s, last := Run(cfg, ops[..|ops| - 1]), ops[|ops| - 1];
      RunAccounted(cfg, ops[..|ops| - 1]);
      match last {
        case ClearOp(_) =>
        case ResolveOp(r, _, _, now) => PruneAccounted(cfg, s, SourceKey(r), now);
        case StoreOp(e, stored) =>
          if stored {
            PruneAccounted(cfg, Pushed(s, e), SourceOf(e), e.cachedAtMs);
          }
      }
    }
  }

  lemma {:induction false} KeysBounded(
    keys: set<string>, queues: map<string, seq<string>>, sources: set<string>, limit: nat)
    requires sources <= queues.Keys
    requires forall k :: k in keys ==> exists x :: x in sources && k in queues[x]
    requires forall x :: x in sources ==> |queues[x]| <= limit
    ensures |keys| <= limit * |sources|
  {
    if sources == {} {
      assert keys == {};
    } else {
      var x :| x in sources;
      var own, other := set k | k in keys && k in queues[x], set k | k in keys && k !in queues[x];
      KeysBounded(other, queues, sources - {x}, limit);
      DistinctMembers(own, queues[x]);
      assert keys == own + other && own !! other;
      OneMore(limit, |sources| - 1);
    }
  }

  lemma OneMore(limit: nat, n: nat)
    ensures limit * (n + 1) == limit * n + limit
  {
  }

  lemma {:induction false} DistinctMembers(own: set<string>, q: seq<string>)
    requires forall k :: k in own ==> k in q
    ensures |own| <= |q|
  {
    if q == [] {
      assert own == {};
    } else {
      DistinctMembers(own - {q[0]}, q[1..]);
      assert |own| <= |own - {q[0]}| + 1;
    }
  }

  /** With a positive per-source limit the cache never outgrows limit times the tracked sources. */
  lemma MemoryBound(cfg: Config, ops: seq<Op>)
    ensures
      var s := Run(cfg, ops);
      && (forall k :: k in s.entries ==> k in Queue(s, SourceOf(s.entries[k])))
      && (cfg.maxFramesPerSource > 0 ==> |s.entries| <= cfg.maxFramesPerSource * |s.queues|)
  {
    hide SourceOf;
    RunAccounted(cfg, ops);
    var s := Run(cfg, ops);
    if cfg.maxFramesPerSource > 0 {
      forall k | k in s.entries.Keys ensures exists x :: x in s.queues && k in s.queues[x] {
        assert SourceOf(s.entries[k]) in s.queues;
      }
      KeysBounded(s.entries.Keys, s.queues, s.queues.Keys, cfg.maxFramesPerSource);
    }
  }
}
