/** Runtime camera slots: allocation, selectors and health (runtime_stream_manager.cpp). */
module StreamSlots {
  import opened Options
  import opened TextOrder

  datatype Camera = Camera(id: string, uri: string)

  datatype Config = Config(manualSources: bool, maxBatchSize: int, batchSize: int, maxSources: int, latency: int)

  /** The slots prepared at start. */
  function MaxSlots(cfg: Config): nat {
    if cfg.maxSources > 0 then cfg.maxSources
    else if cfg.batchSize > 0 then cfg.batchSize
    else if cfg.maxBatchSize > 1 then cfg.maxBatchSize else 1
  }

  /** The stream count at which an add is refused. */
  function Capacity(cfg: Config): int {
    if cfg.maxSources > 0 then cfg.maxSources else cfg.maxBatchSize
  }

  /** The defaulting done by the configuration parser. */
  function Normalised(raw: Config): Config {
    var batch := if raw.batchSize <= 0 then raw.maxBatchSize else raw.batchSize;
    var sources := if raw.maxSources <= 0 then batch else raw.maxSources;
    raw.(batchSize := batch, maxSources := sources,
         maxBatchSize := if raw.manualSources then batch else raw.maxBatchSize)
  }

  const MINIMUM_STALL_US := 1_500_000

  /** Four times the latency, at least one and a half seconds. */
  function StaleAfterUs(cfg: Config): (r: int)
    ensures r >= 1_500_000 && r >= cfg.latency * 4000 && (r == 1_500_000 || r == cfg.latency * 4000)
  {
    var byLatency := (if cfg.latency > 1 then cfg.latency else 1) * 4 * 1000;
    if byLatency > MINIMUM_STALL_US then byLatency else MINIMUM_STALL_US
  }

  /** Active pad of a slot's input selector. */
  datatype Pad = Idle | Placeholder | Live

  datatype StreamState = Active | WarmingUp | Recovering

  datatype Slot = Slot(
    sourceIndex: nat, uri: string, isSeeded: bool, state: StreamState, lastBufferUs: int, usingPlaceholder: bool)

  datatype BuildOutcome = BuildFails | LinkFails | SyncFails | Builds

  datatype AddResult =
    | Added(index: nat) | InvalidRequest | Unavailable | DuplicateCamera | MaxSourcesReached
    | SlotUnavailable | BuildSourceFailed | LinkSourceFailed

  // ----- element names -------------------------------------------------------------------------------

  function NormaliseChar(c: char): char {
    if 'a' <= c <= 'z' || 'A' <= c <= 'Z' || '0' <= c <= '9' then c else '_'
  }

  function NormaliseId(id: string): string {
    if id == "" then "camera" else Map(NormaliseChar, id)
  }

  function SourceBinName(id: string): string {
    "srcbin_" + NormaliseId(id)
  }

  /** `bins` gives, for each source bin of the graph linked to a slot, the index of that slot. */
  function SeededIndex(bins: map<string, nat>, slots: nat, id: string): (r: Option<nat>)
    ensures r.Some? ==> r.value < slots
  {
    if id == "" || SourceBinName(id) !in bins || bins[SourceBinName(id)] >= slots then None
    else Some(bins[SourceBinName(id)])
  }

  /** Element name of a camera's bin: every character of the id outside ASCII letters and digits reads '_'. */
  ghost predicate NamesBinOf(name: string, id: string) {
    && |name| == 7 + |id| && name[..7] == "srcbin_"
    && forall k :: 0 <= k < |id| ==>
      name[7 + k] == if 'a' <= id[k] <= 'z' || 'A' <= id[k] <= 'Z' || '0' <= id[k] <= '9' then id[k] else '_'
  }

  /** A camera is found on a slot exactly when its bin is linked to that slot and the slot exists. */
  lemma SeededIndexIff(bins: map<string, nat>, slots: nat, id: string, index: nat)
    ensures SeededIndex(bins, slots, id) == Some(index) <==>
      id != "" && index < slots && exists name :: name in bins && NamesBinOf(name, id) && bins[name] == index
  {
    if id != "" {
      var name := SourceBinName(id);
      assert name[7..] == NormaliseId(id);
      forall k | 0 <= k < |id| ensures name[7 + k] == NormaliseChar(id[k]) {
        assert name[7 + k] == NormaliseId(id)[k];
      }
      assert NamesBinOf(name, id);
      forall other | NamesBinOf(other, id) ensures other == name {
        assert other == other[..7] + other[7..] && other[7..] == NormaliseId(id);
      }
    }
  }

  /** No two configured camera ids are found on the same slot. */
  ghost predicate DistinctSeeds(cameras: seq<Camera>, bins: map<string, nat>, slots: nat) {
    forall i, j :: 0 <= i < |cameras| && 0 <= j < |cameras| && cameras[i].id != cameras[j].id
      && SeededIndex(bins, slots, cameras[i].id).Some?
      ==> SeededIndex(bins, slots, cameras[i].id) != SeededIndex(bins, slots, cameras[j].id)
  }

  /** Distinct normalised ids are enough: a pad has one peer, so different bins use different slots. */
  lemma DistinctNamesSuffice(cameras: seq<Camera>, bins: map<string, nat>, slots: nat)
    requires forall a, b :: a in bins && b in bins && a != b ==> bins[a] != bins[b]
    requires forall i, j :: 0 <= i < |cameras| && 0 <= j < |cameras| && cameras[i].id != cameras[j].id ==>
      NormaliseId(cameras[i].id) != NormaliseId(cameras[j].id)
    ensures DistinctSeeds(cameras, bins, slots)
  {
    forall i, j | 0 <= i < |cameras| && 0 <= j < |cameras| && cameras[i].id != cameras[j].id
      && SeededIndex(bins, slots, cameras[i].id).Some?
      ensures SeededIndex(bins, slots, cameras[i].id) != SeededIndex(bins, slots, cameras[j].id)
    {
      var a, b := SourceBinName(cameras[i].id), SourceBinName(cameras[j].id);
      assert a[7..] == NormaliseId(cameras[i].id) && b[7..] == NormaliseId(cameras[j].id);
    }
  }

  // ----- the free list ---------------------------------------------------------------------------------

  ghost predicate StrictlyDecreasing(s: seq<nat>) {
    forall i, j :: 0 <= i < j < |s| ==> s[i] > s[j]
  }

  function InsertDescending(x: nat, s: seq<nat>): (r: seq<nat>)
    ensures multiset(r) == multiset{x} + multiset(s) && |r| == |s| + 1
  {
    if s == [] then [x]
    else if s[0] > x then
      assert s == [s[0]] + s[1..];
      [s[0]] + InsertDescending(x, s[1..])
    else [x] + s
  }

  function SortDescending(s: seq<nat>): (r: seq<nat>)
    ensures multiset(r) == multiset(s) && |r| == |s|
  {
    if s == [] then []
    else
      assert s == s[..|s| - 1] + [s[|s| - 1]];
      InsertDescending(s[|s| - 1], SortDescending(s[..|s| - 1]))
  }

  lemma TailInOrder(s: seq<nat>)
    requires StrictlyDecreasing(s) && s != []
    ensures StrictlyDecreasing(s[1..]) && forall y :: y in s[1..] ==> y in s && y < s[0]
    ensures forall y :: y in s ==> y <= s[0]
  {
  }

  lemma LargestFirst(x: nat, s: seq<nat>)
    requires StrictlyDecreasing(s) && forall y :: y in s ==> y < x
    ensures StrictlyDecreasing([x] + s)
  {
    var t := [x] + s;
    forall i, j | 0 <= i < j < |t| ensures t[i] > t[j] {
      assert t[j] == s[j - 1] && s[j - 1] in s;
      assert i > 0 ==> t[i] == s[i - 1];
    }
  }

  lemma {:induction false} InsertKeepsOrder(x: nat, s: seq<nat>)
    requires StrictlyDecreasing(s) && x !in s
    ensures StrictlyDecreasing(InsertDescending(x, s))
  {
    hide StrictlyDecreasing;
    if s == [] {
      LargestFirst(x, s);
      assert [x] + s == [x];
    } else {
      TailInOrder(s);
      if s[0] > x {
        InsertKeepsOrder(x, s[1..]);
        InsertMembers(x, s[1..]);
        LargestFirst(s[0], InsertDescending(x, s[1..]));
      } else {
        assert s[0] in s;
        LargestFirst(x, s);
      }
    }
  }

  lemma InsertMembers(x: nat, s: seq<nat>)
    ensures forall y :: y in InsertDescending(x, s) <==> y == x || y in s
  {
    var t := InsertDescending(x, s);
    assert forall y :: y in t <==> y in multiset(t);
  }

  lemma {:induction false} InsertLowest(x: nat, s: seq<nat>)
    requires forall y :: y in s ==> y > x
    ensures InsertDescending(x, s) == s + [x]
  {
    if s != [] {
      assert s[0] in s;
      assert forall y :: y in s[1..] ==> y in s;
      InsertLowest(x, s[1..]);
      assert s == [s[0]] + s[1..];
    }
  }

  /** Taking the last element of a strictly decreasing list takes the lowest. */
  lemma DropLowest(rest: seq<nat>, lowest: nat)
    requires StrictlyDecreasing(rest + [lowest])
    ensures StrictlyDecreasing(rest) && lowest in rest + [lowest]
    ensures forall i :: i in rest ==> i in rest + [lowest] && i > lowest
  {
    var all := rest + [lowest];
    assert all[|rest|] == lowest;
    forall k | 0 <= k < |rest| ensures rest[k] > lowest {
      assert all[k] == rest[k];
    }
    forall i, j | 0 <= i < j < |rest| ensures rest[i] > rest[j] {
      assert all[i] == rest[i] && all[j] == rest[j];
    }
  }

  lemma {:induction false} SortedAlready(s: seq<nat>)
    requires StrictlyDecreasing(s)
    ensures SortDescending(s) == s
  {
    hide InsertDescending;
    if s != [] {
      var init, x := s[..|s| - 1], s[|s| - 1];
      assert s == init + [x];
      DropLowest(init, x);
      SortedAlready(init);
      InsertLowest(x, init);
    }
  }

  /** Releasing an index keeps the list strictly decreasing; releasing one below all the rest appends it. */
  lemma ReleaseKeepsOrder(s: seq<nat>, x: nat)
    requires StrictlyDecreasing(s) && x !in s
    ensures
      var r := SortDescending(s + [x]);
      && StrictlyDecreasing(r) && |r| == |s| + 1
      && (forall y :: y in r <==> y in s || y == x)
      && ((forall y :: y in s ==> y > x) ==> r == s + [x])
  {
    assert (s + [x])[..|s|] == s;
    SortedAlready(s);
    InsertKeepsOrder(x, s);
    InsertMembers(x, s);
    if forall y :: y in s ==> y > x {
      InsertLowest(x, s);
    }
  }

  lemma SortMembers(s: seq<nat>)
    ensures forall y :: y in SortDescending(s) <==> y in s
  {
    assert forall y :: y in SortDescending(s) <==> y in multiset(SortDescending(s));
  }

  lemma {:induction false} SortDistinct(s: seq<nat>)
    requires forall i, j :: 0 <= i < j < |s| ==> s[i] != s[j]
    ensures StrictlyDecreasing(SortDescending(s))
  {
    hide InsertDescending;
    if s == [] {
      SortedAlready(s);
    } else {
      var init, x := s[..|s| - 1], s[|s| - 1];
      SortDistinct(init);
      SortMembers(init);
      InsertKeepsOrder(x, SortDescending(init));
    }
  }

  // ----- capacity ----------------------------------------------------------------------------------------

  /** After normalisation the add check never admits more streams than there are slots. */
  lemma NormalisedCapacity(raw: Config)
    ensures Capacity(Normalised(raw)) <= MaxSlots(Normalised(raw))
    ensures Capacity(Normalised(raw)) > 0 ==> Capacity(Normalised(raw)) == MaxSlots(Normalised(raw))
  {
  }

  /** Exactly when a configuration that was not normalised admits more streams than slots. */
  lemma CapacityExceedsSlots(cfg: Config)
    ensures Capacity(cfg) > MaxSlots(cfg) <==> cfg.maxSources <= 0 && 0 < cfg.batchSize < cfg.maxBatchSize
  {
  }

  // ----- the managed state and its invariant -----------------------------------------------------------

  /** The manager's maps, with what the health argument needs to remember. */
  datatype State = State(
    selectors: map<nat, Pad>, streams: map<string, Slot>, registry: map<nat, string>, free: seq<nat>, next: nat,
    clock: int, lastPoll: int, notified: set<string>)

  /** Used and free indexes partition 0..next-1; the registry is exactly the inverse of the stream map. */
  ghost predicate Owned(s: State) {
    && StrictlyDecreasing(s.free)
    && (forall i :: i in s.free ==> i < s.next && i !in s.registry)
    && |s.free| + |s.registry| == s.next
    && (forall c :: c in s.streams ==> Registered(s, c))
    && (forall i :: i in s.registry ==> i < s.next && InUse(s, i))
  }

  ghost predicate Registered(s: State, c: string)
    requires c in s.streams
  {
    s.streams[c].sourceIndex in s.registry && s.registry[s.streams[c].sourceIndex] == c
  }

  ghost predicate InUse(s: State, i: nat)
    requires i in s.registry
  {
    s.registry[i] in s.streams && s.streams[s.registry[i]].sourceIndex == i
  }

  ghost predicate OwnedLive(s: State, i: nat) {
    i in s.registry && s.registry[i] in s.streams && !s.streams[s.registry[i]].usingPlaceholder
  }

  /** A selector is live exactly when its owner does not use the placeholder. */
  ghost predicate Selected(s: State) {
    && (forall i :: i in s.selectors ==> (s.selectors[i] == Live <==> OwnedLive(s, i)))
    && (forall c :: c in s.streams ==> StreamSelected(s, c))
  }

  /**
   * The state of a camera says what it shows: "active" when live; on the placeholder "warming_up" until the first
   * buffer after an add at run time and "recovering" from then on. A prepared slot shows the same, and only a
   * prepared one can show the placeholder.
   */
  ghost predicate StreamSelected(s: State, c: string)
    requires c in s.streams
  {
    && s.streams[c].state == (if !s.streams[c].usingPlaceholder then Active
                              else if !s.streams[c].isSeeded && c !in s.notified then WarmingUp else Recovering)
    && (s.streams[c].sourceIndex in s.selectors ==>
          s.selectors[s.streams[c].sourceIndex] == if s.streams[c].usingPlaceholder then Placeholder else Live)
    && (!s.streams[c].isSeeded && !s.streams[c].usingPlaceholder ==> c in s.notified)
    && (s.streams[c].usingPlaceholder ==> s.streams[c].sourceIndex in s.selectors)
  }

  /** At the last poll no live camera with a prepared slot was stale. */
  ghost predicate Healthy(cfg: Config, s: State) {
    && 0 < s.lastPoll <= s.clock
    && forall c :: c in s.streams ==> Fresh(cfg, s, c)
  }

  ghost predicate Fresh(cfg: Config, s: State, c: string)
    requires c in s.streams
  {
    && 0 < s.streams[c].lastBufferUs <= s.clock
    && (!s.streams[c].usingPlaceholder && s.streams[c].sourceIndex in s.selectors ==>
          s.lastPoll - s.streams[c].lastBufferUs < StaleAfterUs(cfg))
  }

  // ----- the transitions as functions of the state ------------------------------------------------------

  function AfterAdd(s: State, camera: Camera, index: nat, free: seq<nat>, next: nat, now: int): State {
    s.(streams := s.streams[camera.id := Slot(index, camera.uri, false, WarmingUp, now, true)],
       registry := s.registry[index := camera.id], selectors := s.selectors[index := Placeholder],
       free := free, next := next, clock := now, notified := s.notified - {camera.id})
  }

  function AfterRemove(s: State, id: string): State
    requires id in s.streams
  {
    var index := s.streams[id].sourceIndex;
    s.(streams := s.streams - {id}, registry := s.registry - {index},
       selectors := s.selectors[index := Placeholder], free := SortDescending(s.free + [index]))
  }

  function AfterBuffer(s: State, c: string, now: int): State
    requires c in s.streams
  {
    var was := s.streams[c];
    var t := s.(clock := now, notified := s.notified + {c});
    if was.usingPlaceholder && was.sourceIndex in s.selectors then
      t.(streams := s.streams[c := was.(lastBufferUs := now, usingPlaceholder := false, state := Active)],
         selectors := s.selectors[was.sourceIndex := Live])
    else t.(streams := s.streams[c := was.(lastBufferUs := now)])
  }

  /** What the health check at `now` makes of a stream: a stale live one falls back to the placeholder. */
  function CheckedSlot(cfg: Config, prepared: bool, slot: Slot, now: int): Slot {
    if slot.usingPlaceholder || slot.lastBufferUs <= 0 || now - slot.lastBufferUs < StaleAfterUs(cfg) || !prepared
    then slot else slot.(usingPlaceholder := true, state := Recovering)
  }

  /** One round of the health loop. */
  function AfterCheck(cfg: Config, s: State, c: string, now: int): State
    requires c in s.streams
  {
    var was := s.streams[c];
    var slot := CheckedSlot(cfg, was.sourceIndex in s.selectors, was, now);
    s.(streams := s.streams[c := slot],
       selectors := if slot == was then s.selectors else s.selectors[was.sourceIndex := Placeholder])
  }

  // ----- every transition keeps the invariant -----------------------------------------------------------

  lemma AddKeeps(cfg: Config, s: State, camera: Camera, index: nat, free: seq<nat>, next: nat, now: int)
    requires Owned(s) && Selected(s) && Healthy(cfg, s) && camera.id !in s.streams && s.clock <= now
    requires if s.free != [] then s.free == free + [index] && next == s.next
             else index == s.next && next == s.next + 1 && free == []
    ensures var t := AfterAdd(s, camera, index, free, next, now); Owned(t) && Selected(t) && Healthy(cfg, t)
  {
    var t := AfterAdd(s, camera, index, free, next, now);
    if s.free != [] {
      DropLowest(free, index);
    }
    assert index !in s.registry && index < next;
    forall c | c in t.streams ensures Registered(t, c) && StreamSelected(t, c) && Fresh(cfg, t, c) {
      assert c != camera.id ==> Registered(s, c) && StreamSelected(s, c) && Fresh(cfg, s, c);
    }
    forall i | i in t.registry ensures i < t.next && InUse(t, i) {
      assert i != index ==> InUse(s, i);
    }
    forall i | i in t.selectors ensures t.selectors[i] == Live <==> OwnedLive(t, i) {
      if i != index && i in s.registry {
        assert InUse(s, i);
      }
    }
  }

  /** Giving an allocated index back leaves a valid free list, the old one if it came from there. */
  lemma ReleaseKeeps(cfg: Config, s: State, rest: seq<nat>, index: nat, next: nat)
    requires Owned(s)
    requires if s.free != [] then s.free == rest + [index] && next == s.next
             else index == s.next && next == s.next + 1 && rest == []
    ensures var t := s.(free := SortDescending(rest + [index]), next := next);
      Owned(t) && (Selected(s) ==> Selected(t)) && (Healthy(cfg, s) ==> Healthy(cfg, t))
    ensures s.free != [] ==> SortDescending(rest + [index]) == s.free
    ensures s.free == [] ==> SortDescending(rest + [index]) == [index]
  {
    var t := s.(free := SortDescending(rest + [index]), next := next);
    if s.free != [] {
      SortedAlready(s.free);
    } else {
      SortedAlready([index]);
      assert rest + [index] == [index];
    }
    forall c | c in t.streams ensures Registered(t, c) {
      assert Registered(s, c);
    }
    forall i | i in t.registry ensures i < t.next && InUse(t, i) {
      assert InUse(s, i);
    }
    forall c | c in t.streams
      ensures (StreamSelected(s, c) ==> StreamSelected(t, c)) && (Fresh(cfg, s, c) ==> Fresh(cfg, t, c))
    {
    }
    assert forall i :: OwnedLive(t, i) == OwnedLive(s, i);
  }

  lemma RemoveKeeps(cfg: Config, s: State, id: string)
    requires Owned(s) && Selected(s) && Healthy(cfg, s) && id in s.streams && s.streams[id].sourceIndex in s.selectors
    ensures var t := AfterRemove(s, id); Owned(t) && Selected(t) && Healthy(cfg, t)
  {
    RemoveKeepsOwned(s, id);
    RemoveKeepsSelected(s, id);
    hide Owned, Selected, AfterRemove;
    RemoveKeepsHealthy(cfg, s, id);
  }

  lemma RemoveKeepsOwned(s: State, id: string)
    requires Owned(s) && id in s.streams
    ensures Owned(AfterRemove(s, id))
  {
    hide StrictlyDecreasing, SortDescending;
    var t, index := AfterRemove(s, id), s.streams[id].sourceIndex;
    assert Registered(s, id);
    ReleaseKeepsOrder(s.free, index);
    assert s.registry.Keys == t.registry.Keys + {index};
    forall c | c in t.streams ensures Registered(t, c) {
      assert Registered(s, c);
    }
    forall i | i in t.registry ensures i < t.next && InUse(t, i) {
      assert InUse(s, i);
    }
  }

  lemma RemoveKeepsSelected(s: State, id: string)
    requires Owned(s) && Selected(s) && id in s.streams
    ensures Selected(AfterRemove(s, id))
  {
    hide StrictlyDecreasing, SortDescending;
    var t, index := AfterRemove(s, id), s.streams[id].sourceIndex;
    forall c | c in t.streams ensures StreamSelected(t, c) {
      assert StreamSelected(s, c);
    }
    forall i | i in t.selectors ensures t.selectors[i] == Live <==> OwnedLive(t, i) {
      if i != index && i in s.registry {
        assert InUse(s, i);
      }
    }
  }

  lemma RemoveKeepsHealthy(cfg: Config, s: State, id: string)
    requires Healthy(cfg, s) && id in s.streams && s.streams[id].sourceIndex in s.selectors
    ensures Healthy(cfg, AfterRemove(s, id))
  {
    hide StaleAfterUs, SortDescending;
    var t := AfterRemove(s, id);
    forall c | c in t.streams ensures Fresh(cfg, t, c) {
      assert Fresh(cfg, s, c);
    }
  }

  lemma BufferKeeps(cfg: Config, s: State, c: string, now: int)
    requires Owned(s) && Selected(s) && Healthy(cfg, s) && c in s.streams && s.clock <= now
    ensures var t := AfterBuffer(s, c, now); Owned(t) && Selected(t) && Healthy(cfg, t)
  {
    hide StrictlyDecreasing, StaleAfterUs;
    var t, index := AfterBuffer(s, c, now), s.streams[c].sourceIndex;
    assert Registered(s, c);
    SameOwners(s, t);
    forall d | d in t.streams ensures StreamSelected(t, d) && Fresh(cfg, t, d) {
      assert StreamSelected(s, d) && Fresh(cfg, s, d);
    }
    forall i | i in t.selectors ensures t.selectors[i] == Live <==> OwnedLive(t, i) {
      if i in s.registry {
        assert InUse(s, i);
      }
    }
  }

  lemma CheckKeeps(s: State, cfg: Config, c: string, now: int)
    requires Owned(s) && Selected(s) && c in s.streams
    ensures var t := AfterCheck(cfg, s, c, now); Owned(t) && Selected(t)
  {
    hide StrictlyDecreasing, StaleAfterUs;
    var t := AfterCheck(cfg, s, c, now);
    assert Registered(s, c);
    SameOwners(s, t);
    forall d | d in t.streams ensures StreamSelected(t, d) {
      assert StreamSelected(s, d);
    }
    forall i | i in t.selectors ensures t.selectors[i] == Live <==> OwnedLive(t, i) {
      if i in s.registry {
        assert InUse(s, i);
      }
    }
  }

  /** Checking every stream at one time leaves none of them stale at that time. */
  lemma CheckedHealthy(cfg: Config, s: State, t: State)
    requires Healthy(cfg, s) && s.clock <= t.clock == t.lastPoll && t.streams.Keys == s.streams.Keys
    requires t.selectors.Keys == s.selectors.Keys
    requires forall c :: c in t.streams ==>
      t.streams[c] == CheckedSlot(cfg, s.streams[c].sourceIndex in t.selectors, s.streams[c], t.clock)
    ensures Healthy(cfg, t)
  {
    forall c | c in t.streams ensures Fresh(cfg, t, c) {
      assert Fresh(cfg, s, c);
    }
  }

  lemma SameOwners(s: State, t: State)
    requires Owned(s) && t.free == s.free && t.next == s.next && t.registry == s.registry
    requires t.streams.Keys == s.streams.Keys
    requires forall c :: c in s.streams ==> t.streams[c].sourceIndex == s.streams[c].sourceIndex
    ensures Owned(t)
  {
    forall c | c in t.streams ensures Registered(t, c) {
      assert Registered(s, c);
    }
    forall i | i in t.registry ensures i < t.next && InUse(t, i) {
      assert InUse(s, i);
    }
  }

  lemma OnlyTimePassed(s: State, t: State)
    requires Owned(s) && Selected(s) && t == s.(clock := t.clock, lastPoll := t.lastPoll)
    ensures Owned(t) && Selected(t)
  {
    SameOwners(s, t);
    forall c | c in t.streams ensures StreamSelected(t, c) {
      assert StreamSelected(s, c);
    }
    assert forall i :: OwnedLive(t, i) == OwnedLive(s, i);
  }

  // ----- what the invariant means -----------------------------------------------------------------------

  /** No two cameras share an index, and every index below next is either free or used by one camera. */
  lemma OwnershipMeans(s: State)
    requires Owned(s)
    ensures forall c, d :: c in s.streams && d in s.streams && c != d ==>
      s.streams[c].sourceIndex != s.streams[d].sourceIndex
    ensures forall c :: c in s.streams ==> s.streams[c].sourceIndex < s.next && s.streams[c].sourceIndex !in s.free
    ensures forall i: nat :: i < s.next ==> i in s.free || (i in s.registry && InUse(s, i))
  {
    forall c | c in s.streams
      ensures s.streams[c].sourceIndex < s.next && s.streams[c].sourceIndex !in s.free
        && s.registry[s.streams[c].sourceIndex] == c
    {
      assert Registered(s, c);
    }
    EveryIndexPlaced(s.free, s.registry.Keys, s.next);
  }

  lemma EveryIndexPlaced(free: seq<nat>, used: set<nat>, next: nat)
    requires StrictlyDecreasing(free) && |free| + |used| == next
    requires (forall i :: i in free ==> i < next && i !in used) && forall i :: i in used ==> i < next
    ensures forall i: nat :: i < next ==> i in free || i in used
  {
    var all, idle := Below(next), set i | i in free;
    DistinctSize(free, idle);
    assert idle * used == {};
    EqualBySize(idle + used, all);
  }

  ghost function Below(n: nat): (r: set<nat>)
    ensures |r| == n && forall i: nat :: i in r <==> i < n
  {
    if n == 0 then {} else Below(n - 1) + {n - 1}
  }

  lemma {:induction false} DistinctSize(s: seq<nat>, members: set<nat>)
    requires StrictlyDecreasing(s) && forall i: nat :: i in members <==> i in s
    ensures |members| == |s|
  {
    if s == [] {
      assert members == {};
    } else {
      assert s[0] !in s[1..] && forall i :: i in s <==> i == s[0] || i in s[1..];
      DistinctSize(s[1..], members - {s[0]});
    }
  }

  lemma EqualBySize(a: set<nat>, b: set<nat>)
    requires a <= b && |a| == |b|
    ensures a == b
  {
    assert b == a + (b - a);
    assert |b - a| == 0;
  }

  /** The slot of a camera off the placeholder is live. */
  lemma OwnerLive(s: State, c: string)
    requires Owned(s) && Selected(s) && c in s.streams
    ensures !s.streams[c].usingPlaceholder && s.streams[c].sourceIndex in s.selectors ==>
      s.selectors[s.streams[c].sourceIndex] == Live
  {
    assert Registered(s, c);
  }

  lemma CameraKept(cfg: Config, s: State, c: string)
    requires Selected(s) && Healthy(cfg, s) && c in s.streams
    ensures StreamSelected(s, c) && Fresh(cfg, s, c)
  {
  }

  lemma FreeInOrder(s: State)
    requires Owned(s)
    ensures StrictlyDecreasing(s.free)
  {
  }

  lemma OwnedInOrder(s: State)
    requires Owned(s)
    ensures StrictlyDecreasing(s.free)
    ensures forall i :: i in s.registry ==> InUse(s, i)
    ensures forall c :: c in s.streams ==> Registered(s, c)
  {
  }

  /** The number of streams is the number of used indexes. */
  lemma StreamCount(s: State)
    requires Owned(s)
    ensures |s.streams| == |s.registry|
  {
    SameSize(s, s.streams.Keys, s.registry.Keys);
  }

  lemma {:induction false} SameSize(s: State, cameras: set<string>, indexes: set<nat>)
    requires cameras <= s.streams.Keys && indexes <= s.registry.Keys
    requires forall c :: c in cameras ==> Registered(s, c) && s.streams[c].sourceIndex in indexes
    requires forall i :: i in indexes ==> InUse(s, i) && s.registry[i] in cameras
    ensures |cameras| == |indexes|
    decreases cameras
  {
    if cameras == {} {
      assert indexes == {};
    } else {
      var c :| c in cameras;
      SameSize(s, cameras - {c}, indexes - {s.streams[c].sourceIndex});
    }
  }

  /**
   * If the last poll is at most `period` ago, then once stale_after + period have passed since its last buffer
   * a camera is still live exactly when its slot could not be prepared: the poll can never switch that one.
   */
  lemma LiveIsFresh(cfg: Config, s: State, c: string, now: int, period: int)
    requires Healthy(cfg, s) && Selected(s) && c in s.streams && now - s.lastPoll <= period
    requires now - s.streams[c].lastBufferUs >= StaleAfterUs(cfg) + period
    ensures s.streams[c].state == Active <==> s.streams[c].sourceIndex !in s.selectors
  {
    assert StreamSelected(s, c) && Fresh(cfg, s, c);
  }

  /** With room left by the add check of a normalised configuration, the lowest free index is a real slot. */
  lemma FreeSlotExists(cfg: Config, s: State)
    requires Owned(s) && s.next == MaxSlots(cfg) && Capacity(cfg) <= MaxSlots(cfg) && |s.streams| < Capacity(cfg)
    ensures s.free != [] && s.free[|s.free| - 1] < MaxSlots(cfg)
  {
    StreamCount(s);
    assert s.free[|s.free| - 1] in s.free;
  }

  // ----- seeding --------------------------------------------------------------------------------------

  ghost predicate SeededSlot(slot: Slot, bins: map<string, nat>, slots: nat, c: string) {
    && SeededIndex(bins, slots, c).Some? && slot.sourceIndex == SeededIndex(bins, slots, c).value
    && slot.isSeeded && slot.state == Active && !slot.usingPlaceholder
  }

  /** One of the first `n` configured cameras has this id. */
  ghost predicate Configured(cameras: seq<Camera>, n: nat, c: string)
    requires n <= |cameras|
  {
    exists k :: 0 <= k < n && cameras[k].id == c
  }

  lemma ConfiguredStep(cameras: seq<Camera>, n: nat)
    requires n < |cameras|
    ensures forall c :: Configured(cameras, n + 1, c) <==> Configured(cameras, n, c) || c == cameras[n].id
  {
    forall c | Configured(cameras, n, c) || c == cameras[n].id ensures Configured(cameras, n + 1, c) {
      if Configured(cameras, n, c) {
        var k :| 0 <= k < n && cameras[k].id == c;
        assert cameras[k].id == c;
      } else {
        assert cameras[n].id == c;
      }
    }
  }

  /** The first `k` cameras have been seeded; the registry keys are the occupied slots. */
  ghost predicate Seeding(s: State, bins: map<string, nat>, cameras: seq<Camera>, k: nat, slots: nat)
    requires k <= |cameras|
  {
    && (forall c :: c in s.streams <==> Configured(cameras, k, c) && SeededIndex(bins, slots, c).Some?)
    && (forall c :: c in s.streams ==>
          SeededSlot(s.streams[c], bins, slots, c) && s.streams[c].sourceIndex in s.registry
          && s.streams[c].lastBufferUs == s.clock)
    && (forall i :: i in s.registry ==> i < slots && InUse(s, i))
    && (forall i :: i in s.registry && i in s.selectors ==> s.selectors[i] == Live)
  }

  lemma NothingSeeded(s: State, bins: map<string, nat>, cameras: seq<Camera>, slots: nat)
    requires s.streams == map[] && s.registry == map[]
    ensures Seeding(s, bins, cameras, 0, slots)
  {
    hide SeededIndex;
  }

  lemma SeedStep(s: State, bins: map<string, nat>, cameras: seq<Camera>, k: nat, slots: nat)
    requires k < |cameras| && Seeding(s, bins, cameras, k, slots)
    ensures
      var id := cameras[k].id;
      match SeededIndex(bins, slots, id)
      case None => Seeding(s, bins, cameras, k + 1, slots)
      case Some(index) =>
        var t := s.(streams := s.streams[id := Slot(index, cameras[k].uri, true, Active, s.clock, false)],
                    registry := s.registry[index := id],
                    selectors := if index in s.selectors then s.selectors[index := Live] else s.selectors);
        Seeding(t, bins, cameras, k + 1, slots)
  {
    hide SeededIndex, Configured;
    ConfiguredStep(cameras, k);
    var id := cameras[k].id;
    if SeededIndex(bins, slots, id).Some? {
      var index := SeededIndex(bins, slots, id).value;
      var t := s.(streams := s.streams[id := Slot(index, cameras[k].uri, true, Active, s.clock, false)],
                  registry := s.registry[index := id],
                  selectors := if index in s.selectors then s.selectors[index := Live] else s.selectors);
      forall i | i in t.registry ensures i < slots && InUse(t, i) {
        if i != index {
          assert InUse(s, i);
          assert SeededSlot(s.streams[s.registry[i]], bins, slots, s.registry[i]);
        }
      }
    }
  }

  lemma SeedsValid(cfg: Config, s: State, bins: map<string, nat>, cameras: seq<Camera>, slots: nat)
    requires slots == s.next && DistinctSeeds(cameras, bins, slots) && 0 < s.lastPoll == s.clock
    requires Seeding(s, bins, cameras, |cameras|, slots)
    requires StrictlyDecreasing(s.free) && |s.free| + |s.registry| == s.next
    requires forall i :: i in s.free ==> i < slots && i !in s.registry
    requires forall i :: i in s.selectors && i !in s.registry ==> s.selectors[i] == Idle
    ensures Owned(s) && Selected(s) && Healthy(cfg, s)
  {
    hide SeededIndex, StrictlyDecreasing;
    forall c | c in s.streams ensures Registered(s, c) {
      var i := s.streams[c].sourceIndex;
      assert InUse(s, i);
      var d := s.registry[i];
      assert SeededSlot(s.streams[c], bins, slots, c) && SeededSlot(s.streams[d], bins, slots, d);
    }
    forall i | i in s.registry ensures OwnedLive(s, i) {
      assert InUse(s, i);
      assert SeededSlot(s.streams[s.registry[i]], bins, slots, s.registry[i]);
    }
    forall c | c in s.streams ensures StreamSelected(s, c) && Fresh(cfg, s, c) {
      assert SeededSlot(s.streams[c], bins, slots, c);
    }
  }

  /** Idling the free slots and setting up the free list does not disturb the seeding. */
  lemma SeedingKept(s: State, t: State, bins: map<string, nat>, cameras: seq<Camera>, slots: nat)
    requires Seeding(s, bins, cameras, |cameras|, slots)
    requires t.streams == s.streams && t.registry == s.registry && t.clock == s.clock
    requires t.selectors.Keys == s.selectors.Keys
    requires forall i :: i in t.selectors && i in t.registry ==> t.selectors[i] == s.selectors[i]
    ensures Seeding(t, bins, cameras, |cameras|, slots)
  {
    hide SeededIndex, Configured;
    forall i | i in t.registry ensures InUse(t, i) {
      assert InUse(s, i);
    }
  }

  lemma SeedFacts(s: State, bins: map<string, nat>, cameras: seq<Camera>, slots: nat)
    requires Seeding(s, bins, cameras, |cameras|, slots)
    ensures forall i :: i in s.registry ==> i < slots
    ensures forall c :: c in s.streams <==> Configured(cameras, |cameras|, c) && SeededIndex(bins, slots, c).Some?
    ensures forall c :: c in s.streams ==> SeededSlot(s.streams[c], bins, slots, c)
  {
    hide SeededIndex, Configured;
  }

  lemma SeedsValidIff(cfg: Config, s: State, bins: map<string, nat>, cameras: seq<Camera>, slots: nat)
    requires slots == s.next && 0 < s.lastPoll == s.clock && Seeding(s, bins, cameras, |cameras|, slots)
    requires StrictlyDecreasing(s.free) && |s.free| + |s.registry| == s.next
    requires forall i :: i in s.free ==> i < slots && i !in s.registry
    requires forall i :: i in s.selectors && i !in s.registry ==> s.selectors[i] == Idle
    ensures Owned(s) && Selected(s) && Healthy(cfg, s) <==> DistinctSeeds(cameras, bins, slots)
  {
    hide SeededIndex, Owned, Selected, Healthy, Seeding, StrictlyDecreasing, DistinctSeeds;
    if DistinctSeeds(cameras, bins, slots) {
      SeedsValid(cfg, s, bins, cameras, slots);
    } else {
      SeedsClash(s, bins, cameras, slots);
    }
  }

  /** Two configured ids that differ only in a separator are found on the one bin both names stand for. */
  lemma AlikeIdsClash(uri: string, other: string, slots: nat)
    requires slots > 0
    ensures !DistinctSeeds([Camera("a.b", uri), Camera("a_b", other)], map["srcbin_a_b" := 0], slots)
  {
    var cameras, bins := [Camera("a.b", uri), Camera("a_b", other)], map["srcbin_a_b" := 0];
    assert NormaliseId("a.b") == "a_b" == NormaliseId("a_b");
    assert "srcbin_" + "a_b" == "srcbin_a_b";
    assert SourceBinName("a.b") == "srcbin_a_b" == SourceBinName("a_b");
    assert cameras[0].id == "a.b" && cameras[1].id == "a_b" && "a.b"[1] != "a_b"[1];
    assert SeededIndex(bins, slots, cameras[0].id) == Some(0) == SeededIndex(bins, slots, cameras[1].id);
  }

  lemma SeedsClash(s: State, bins: map<string, nat>, cameras: seq<Camera>, slots: nat)
    requires !DistinctSeeds(cameras, bins, slots)
    requires Seeding(s, bins, cameras, |cameras|, slots)
    ensures !Owned(s)
  {
    hide SeededIndex;
    var i, j :| 0 <= i < |cameras| && 0 <= j < |cameras| && cameras[i].id != cameras[j].id
      && SeededIndex(bins, slots, cameras[i].id).Some?
      && SeededIndex(bins, slots, cameras[i].id) == SeededIndex(bins, slots, cameras[j].id);
    var c, d := cameras[i].id, cameras[j].id;
    assert Configured(cameras, |cameras|, c) && Configured(cameras, |cameras|, d);
    assert SeededSlot(s.streams[c], bins, slots, c) && SeededSlot(s.streams[d], bins, slots, d);
    if Owned(s) {
      OwnershipMeans(s);
      assert false;
    }
  }

  class Manager {
    const cfg: Config
    const available: bool

    var selectors: map<nat, Pad>
    var streams: map<string, Slot>
    var registry: map<nat, string>
    var free: seq<nat>
    var next: nat
    var clock: int

    ghost var lastPoll: int
    ghost var notified: set<string>

    ghost function Now(): State
      reads this
    {
      State(selectors, streams, registry, free, next, clock, lastPoll, notified)
    }

    ghost predicate Valid()
      reads this
    {
      && Owned(Now()) && Selected(Now()) && Healthy(cfg, Now())
      && (available ==> MaxSlots(cfg) <= next)
      && (available && Capacity(cfg) <= MaxSlots(cfg) ==> next == MaxSlots(cfg))
    }

    // ----- allocator ---------------------------------------------------------------------------------

    /** The lowest free index, or a new one. */
    method AllocateSourceIndex() returns (index: nat)
      requires StrictlyDecreasing(free)
      modifies this`free, this`next
      ensures old(free) != [] ==>
        && old(free) == free + [index] && next == old(next)
        && (forall i :: i in old(free) ==> index <= i)
      ensures old(free) == [] ==> index == old(next) && next == old(next) + 1 && free == []
    {
      if free != [] {
        index := free[|free| - 1];
        free := free[..|free| - 1];
        assert old(free) == free + [index];
        DropLowest(free, index);
        return;
      }
      index := next;
      next := next + 1;
    }

    method ReleaseSourceIndex(index: nat)
      modifies this`free
      ensures free == SortDescending(old(free) + [index])
      ensures StrictlyDecreasing(old(free)) && index !in old(free) ==>
        && StrictlyDecreasing(free) && |free| == |old(free)| + 1
        && (forall i :: i in free <==> i in old(free) || i == index)
        && ((forall i :: i in old(free) ==> i > index) ==> free == old(free) + [index])
    {
      if StrictlyDecreasing(free) && index !in free {
        ReleaseKeepsOrder(free, index);
      }
      free := SortDescending(free + [index]);
    }

    method SwitchSlot(index: nat, pad: Pad) returns (switched: bool)
      modifies this`selectors
      ensures switched == (index in old(selectors))
      ensures selectors == if switched then old(selectors)[index := pad] else old(selectors)
    {
      if index !in selectors {
        return false;
      }
      selectors := selectors[index := pad];
      switched := true;
    }

    method ReadClock() returns (now: int)
      modifies this`clock
      ensures now == clock && clock >= old(clock)
    {
      var elapsed: int := *;
      if elapsed > 0 {
        clock := clock + elapsed;
      }
      now := clock;
    }

    // ----- start ---------------------------------------------------------------------------------------

    /**
     * `prepared` are the slots that could be created or discovered, in whatever selector state;
     * `bins` maps each linked source bin of the graph to its slot. The invariant holds from the start
     * exactly when no two configured ids are found on the same slot.
     */
    constructor (cfg: Config, available: bool, prepared: map<nat, Pad>, bins: map<string, nat>,
                 cameras: seq<Camera>, now: int)
      requires now > 0 && forall i :: i in prepared ==> i < MaxSlots(cfg)
      ensures this.cfg == cfg && this.available == available
      ensures Valid() <==> (available ==> DistinctSeeds(cameras, bins, MaxSlots(cfg)))
      ensures selectors.Keys == (if available then prepared.Keys else {})
      ensures forall c :: c in streams <==>
        available && Configured(cameras, |cameras|, c) && SeededIndex(bins, MaxSlots(cfg), c).Some?
      ensures forall c :: c in streams ==>
        && streams[c].sourceIndex == SeededIndex(bins, MaxSlots(cfg), c).value
        && streams[c].isSeeded && streams[c].state == Active && !streams[c].usingPlaceholder
    {
      this.cfg, this.available := cfg, available;
      selectors := if available then prepared else map[];
      streams, registry, free, next := map[], map[], [], 0;
      clock, lastPoll, notified := now, now, {};
      new;
      if available {
        SeedExistingStreams(bins, cameras);
      }
    }

    method SeedExistingStreams(bins: map<string, nat>, cameras: seq<Camera>)
      requires available && streams == map[] && registry == map[] && 0 < lastPoll == clock
      requires forall i :: i in selectors ==> i < MaxSlots(cfg)
      modifies this`selectors, this`streams, this`registry, this`free, this`next
      ensures selectors.Keys == old(selectors).Keys
      ensures Valid() <==> DistinctSeeds(cameras, bins, MaxSlots(cfg))
      ensures forall c :: c in streams <==>
        Configured(cameras, |cameras|, c) && SeededIndex(bins, MaxSlots(cfg), c).Some?
      ensures forall c :: c in streams ==>
        && streams[c].sourceIndex == SeededIndex(bins, MaxSlots(cfg), c).value
        && streams[c].isSeeded && streams[c].state == Active && !streams[c].usingPlaceholder
    {
      hide SeededIndex, MaxSlots, StaleAfterUs, Capacity, Owned, Selected, Healthy, StrictlyDecreasing,
        DistinctSeeds, Configured, Seeding;
      var slots := MaxSlots(cfg);
      var occupied := SeedCameras(bins, cameras, slots);
      ghost var seeded := Now();
      SeedFacts(seeded, bins, cameras, slots);
      ReleaseUnoccupied(slots, occupied);
      SeedingKept(seeded, Now(), bins, cameras, slots);
      SeedsValidIff(cfg, Now(), bins, cameras, slots);
      SeedFacts(Now(), bins, cameras, slots);
    }

    /** Puts every configured camera that owns a source bin on the slot of that bin. */
    method SeedCameras(bins: map<string, nat>, cameras: seq<Camera>, slots: nat) returns (occupied: set<nat>)
      requires streams == map[] && registry == map[]
      modifies this`selectors, this`streams, this`registry
      ensures selectors.Keys == old(selectors).Keys && registry.Keys == occupied
      ensures Seeding(Now(), bins, cameras, |cameras|, slots)
    {
      hide SeededIndex, Configured, Seeding;
      occupied := {};
      NothingSeeded(Now(), bins, cameras, slots);
      for k := 0 to |cameras|
        invariant selectors.Keys == old(selectors).Keys && registry.Keys == occupied
        invariant Seeding(Now(), bins, cameras, k, slots)
      {
        SeedStep(Now(), bins, cameras, k, slots);
        var id := cameras[k].id;
        var found := SeededIndex(bins, slots, id);
        if found.Some? {
          var index := found.value;
          var switched := SwitchSlot(index, Live);
          streams := streams[id := Slot(index, cameras[k].uri, true, Active, clock, false)];
          registry := registry[index := id];
          occupied := occupied + {index};
        }
      }
    }

    /** Slots without a camera go idle and become free. */
    method ReleaseUnoccupied(slots: nat, occupied: set<nat>)
      requires registry.Keys == occupied && forall i :: i in occupied ==> i < slots
      requires forall i :: i in selectors ==> i < slots
      modifies this`selectors, this`registry, this`free, this`next
      ensures next == slots && registry == old(registry)
      ensures StrictlyDecreasing(free) && |free| + |occupied| == slots
      ensures forall i :: i in free <==> 0 <= i < slots && i !in occupied
      ensures selectors.Keys == old(selectors).Keys
      ensures forall i :: i in selectors ==> selectors[i] == if i in occupied then old(selectors)[i] else Idle
    {
      free := [];
      ghost var below: set<nat> := {};
      for i := 0 to slots
        invariant registry == old(registry)
        invariant selectors.Keys == old(selectors).Keys
        invariant forall k :: k in selectors ==>
          selectors[k] == if k in occupied || k >= i then old(selectors)[k] else Idle
        invariant forall k :: k in below <==> k in occupied && k < i
        invariant |free| + |below| == i
        invariant forall k :: k in free <==> 0 <= k < i && k !in occupied
        invariant forall j, k :: 0 <= j < k < |free| ==> free[j] != free[k]
      {
        if i !in occupied {
          var switched := SwitchSlot(i, Idle);
          registry := registry - {i};
          free := free + [i];
        } else {
          below := below + {i};
        }
      }
      assert below == occupied;
      SortDistinct(free);
      SortMembers(free);
      free := SortDescending(free);
      next := slots;
    }

    // ----- operations --------------------------------------------------------------------------------

    predicate RefusedEarly(camera: Camera)
      reads this
    {
      camera.id == "" || camera.uri == "" || !available || camera.id in streams || |streams| >= Capacity(cfg)
    }

    function NextIndex(): nat
      reads this
    {
      if free != [] then free[|free| - 1] else next
    }

    /**
     * A successful add takes the lowest free index and starts on the placeholder; a failed add changes no
     * map, and restores the allocator exactly unless it had to make up an index that has no slot.
     */
    method AddStream(camera: Camera, outcome: BuildOutcome) returns (result: AddResult)
      requires Valid()
      modifies this
      ensures Valid() && clock >= old(clock)
      ensures old(RefusedEarly(camera)) ==> Now() == old(Now())
      ensures result == InvalidRequest <==> camera.id == "" || camera.uri == ""
      ensures result == Unavailable <==> camera.id != "" && camera.uri != "" && !available
      ensures result == DuplicateCamera <==>
        camera.id != "" && camera.uri != "" && available && camera.id in old(streams)
      ensures result == MaxSourcesReached <==>
        camera.id != "" && camera.uri != "" && available && camera.id !in old(streams)
        && |old(streams)| >= Capacity(cfg)
      ensures !old(RefusedEarly(camera)) ==>
        && (result.Added? <==> old(NextIndex()) in old(selectors) && outcome == Builds)
        && (result == SlotUnavailable <==> old(NextIndex()) !in old(selectors))
        && (result == LinkSourceFailed <==> old(NextIndex()) in old(selectors) && outcome == LinkFails)
        && (result == BuildSourceFailed <==> old(NextIndex()) in old(selectors) && outcome in {BuildFails, SyncFails})
      ensures result.Added? ==>
        && result.index == old(NextIndex()) && (forall i :: i in old(free) ==> result.index <= i)
        && Now() == AfterAdd(old(Now()), camera, result.index, free, next, clock)
        && streams == old(streams)[camera.id := Slot(result.index, camera.uri, false, WarmingUp, clock, true)]
        && registry == old(registry)[result.index := camera.id]
        && selectors == old(selectors)[result.index := Placeholder]
        && (if old(free) != [] then old(free) == free + [result.index] && next == old(next)
            else free == [] && next == old(next) + 1)
      ensures !result.Added? ==>
        && Now() == old(Now()).(free := free, next := next)
        && (free == old(free) && next == old(next) <==> old(RefusedEarly(camera)) || old(free) != [])
    {
      hide StaleAfterUs, MaxSlots, Capacity, SortDescending, Owned, Selected, Healthy;
      ghost var before := Now();
      FreeInOrder(before);
      if camera.id == "" || camera.uri == "" {
        return InvalidRequest;
      }
      if !available {
        return Unavailable;
      }
      if camera.id in streams {
        return DuplicateCamera;
      }
      if |streams| >= Capacity(cfg) {
        return MaxSourcesReached;
      }
      if Capacity(cfg) <= MaxSlots(cfg) {
        FreeSlotExists(cfg, before);
      }
      var index := AllocateSourceIndex();
      result := BuildStream(camera, outcome, index, before);
    }

    /** The second half of the add: `index` was just taken from the allocator of state `before`. */
    method BuildStream(camera: Camera, outcome: BuildOutcome, index: nat, ghost before: State)
      returns (result: AddResult)
      requires Owned(before) && Selected(before) && Healthy(cfg, before) && camera.id !in streams
      requires Now() == before.(free := free, next := next)
      requires if before.free != [] then before.free == free + [index] && next == before.next
               else index == before.next && next == before.next + 1 && free == []
      modifies this
      ensures Owned(Now()) && Selected(Now()) && Healthy(cfg, Now()) && clock >= old(clock)
      ensures result in {SlotUnavailable, LinkSourceFailed, BuildSourceFailed, Added(index)}
      ensures result == Added(index) <==> index in old(selectors) && outcome == Builds
      ensures result == SlotUnavailable <==> index !in old(selectors)
      ensures result == LinkSourceFailed <==> index in old(selectors) && outcome == LinkFails
      ensures result.Added? ==> Now() == AfterAdd(before, camera, index, free, next, clock)
      ensures result.Added? ==> free == old(free) && next == old(next)
      ensures !result.Added? ==>
        && Now() == before.(free := free, next := next)
        && next == old(next) && free == if before.free != [] then before.free else [index]
    {
      hide StaleAfterUs, MaxSlots, Capacity, SortDescending, Owned, Selected, Healthy, StrictlyDecreasing;
      if index !in selectors || outcome != Builds {
        ReleaseKeeps(cfg, before, free, index, next);
        ReleaseSourceIndex(index);
        return if index !in selectors then SlotUnavailable
               else if outcome == LinkFails then LinkSourceFailed else BuildSourceFailed;
      }
      InstallStream(camera, index);
      AddKeeps(cfg, before, camera, index, free, next, clock);
      assert Now() == AfterAdd(before, camera, index, free, next, clock);
      result := Added(index);
    }

    method InstallStream(camera: Camera, index: nat)
      requires index in selectors
      modifies this`streams, this`registry, this`selectors, this`notified, this`clock
      ensures Now() == AfterAdd(old(Now()), camera, index, free, next, clock) && clock >= old(clock)
    {
      var now := ReadClock();
      var switched := SwitchSlot(index, Placeholder);
      streams := streams[camera.id := Slot(index, camera.uri, false, WarmingUp, now, true)];
      registry := registry[index := camera.id];
      notified := notified - {camera.id};
    }

    method RemoveStream(id: string) returns (removed: Option<Slot>)
      requires Valid()
      modifies this
      ensures Valid()
      ensures removed ==
        if available && id in old(streams) && old(streams)[id].sourceIndex in old(selectors)
        then Some(old(streams)[id]) else None
      ensures Now() == if removed.Some? then AfterRemove(old(Now()), id) else old(Now())
      ensures removed.Some? ==>
        && streams == old(streams) - {id} && registry == old(registry) - {removed.value.sourceIndex}
        && selectors == old(selectors)[removed.value.sourceIndex := Placeholder]
        && multiset(free) == multiset(old(free)) + multiset{removed.value.sourceIndex} && next == old(next)
    {
      hide StaleAfterUs, MaxSlots, Capacity, SortDescending, Owned, Selected, Healthy;
      ghost var before := Now();
      if !available || id !in streams {
        return None;
      }
      var slot := streams[id];
      if slot.sourceIndex !in selectors {
        return None;
      }
      var switched := SwitchSlot(slot.sourceIndex, Placeholder);
      registry := registry - {slot.sourceIndex};
      ReleaseSourceIndex(slot.sourceIndex);
      streams := streams - {id};
      RemoveKeeps(cfg, before, id);
      assert Now() == AfterRemove(before, id);
      removed := Some(slot);
    }

    /** A buffer arrived on the pad that was probed for this index. */
    method NoteStreamActivity(index: nat)
      requires Valid()
      modifies this`streams, this`selectors, this`clock, this`notified
      ensures Valid() && clock >= old(clock)
      ensures if index in old(registry) then Now() == AfterBuffer(old(Now()), old(registry)[index], clock)
              else Now() == old(Now())
      ensures index in old(registry) ==>
        var c := old(registry)[index];
        && c in old(streams) && streams.Keys == old(streams).Keys
        && streams[c] == old(streams)[c].(lastBufferUs := clock, usingPlaceholder := false, state := Active)
        && (forall d :: d in streams && d != c ==> streams[d] == old(streams)[d])
        && selectors == if index in old(selectors) then old(selectors)[index := Live] else old(selectors)
    {
      hide StaleAfterUs, MaxSlots, Capacity, StrictlyDecreasing, Owned, Selected, Healthy;
      ghost var before := Now();
      OwnedInOrder(before);
      if c :| c in streams && streams[c].sourceIndex == index {
        var slot := streams[c];
        CameraKept(cfg, before, c);
        var now := ReadClock();
        slot := slot.(lastBufferUs := now);
        if slot.usingPlaceholder {
          var switched := SwitchSlot(index, Live);
          if switched {
            slot := slot.(usingPlaceholder := false, state := Active);
          }
        }
        streams := streams[c := slot];
        notified := notified + {c};
        BufferKeeps(cfg, before, c, now);
        assert Now() == AfterBuffer(before, c, now);
      }
    }

    method CheckStream(c: string, now: int)
      requires c in streams
      modifies this`streams, this`selectors
      ensures Now() == AfterCheck(cfg, old(Now()), c, now)
    {
      hide StaleAfterUs;
      var slot := streams[c];
      assert streams[c := slot] == streams;
      if !slot.usingPlaceholder && slot.lastBufferUs > 0 && now - slot.lastBufferUs >= StaleAfterUs(cfg) {
        var switched := SwitchSlot(slot.sourceIndex, Placeholder);
        if switched {
          streams := streams[c := slot.(usingPlaceholder := true, state := Recovering)];
        }
      }
    }

    /** The periodic health check moves every stale live camera to its placeholder and touches no other. */
    method PollStreamHealth()
      requires Valid()
      modifies this`streams, this`selectors, this`clock, this`lastPoll
      ensures Valid() && lastPoll == clock >= old(clock)
      ensures streams.Keys == old(streams).Keys && selectors.Keys == old(selectors).Keys
      ensures forall c :: c in streams ==>
        streams[c] == CheckedSlot(cfg, old(streams)[c].sourceIndex in selectors, old(streams)[c], clock)
      ensures forall i :: i in selectors && old(selectors)[i] != Live ==> selectors[i] == old(selectors)[i]
      ensures forall c :: c in streams ==>
        var was := old(streams)[c];
        if was.state == Active && was.sourceIndex in selectors && clock - was.lastBufferUs >= StaleAfterUs(cfg) then
          && streams[c] == was.(usingPlaceholder := true, state := Recovering)
          && selectors[was.sourceIndex] == Placeholder
        else streams[c] == was
    {
      hide StaleAfterUs, MaxSlots, Capacity, Owned, Selected, Healthy, AfterCheck, CheckedSoFar;
      ghost var before := Now();
      var now := ReadClock();
      NothingChecked(cfg, before, now);
      OnlyTimePassed(before, Now());
      var todo := streams.Keys;
      while todo != {}
        invariant todo <= streams.Keys
        invariant CheckedSoFar(cfg, before, Now(), todo, now)
        invariant Owned(Now()) && Selected(Now())
        decreases todo
      {
        var c :| c in todo;
        CheckedStep(cfg, before, Now(), todo, c, now);
        CheckKeeps(Now(), cfg, c, now);
        todo := todo - {c};
        CheckStream(c, now);
      }
      ghost var checked := Now();
      AllChecked(cfg, before, checked, now);
      lastPoll := now;
      OnlyTimePassed(checked, Now());
      CheckedHealthy(cfg, before, Now());
      forall c | c in streams ensures StreamSelected(before, c) && Fresh(cfg, before, c) && StreamSelected(Now(), c) {
        CameraKept(cfg, before, c);
        CameraKept(cfg, Now(), c);
      }
    }
  }

  /** During a health check: every stream outside `todo` has been checked, the others are as before. */
  ghost predicate CheckedSoFar(cfg: Config, before: State, s: State, todo: set<string>, now: int) {
    && s == before.(streams := s.streams, selectors := s.selectors, clock := now)
    && s.streams.Keys == before.streams.Keys && s.selectors.Keys == before.selectors.Keys
    && (forall c :: c in s.streams && c in todo ==> s.streams[c] == before.streams[c])
    && (forall c :: c in s.streams && c !in todo ==>
          s.streams[c] == CheckedSlot(cfg, before.streams[c].sourceIndex in s.selectors, before.streams[c], now))
    && forall i :: i in s.selectors && before.selectors[i] != Live ==> s.selectors[i] == before.selectors[i]
  }

  lemma NothingChecked(cfg: Config, before: State, now: int)
    ensures CheckedSoFar(cfg, before, before.(clock := now), before.streams.Keys, now)
  {
  }

  lemma CheckedStep(cfg: Config, before: State, s: State, todo: set<string>, c: string, now: int)
    requires CheckedSoFar(cfg, before, s, todo, now) && c in todo && c in s.streams && Owned(s) && Selected(s)
    ensures CheckedSoFar(cfg, before, AfterCheck(cfg, s, c, now), todo - {c}, now)
    ensures AfterCheck(cfg, s, c, now).streams.Keys == s.streams.Keys
  {
    hide StaleAfterUs, Owned, Selected;
    OwnerLive(s, c);
  }

  lemma AllChecked(cfg: Config, before: State, s: State, now: int)
    requires CheckedSoFar(cfg, before, s, {}, now)
    ensures s == before.(streams := s.streams, selectors := s.selectors, clock := now)
    ensures s.streams.Keys == before.streams.Keys && s.selectors.Keys == before.selectors.Keys
    ensures forall c :: c in s.streams ==>
      s.streams[c] == CheckedSlot(cfg, before.streams[c].sourceIndex in s.selectors, before.streams[c], now)
    ensures forall i :: i in s.selectors && before.selectors[i] != Live ==> s.selectors[i] == before.selectors[i]
  {
    hide StaleAfterUs;
  }
}
