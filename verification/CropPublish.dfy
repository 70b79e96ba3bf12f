/** Publishing crops: decisions, message chain and parent/child messages (crop_object_handler.cpp). */
module CropPublish {
  import opened Options
  import opened TextOrder
  import opened ObjectGroups
  import Capture = CaptureDecision

  /** A generated UUID, or the empty string. */
  datatype Key = NoKey | Uuid(serial: nat)

  /** compute_payload_hash, taken to be free of collisions; Zero is the initial value. */
  datatype Hash = Zero | HashOf(classId: int, objLabel: string, sgieLabels: string, box: PixelBox)

  datatype PubState = PubState(
    gate: Capture.Gate, heartbeatSeq: nat, lastPayloadHash: Hash, lastMessageId: string, lastInstanceKey: Key,
    lastPublishPts: Capture.Pts)

  const NEW_PUB := PubState(Capture.NEW_GATE, 0, Zero, "", NoKey, Capture.NoPts)

  datatype FrameContext = FrameContext(source: nat, pts: Capture.Pts, timestampMs: int, frameNum: nat)

  datatype Message = Message(
    source: nat, trackerId: nat, objectKey: Key, instanceKey: Key,
    parentTid: Option<nat>, parentObjectKey: Key, parentInstanceKey: Key,
    classId: int, objLabel: string, sgieLabels: string, box: PixelBox, messageId: string, prevMessageId: string,
    pubType: Capture.Decision, heartbeatSeq: nat, frameNum: nat)

  /** What the heartbeat test compares. */
  function PayloadOf(m: Message): Hash {
    HashOf(m.classId, m.objLabel, m.sgieLabels, m.box)
  }

  function Payload(x: Obj): Hash {
    HashOf(x.classId, x.objLabel, x.sgieLabels, x.box)
  }

  const MAX_TRACKED_OBJECTS := 5000

  function MessageId(ctx: FrameContext): string {
    "src_" + IntText(ctx.source) + "_f" + IntText(ctx.frameNum) + "_" + IntText(ctx.timestampMs)
  }

  // ----- the log of a run ---------------------------------------------------------------------------------

  /** Messages in publishing order, and the points at which the state of a key was cleaned up. */
  datatype LogEntry = Sent(m: Message) | Forgot(keys: set<nat>) | ForgotAll

  function KeyOfMessage(m: Message): nat {
    ComposeKey(m.source, m.trackerId)
  }

  ghost predicate Ends(e: LogEntry, key: nat) {
    match e
    case Sent(_) => false
    case Forgot(keys) => key in keys
    case ForgotAll => true
  }

  /** Id of the last message of the key since its state was created, or empty. */
  ghost function LastId(log: seq<LogEntry>, key: nat): string {
    if log == [] then ""
    else
      var last := log[|log| - 1];
      if last.Sent? && KeyOfMessage(last.m) == key then last.m.messageId
      else if Ends(last, key) then "" else LastId(log[..|log| - 1], key)
  }

  /** Payload of the last message of the key since its state was created. */
  ghost function LastPayload(log: seq<LogEntry>, key: nat): Hash {
    if log == [] then Zero
    else
      var last := log[|log| - 1];
      if last.Sent? && KeyOfMessage(last.m) == key then PayloadOf(last.m)
      else if Ends(last, key) then Zero else LastPayload(log[..|log| - 1], key)
  }

  /** Heartbeats of the key since its last FirstSeen message or the creation of its state. */
  ghost function Heartbeats(log: seq<LogEntry>, key: nat): nat {
    if log == [] then 0
    else
      var last, before := log[|log| - 1], log[..|log| - 1];
      if last.Sent? && KeyOfMessage(last.m) == key then
        match last.m.pubType
        case FirstSeen => 0
        case Heartbeat => Heartbeats(before, key) + 1
        case _ => Heartbeats(before, key)
      else if Ends(last, key) then 0 else Heartbeats(before, key)
  }

  /** What one more message changes about each key. */
  lemma ChainSnoc(log: seq<LogEntry>, m: Message, key: nat)
    ensures
      var longer, own := log + [Sent(m)], KeyOfMessage(m) == key;
      && LastId(longer, key) == (if own then m.messageId else LastId(log, key))
      && LastPayload(longer, key) == (if own then PayloadOf(m) else LastPayload(log, key))
      && Heartbeats(longer, key) == if !own then Heartbeats(log, key)
                                    else match m.pubType
                                         case FirstSeen => 0
                                         case Heartbeat => Heartbeats(log, key) + 1
                                         case _ => Heartbeats(log, key)
  {
    hide KeyOfMessage;
    assert (log + [Sent(m)])[..|log|] == log;
  }

  lemma EndSnoc(log: seq<LogEntry>, e: LogEntry, key: nat)
    requires !e.Sent?
    ensures
      var longer := log + [e];
      if Ends(e, key) then LastId(longer, key) == "" && LastPayload(longer, key) == Zero && Heartbeats(longer, key) == 0
      else
        && LastId(longer, key) == LastId(log, key) && LastPayload(longer, key) == LastPayload(log, key)
        && Heartbeats(longer, key) == Heartbeats(log, key)
  {
    hide KeyOfMessage;
    assert (log + [e])[..|log|] == log;
  }

  /** Every message links to its predecessor and carries the heartbeat count. */
  ghost predicate LinkedAt(log: seq<LogEntry>, i: nat)
    requires i < |log| && log[i].Sent?
  {
    var key := KeyOfMessage(log[i].m);
    log[i].m.prevMessageId == LastId(log[..i], key) && log[i].m.heartbeatSeq == Heartbeats(log[..i + 1], key)
  }

  ghost predicate Linked(log: seq<LogEntry>) {
    forall i :: 0 <= i < |log| && log[i].Sent? ==> LinkedAt(log, i)
  }

  lemma LinkedPush(log: seq<LogEntry>, e: LogEntry)
    requires Linked(log)
    requires e.Sent? ==>
      var key := KeyOfMessage(e.m);
      e.m.prevMessageId == LastId(log, key) && e.m.heartbeatSeq == Heartbeats(log + [e], key)
    ensures Linked(log + [e])
  {
    hide LastId, Heartbeats, KeyOfMessage;
    var all := log + [e];
    forall i | 0 <= i < |all| && all[i].Sent? ensures LinkedAt(all, i) {
      if i < |log| {
        assert LinkedAt(log, i);
        assert all[..i] == log[..i] && all[..i + 1] == log[..i + 1];
      } else {
        assert all[..i] == log && all[..i + 1] == all;
      }
    }
  }

  /** Between two messages of one object there is no gap in the chain, until its state is cleaned up. */
  lemma {:induction false} ChainHasNoGaps(log: seq<LogEntry>, i: nat, j: nat)
    requires Linked(log) && i < j < |log| && log[i].Sent? && log[j].Sent?
    requires KeyOfMessage(log[i].m) == KeyOfMessage(log[j].m)
    requires forall n :: i < n < j ==>
      && !Ends(log[n], KeyOfMessage(log[i].m))
      && (log[n].Sent? ==> KeyOfMessage(log[n].m) != KeyOfMessage(log[i].m))
    ensures log[j].m.prevMessageId == log[i].m.messageId
  {
    hide KeyOfMessage;
    assert LinkedAt(log, j);
    LastIdReaches(log[..j], i, KeyOfMessage(log[i].m));
  }

  /**
   * Within a chain the heartbeat sequence number counts: a heartbeat has one more than its predecessor, a bypass as
   * many, and a first sighting starts again at zero.
   */
  lemma HeartbeatSeqCounts(log: seq<LogEntry>, i: nat, j: nat)
    requires Linked(log) && i < j < |log| && log[i].Sent? && log[j].Sent?
    requires KeyOfMessage(log[i].m) == KeyOfMessage(log[j].m)
    requires forall n :: i < n < j ==>
      && !Ends(log[n], KeyOfMessage(log[i].m))
      && (log[n].Sent? ==> KeyOfMessage(log[n].m) != KeyOfMessage(log[i].m))
    ensures log[j].m.pubType == Capture.FirstSeen ==> log[j].m.heartbeatSeq == 0
    ensures log[j].m.pubType == Capture.Heartbeat ==> log[j].m.heartbeatSeq == log[i].m.heartbeatSeq + 1
    ensures log[j].m.pubType == Capture.Bypass ==> log[j].m.heartbeatSeq == log[i].m.heartbeatSeq
  {
    hide KeyOfMessage, LastId;
    var key := KeyOfMessage(log[i].m);
    assert LinkedAt(log, i) && LinkedAt(log, j);
    HeartbeatsReach(log[..j], i, key);
    assert log[..j][..i + 1] == log[..i + 1];
    assert log[..j + 1][..j] == log[..j] && log[..j + 1][j] == log[j];
  }

  lemma {:induction false} HeartbeatsReach(log: seq<LogEntry>, i: nat, key: nat)
    requires i < |log|
    requires forall n :: i < n < |log| ==> !Ends(log[n], key) && (log[n].Sent? ==> KeyOfMessage(log[n].m) != key)
    ensures Heartbeats(log, key) == Heartbeats(log[..i + 1], key)
  {
    hide KeyOfMessage;
    if i < |log| - 1 {
      HeartbeatsReach(log[..|log| - 1], i, key);
      assert log[..|log| - 1][..i + 1] == log[..i + 1];
    } else {
      assert log[..i + 1] == log;
    }
  }

  /** The message id identifies source, frame and time stamp, so all messages of one frame share it. */
  lemma MessageIdExact(a: FrameContext, b: FrameContext)
    ensures MessageId(a) == MessageId(b) <==>
      a.source == b.source && a.frameNum == b.frameNum && a.timestampMs == b.timestampMs
  {
    hide IntText;
    var p, q := IntText(a.source), IntText(b.source);
    var f, g := IntText(a.frameNum), IntText(b.frameNum);
    var t, u := IntText(a.timestampMs), IntText(b.timestampMs);
    var x, y := p + ['_'] + ("f" + (f + ['_'] + t)), q + ['_'] + ("f" + (g + ['_'] + u));
    assert MessageId(a) == "src_" + x && MessageId(b) == "src_" + y;
    if MessageId(a) == MessageId(b) {
      assert x == ("src_" + x)[4..] == ("src_" + y)[4..] == y;
      IntTextAvoids(a.source, '_');
      IntTextAvoids(b.source, '_');
      IntTextAvoids(a.frameNum, '_');
      IntTextAvoids(b.frameNum, '_');
      SplitFirst(p, "f" + (f + ['_'] + t), q, "f" + (g + ['_'] + u), '_');
      assert f + ['_'] + t == ("f" + (f + ['_'] + t))[1..] && g + ['_'] + u == ("f" + (g + ['_'] + u))[1..];
      SplitFirst(f, t, g, u, '_');
      IntTextInjective(a.source, b.source);
      IntTextInjective(a.frameNum, b.frameNum);
      IntTextInjective(a.timestampMs, b.timestampMs);
    }
  }

  // ----- every message -------------------------------------------------------------------------------------

  /** The message is about a tracked, labelled object that passes the filter, and has a reason. */
  ghost predicate Publishable(filter: seq<string>, m: Message) {
    && m.trackerId != UNTRACKED && m.objLabel != "" && (filter == [] || m.objLabel in filter)
    && m.pubType != Capture.Skip
  }

  ghost predicate Known(key: Key, next: nat) {
    key.Uuid? && key.serial < next
  }

  /** No message has used the key. */
  ghost predicate Unused(log: seq<LogEntry>, key: Key) {
    forall i :: 0 <= i < |log| && log[i].Sent? ==> log[i].m.instanceKey != key
  }

  /** Every message is publishable, and no two messages share an instance key. */
  ghost predicate Registered(filter: seq<string>, log: seq<LogEntry>, next: nat) {
    && (forall i :: 0 <= i < |log| && log[i].Sent? ==>
          Publishable(filter, log[i].m) && Known(log[i].m.instanceKey, next))
    && forall i, j :: 0 <= i < j < |log| && log[i].Sent? && log[j].Sent? ==>
      log[i].m.instanceKey != log[j].m.instanceKey
  }

  lemma RegisteredPush(filter: seq<string>, log: seq<LogEntry>, next: nat, e: LogEntry)
    requires Registered(filter, log, next)
    requires e.Sent? ==> Publishable(filter, e.m) && Known(e.m.instanceKey, next) && Unused(log, e.m.instanceKey)
    ensures Registered(filter, log + [e], next)
  {
    hide Publishable;
  }

  lemma RegisteredLater(filter: seq<string>, log: seq<LogEntry>, next: nat, later: nat)
    requires Registered(filter, log, next) && next <= later
    ensures Registered(filter, log, later) && Unused(log, Uuid(next))
  {
    hide Publishable;
  }

  /** When the objects of `keys` were last seen. */
  ghost function Stamp(seen: map<nat, Capture.Pts>, keys: set<nat>, pts: Capture.Pts): map<nat, Capture.Pts> {
    map k | k in seen.Keys + keys :: if k in keys then pts else seen[k]
  }

  lemma StampTwice(seen: map<nat, Capture.Pts>, a: set<nat>, b: set<nat>, pts: Capture.Pts)
    ensures Stamp(Stamp(seen, a, pts), b, pts) == Stamp(seen, a + b, pts)
  {
  }

  lemma Stamped(seen: map<nat, Capture.Pts>, keys: set<nat>, k: nat, pts: Capture.Pts)
    requires k in keys
    ensures k in Stamp(seen, keys, pts) && Stamp(seen, keys, pts)[k] == pts
  {
  }

  lemma StampAgain(seen: map<nat, Capture.Pts>, keys: set<nat>, k: nat, pts: Capture.Pts)
    requires k in seen && seen[k] == pts
    ensures
      var t := Stamp(seen, keys, pts);
      t == Stamp(seen, keys + {k}, pts) && k in t && t[k] == pts
  {
  }

  /** Last seen without a time stamp, or more than that many minutes ago. */
  ghost predicate LongUnseen(seen: map<nat, Capture.Pts>, key: nat, minutes: nat, now: nat) {
    key in seen && (seen[key].NoPts? || now > seen[key].ns + minutes * 60 * 1_000_000_000)
  }

  lemma StampNothing(seen: map<nat, Capture.Pts>, pts: Capture.Pts)
    ensures Stamp(seen, {}, pts) == seen
  {
  }

  ghost function SeenAs(source: nat, x: Obj): set<nat> {
    if x.objLabel == "" || x.tid == UNTRACKED then {} else {ComposeKey(source, x.tid)}
  }

  ghost function ChildrenSeen(source: nat, children: seq<Obj>): set<nat> {
    set k | 0 <= k < |children| && children[k].objLabel != "" && children[k].tid != UNTRACKED
      :: ComposeKey(source, children[k].tid)
  }

  lemma SeenItself(source: nat, x: Obj, seen: map<nat, Capture.Pts>, others: set<nat>, pts: Capture.Pts)
    requires x.objLabel != "" && x.tid != UNTRACKED
    ensures
      var key, t := ComposeKey(source, x.tid), Stamp(seen, SeenAs(source, x) + others, pts);
      key in t && t[key] == pts
  {
    hide ComposeKey;
  }

  lemma ChildrenSeenPush(source: nat, children: seq<Obj>, x: Obj)
    ensures ChildrenSeen(source, children + [x]) == ChildrenSeen(source, children) + SeenAs(source, x)
    ensures ChildrenSeen(source, []) == {}
  {
    hide ComposeKey;
    var all := children + [x];
    forall k | k in ChildrenSeen(source, children) ensures k in ChildrenSeen(source, all) {
      var i :| 0 <= i < |children| && children[i].objLabel != "" && children[i].tid != UNTRACKED
               && ComposeKey(source, children[i].tid) == k;
      assert all[i] == children[i];
    }
    assert all[|children|] == x;
  }

  /** Every object that a message from `start` on is about was seen at `pts`. */
  ghost predicate Sighted(log: seq<LogEntry>, start: nat, seen: map<nat, Capture.Pts>, pts: Capture.Pts) {
    forall i :: start <= i < |log| && log[i].Sent? ==>
      KeyOfMessage(log[i].m) in seen && seen[KeyOfMessage(log[i].m)] == pts
  }

  lemma SightedStamp(log: seq<LogEntry>, start: nat, seen: map<nat, Capture.Pts>, keys: set<nat>, pts: Capture.Pts)
    ensures Sighted(log, start, seen, pts) ==> Sighted(log, start, Stamp(seen, keys, pts), pts)
  {
    hide KeyOfMessage;
  }

  lemma SightedPush(log: seq<LogEntry>, start: nat, seen: map<nat, Capture.Pts>, m: Message, pts: Capture.Pts)
    requires KeyOfMessage(m) in seen && seen[KeyOfMessage(m)] == pts
    ensures Sighted(log, start, seen, pts) ==> Sighted(log + [Sent(m)], start, seen, pts)
  {
    hide KeyOfMessage;
  }

  lemma NobodySeen(source: nat, seen: map<nat, Capture.Pts>, pts: Capture.Pts)
    ensures Stamp(seen, ChildrenSeen(source, []), pts) == seen
  {
  }

  lemma {:induction false} LastIdReaches(log: seq<LogEntry>, i: nat, key: nat)
    requires i < |log| && log[i].Sent? && KeyOfMessage(log[i].m) == key
    requires forall n :: i < n < |log| ==> !Ends(log[n], key) && (log[n].Sent? ==> KeyOfMessage(log[n].m) != key)
    ensures LastId(log, key) == log[i].m.messageId
  {
    hide KeyOfMessage;
    if i < |log| - 1 {
      LastIdReaches(log[..|log| - 1], i, key);
    }
  }

  // ----- messages of one frame ------------------------------------------------------------------------------

  /** `p` announces the parent that the child message `c` names. */
  ghost predicate AnnouncesParentOf(p: Message, c: Message) {
    && p.parentTid == None && c.parentTid == Some(p.trackerId) && p.source == c.source
    && c.parentObjectKey == p.objectKey && c.parentInstanceKey == p.instanceKey && c.pubType == p.pubType
  }

  /** From `start` on, every child message comes after the message of its parent and carries its keys. */
  ghost predicate ParentsFirst(log: seq<LogEntry>, start: nat) {
    forall c :: start <= c < |log| && log[c].Sent? && log[c].m.parentTid.Some? ==> HasParentMessage(log, start, c)
  }

  ghost predicate HasParentMessage(log: seq<LogEntry>, start: nat, c: nat)
    requires c < |log| && log[c].Sent?
  {
    exists p :: start <= p < c && log[p].Sent? && AnnouncesParentOf(log[p].m, log[c].m)
  }

  lemma ParentsFirstPush(log: seq<LogEntry>, start: nat, e: LogEntry)
    requires start <= |log| && ParentsFirst(log, start)
    requires e.Sent? && e.m.parentTid.Some? ==>
      exists p :: start <= p < |log| && log[p].Sent? && AnnouncesParentOf(log[p].m, e.m)
    ensures ParentsFirst(log + [e], start)
  {
    var all := log + [e];
    forall c | start <= c < |all| && all[c].Sent? && all[c].m.parentTid.Some? ensures HasParentMessage(all, start, c) {
      if c < |log| {
        assert HasParentMessage(log, start, c);
        var p :| start <= p < c && log[p].Sent? && AnnouncesParentOf(log[p].m, log[c].m);
        assert all[p] == log[p];
      } else {
        var p :| start <= p < |log| && log[p].Sent? && AnnouncesParentOf(log[p].m, e.m);
        assert all[p] == log[p];
      }
    }
  }

  // ----- what a frame publishes ------------------------------------------------------------------------------

  /** Who a message is about, under which parent, why it was sent and what it shows. */
  datatype Header = Header(tid: nat, parentTid: Option<nat>, pubType: Capture.Decision, payload: Hash)

  function HeaderOf(m: Message): Header {
    Header(m.trackerId, m.parentTid, m.pubType, PayloadOf(m))
  }

  /** The log entries from `from` on are messages with exactly these headers, in this order. */
  ghost predicate Headed(log: seq<LogEntry>, from: nat, headers: seq<Header>) {
    from + |headers| == |log|
    && forall i :: from <= i < |log| ==> log[i].Sent? && HeaderOf(log[i].m) == headers[i - from]
  }

  predicate Accepts(filter: seq<string>, obj: Obj) {
    obj.objLabel != "" && obj.tid != UNTRACKED && (filter == [] || obj.objLabel in filter)
  }

  /** Children that pass the filter follow their parent, in group order, with its decision. */
  function ChildHeaders(filter: seq<string>, children: seq<Obj>, parentTid: nat, d: Capture.Decision): seq<Header> {
    if children == [] then []
    else
      var last := children[|children| - 1];
      ChildHeaders(filter, children[..|children| - 1], parentTid, d)
      + (if Accepts(filter, last) then [Header(last.tid, Some(parentTid), d, Payload(last))] else [])
  }

  predicate HasParent(g: Group) {
    g.parent.Some? && g.parentTid != UNTRACKED
  }

  function GroupHeaders(filter: seq<string>, g: Group, d: Capture.Decision): seq<Header> {
    if HasParent(g) then
      [Header(g.parentTid, None, d, Payload(g.parent.value))] + ChildHeaders(filter, g.children, g.parentTid, d)
    else []
  }

  /** How a group fared: its parent's decision, and whether it was sent. */
  datatype Round = Round(decision: Capture.Decision, published: bool)

  function FrameHeaders(filter: seq<string>, groups: seq<Group>, rounds: seq<Round>): seq<Header>
    requires |groups| == |rounds|
  {
    if groups == [] then []
    else
      var n := |groups| - 1;
      FrameHeaders(filter, groups[..n], rounds[..n])
      + (if rounds[n].published then GroupHeaders(filter, groups[n], rounds[n].decision) else [])
  }

  /** The decision of a group is the next event of its parent's key. */
  lemma DecidedFirst(filter: seq<string>, ctx: FrameContext, traces: Traces, g: Group, sent: bool)
    requires HasParent(g)
    ensures
      var key := ComposeKey(ctx.source, g.parentTid);
      TraceAt(traces, key) + [Capture.Decided(ctx.pts, GroupSignature(g.parent, g.children), ctx.frameNum)]
        <= TraceAt(GroupTraces(filter, ctx, traces, g, sent), key)
  {
    hide ComposeKey, GroupSignature, ChildTraces;
    var key := ComposeKey(ctx.source, g.parentTid);
    var captured := Append(Append(traces, key, DecisionOf(ctx, g)), key,
                           Capture.Captured(ctx.pts, GroupSignature(g.parent, g.children)));
    ChildTracesGrow(filter, ctx, captured, g.children, key);
  }

  lemma {:induction false} ChildTracesGrow(filter: seq<string>, ctx: FrameContext, traces: Traces, children: seq<Obj>,
                                           key: nat)
    ensures TraceAt(traces, key) <= TraceAt(ChildTraces(filter, ctx, traces, children), key)
  {
    hide ComposeKey, Accepts;
    if children != [] {
      ChildTracesGrow(filter, ctx, traces, children[..|children| - 1], key);
    }
  }

  /** A decided group counts as a sighting of its labelled parent, and a sent one also of its labelled children. */
  ghost function GroupSeen(source: nat, g: Group, r: Round): set<nat> {
    if !HasParent(g) || r.decision == Capture.Skip then {}
    else SeenAs(source, g.parent.value) + if r.published then ChildrenSeen(source, g.children) else {}
  }

  ghost function FrameSeen(source: nat, groups: seq<Group>, rounds: seq<Round>): set<nat>
    requires |groups| == |rounds|
  {
    set i, k | 0 <= i < |groups| && k in GroupSeen(source, groups[i], rounds[i]) :: k
  }

  lemma FrameSeenPush(source: nat, groups: seq<Group>, rounds: seq<Round>, g: Group, r: Round)
    requires |groups| == |rounds|
    ensures FrameSeen(source, groups + [g], rounds + [r]) == FrameSeen(source, groups, rounds) + GroupSeen(source, g, r)
    ensures FrameSeen(source, [], []) == {}
  {
    hide GroupSeen;
    var all, fared := groups + [g], rounds + [r];
    forall k | k in FrameSeen(source, groups, rounds) ensures k in FrameSeen(source, all, fared) {
      var i :| 0 <= i < |groups| && k in GroupSeen(source, groups[i], rounds[i]);
      assert all[i] == groups[i] && fared[i] == rounds[i];
    }
    forall k | k in GroupSeen(source, g, r) ensures k in FrameSeen(source, all, fared) {
      assert all[|groups|] == g && fared[|groups|] == r;
    }
    forall k | k in FrameSeen(source, all, fared)
      ensures k in FrameSeen(source, groups, rounds) + GroupSeen(source, g, r)
    {
      var i :| 0 <= i < |all| && k in GroupSeen(source, all[i], fared[i]);
      if i < |groups| {
        assert groups[i] == all[i] && rounds[i] == fared[i];
      }
    }
  }

  lemma HeadedPush(log: seq<LogEntry>, from: nat, headers: seq<Header>, m: Message)
    requires Headed(log, from, headers)
    ensures Headed(log + [Sent(m)], from, headers + [HeaderOf(m)])
  {
  }

  lemma HeadedConcat(log: seq<LogEntry>, longer: seq<LogEntry>, from: nat, a: seq<Header>, b: seq<Header>)
    requires log <= longer && Headed(log, from, a) && Headed(longer, |log|, b)
    ensures Headed(longer, from, a + b)
  {
    forall i | from <= i < |longer| ensures longer[i].Sent? && HeaderOf(longer[i].m) == (a + b)[i - from] {
      if i < |log| {
        assert longer[i] == log[i];
      }
    }
  }

  // ----- what a frame does to the objects ------------------------------------------------------------------------

  /** Everything decided and captured for each key, in order. */
  type Traces = map<nat, seq<Capture.Event>>

  ghost function TraceAt(traces: Traces, key: nat): seq<Capture.Event> {
    if key in traces then traces[key] else []
  }

  ghost function Append(traces: Traces, key: nat, e: Capture.Event): Traces {
    traces[key := TraceAt(traces, key) + [e]]
  }

  /** The label check that a group's parent is decided on. */
  function DecisionOf(ctx: FrameContext, g: Group): Capture.Event {
    Capture.Decided(ctx.pts, GroupSignature(g.parent, g.children), ctx.frameNum)
  }

  /** Every accepted child is captured with its own labels. */
  ghost function ChildTraces(filter: seq<string>, ctx: FrameContext, traces: Traces, children: seq<Obj>): Traces {
    if children == [] then traces
    else
      var before, last := ChildTraces(filter, ctx, traces, children[..|children| - 1]), children[|children| - 1];
      if Accepts(filter, last) then
        Append(before, ComposeKey(ctx.source, last.tid), Capture.Captured(ctx.pts, last.sgieLabels))
      else before
  }

  /** The parent is decided, and captured with the group signature if the group is sent; then its children. */
  ghost function GroupTraces(filter: seq<string>, ctx: FrameContext, traces: Traces, g: Group, sent: bool): Traces {
    if !HasParent(g) then traces
    else
      var key := ComposeKey(ctx.source, g.parentTid);
      var decided := Append(traces, key, DecisionOf(ctx, g));
      if !sent then decided
      else
        var captured := Append(decided, key, Capture.Captured(ctx.pts, GroupSignature(g.parent, g.children)));
        ChildTraces(filter, ctx, captured, g.children)
  }

  ghost function FrameTraces(
    filter: seq<string>, ctx: FrameContext, traces: Traces, groups: seq<Group>, rounds: seq<Round>): Traces
    requires |groups| == |rounds|
  {
    if groups == [] then traces
    else
      var n := |groups| - 1;
      var before := FrameTraces(filter, ctx, traces, groups[..n], rounds[..n]);
      GroupTraces(filter, ctx, before, groups[n], rounds[n].published)
  }

  /**
   * The group's parent is decided by decide_capture on everything that happened to its key so far, and the
   * group is sent iff the parent is accepted, decided, and not a heartbeat that repeats its last message.
   */
  ghost predicate RoundOk(cfg: Capture.Config, filter: seq<string>, traces: Traces, log: seq<LogEntry>,
                          ctx: FrameContext, g: Group, r: Round) {
    if !HasParent(g) then r == Round(Capture.Skip, false)
    else
      var key, p := ComposeKey(ctx.source, g.parentTid), g.parent.value;
      && r.decision
         == Capture.Outcome(cfg, Capture.Run(cfg, Capture.NEW_KEY, TraceAt(traces, key)), DecisionOf(ctx, g))
      && (r.published <==> Accepts(filter, p) && r.decision != Capture.Skip
                           && !(r.decision == Capture.Heartbeat && Payload(p) == LastPayload(log, key)))
  }

  /** Round `k` of a frame that found the traces `traces` and a log of length `from`. */
  ghost predicate FrameRoundOk(cfg: Capture.Config, filter: seq<string>, traces: Traces, log: seq<LogEntry>, from: nat,
                               ctx: FrameContext, groups: seq<Group>, rounds: seq<Round>, k: nat)
    requires |groups| == |rounds| && k < |groups|
  {
    var at := from + |FrameHeaders(filter, groups[..k], rounds[..k])|;
    var found := FrameTraces(filter, ctx, traces, groups[..k], rounds[..k]);
    at <= |log| && RoundOk(cfg, filter, found, log[..at], ctx, groups[k], rounds[k])
  }

  /** Later rounds do not change what an earlier one found. */
  lemma RoundStays(cfg: Capture.Config, filter: seq<string>, traces: Traces, log: seq<LogEntry>, longer: seq<LogEntry>,
                   from: nat, ctx: FrameContext, groups: seq<Group>, rounds: seq<Round>, g: Group, r: Round, k: nat)
    requires |groups| == |rounds| && k < |groups| && log <= longer
    requires FrameRoundOk(cfg, filter, traces, log, from, ctx, groups, rounds, k)
    ensures FrameRoundOk(cfg, filter, traces, longer, from, ctx, groups + [g], rounds + [r], k)
  {
    hide RoundOk, FrameHeaders, FrameTraces;
    assert (groups + [g])[..k] == groups[..k] && (rounds + [r])[..k] == rounds[..k];
    var at := from + |FrameHeaders(filter, groups[..k], rounds[..k])|;
    assert longer[..at] == log[..at];
  }

  /** The round that has just run. */
  lemma RoundNow(cfg: Capture.Config, filter: seq<string>, traces: Traces, log: seq<LogEntry>, longer: seq<LogEntry>,
                 from: nat, ctx: FrameContext, groups: seq<Group>, rounds: seq<Round>, g: Group, r: Round)
    requires |groups| == |rounds| && log <= longer && |log| == from + |FrameHeaders(filter, groups, rounds)|
    requires RoundOk(cfg, filter, FrameTraces(filter, ctx, traces, groups, rounds), log, ctx, g, r)
    ensures FrameRoundOk(cfg, filter, traces, longer, from, ctx, groups + [g], rounds + [r], |groups|)
  {
    hide RoundOk, FrameHeaders, FrameTraces;
    assert (groups + [g])[..|groups|] == groups && (rounds + [r])[..|groups|] == rounds;
    assert longer[..|log|] == log;
  }

  // ----- the handler ------------------------------------------------------------------------------------------

  class CropObjectHandler {
    const cfg: Capture.Config
    const labelFilter: seq<string>
    const staleTimeoutMin: nat

    var pubState: map<nat, PubState>
    var lastCapture: map<nat, Capture.Pts>
    var objectKeys: map<nat, Key>
    var lastSeen: map<nat, Capture.Pts>
    var parents: ParentCache
    var nextUuid: nat

    ghost var log: seq<LogEntry>
    ghost var trace: Traces

    function PubOf(key: nat): PubState
      reads this`pubState
    {
      if key in pubState then pubState[key] else NEW_PUB
    }

    ghost function TraceOf(key: nat): seq<Capture.Event>
      reads this`trace
    {
      TraceAt(trace, key)
    }

    function MarkOf(key: nat): Option<Capture.Pts>
      reads this`lastCapture
    {
      if key in lastCapture then Some(lastCapture[key]) else None
    }

    /** The stored decision state of a key is the run of everything decided and captured for it. */
    ghost predicate DecisionOk(key: nat)
      reads this`pubState, this`lastCapture, this`trace
    {
      Capture.KeyState(PubOf(key).gate, MarkOf(key)) == Capture.Run(cfg, Capture.NEW_KEY, TraceOf(key))
    }

    /** The stored chain state of a key is what its messages say. */
    ghost predicate ChainOk(key: nat)
      reads this`pubState, this`log
    {
      && PubOf(key).lastMessageId == LastId(log, key) && PubOf(key).heartbeatSeq == Heartbeats(log, key)
      && PubOf(key).lastPayloadHash == LastPayload(log, key)
    }

    ghost predicate Chained()
      reads this`pubState, this`lastCapture, this`trace, this`log
    {
      && (forall key: nat :: DecisionOk(key) && ChainOk(key))
      && Linked(log)
    }

    /** Every tracked object has a key of its own, made by the generator. */
    ghost predicate Named()
      reads this`objectKeys, this`nextUuid
    {
      && (forall k :: k in objectKeys ==> Known(objectKeys[k], nextUuid))
      && forall k, l :: k in objectKeys && l in objectKeys && k != l ==> objectKeys[k] != objectKeys[l]
    }

    ghost predicate Valid()
      reads this`pubState, this`lastCapture, this`trace, this`log, this`objectKeys, this`nextUuid
    {
      Chained() && Named() && Registered(labelFilter, log, nextUuid)
    }

    constructor (cfg: Capture.Config, labelFilter: seq<string>, staleTimeoutMin: nat)
      ensures Valid() && log == [] && pubState == map[] && parents == map[] && trace == map[]
      ensures this.cfg == cfg && this.labelFilter == labelFilter && this.staleTimeoutMin == staleTimeoutMin
    {
      this.cfg, this.labelFilter, this.staleTimeoutMin := cfg, labelFilter, staleTimeoutMin;
      pubState, lastCapture, objectKeys, lastSeen, parents := map[], map[], map[], map[], map[];
      nextUuid := 0;
      log, trace := [], map[];
    }

    method GenerateUuid() returns (key: Key)
      modifies this`nextUuid
      ensures key == Uuid(old(nextUuid)) && nextUuid == old(nextUuid) + 1
      ensures old(Named()) ==> Named()
    {
      key := Uuid(nextUuid);
      nextUuid := nextUuid + 1;
    }

    /** The stored key of the object, or a new one that no object has. */
    method GetOrCreateObjectKey(source: nat, tid: nat) returns (objectKey: Key)
      requires Named()
      modifies this`objectKeys, this`nextUuid
      ensures Named() && nextUuid >= old(nextUuid)
      ensures objectKeys == old(objectKeys)[ComposeKey(source, tid) := objectKey]
      ensures ComposeKey(source, tid) !in old(objectKeys) ==> objectKey !in old(objectKeys).Values
      ensures ComposeKey(source, tid) in objectKeys && objectKeys[ComposeKey(source, tid)] == objectKey
      ensures forall k :: k in old(objectKeys) ==> k in objectKeys && objectKeys[k] == old(objectKeys)[k]
    {
      hide ComposeKey;
      var key := ComposeKey(source, tid);
      if key in objectKeys {
        return objectKeys[key];
      }
      objectKey := GenerateUuid();
      objectKeys := objectKeys[key := objectKey];
    }

    /** decide_capture, updating the state of the key field by field. */
    method DecideCapture(key: nat, pts: Capture.Pts, sig: string, frame: nat) returns (d: Capture.Decision)
      requires Valid()
      modifies this`pubState, this`trace
      ensures Valid()
      ensures (PubOf(key).gate, d) == Capture.Decide(cfg, old(PubOf(key).gate), MarkOf(key), pts, sig, frame)
      ensures pubState == old(pubState)[key := old(PubOf(key)).(gate := PubOf(key).gate)]
      ensures trace == Append(old(trace), key, Capture.Decided(pts, sig, frame))
    {
      hide Capture.Decide, Capture.Run, LastId, LastPayload, Heartbeats, Linked;
      ghost var before := PubOf(key).gate;
      var gate;
      gate, d := DecideGate(PubOf(key).gate, MarkOf(key), pts, sig, frame);
      pubState := pubState[key := PubOf(key).(gate := gate)];
      Capture.RunSnoc(cfg, Capture.NEW_KEY, TraceOf(key), Capture.Decided(pts, sig, frame));
      trace := trace[key := TraceOf(key) + [Capture.Decided(pts, sig, frame)]];
      assert old(DecisionOk(key)) && old(ChainOk(key));
      forall k: nat ensures DecisionOk(k) && ChainOk(k) {
        assert old(DecisionOk(k)) && old(ChainOk(k));
      }
    }

    method DecideGate(start: Capture.Gate, mark: Option<Capture.Pts>, pts: Capture.Pts, sig: string, frame: nat)
      returns (g: Capture.Gate, d: Capture.Decision)
      ensures (g, d) == Capture.Decide(cfg, start, mark, pts, sig, frame)
    {
      hide Capture.RefillTokens;
      g := start;
      if g.lastSeenFrame > 0 && frame > g.lastSeenFrame && frame - g.lastSeenFrame <= cfg.kOff {
        g := g.(onStable := g.onStable + 1);
      } else {
        g := g.(onStable := 1);
      }
      g := g.(lastSeenFrame := frame);
      if g.onStable < cfg.kOn {
        return g, Capture.Skip;
      }
      if mark == None {
        g := g.(tokens := cfg.burstMax, lastSgie := sig, pendingSgie := "", pendingCount := 0);
        if pts.At? {
          g := g.(refill := pts);
        }
        return g, Capture.FirstSeen;
      }
      if cfg.intervalNs == 0 {
        return g, Capture.Heartbeat;
      }
      var last := mark.value;
      if last.NoPts? || pts.NoPts? {
        return g, Capture.Heartbeat;
      }
      var elapsed := if pts.ns >= last.ns then pts.ns - last.ns else 0;
      g := Capture.RefillTokens(cfg, g, pts);
      if elapsed >= cfg.intervalNs {
        return g.(pendingSgie := "", pendingCount := 0), Capture.Heartbeat;
      }
      if elapsed < cfg.gapNs {
        return g, Capture.Skip;
      }
      if sig == "" || sig == g.lastSgie {
        return g.(pendingSgie := "", pendingCount := 0), Capture.Skip;
      }
      if g.pendingSgie == sig {
        g := g.(pendingCount := g.pendingCount + 1);
      } else {
        g := g.(pendingSgie := sig, pendingCount := 1);
      }
      if g.pendingCount >= cfg.kLabel && g.tokens > 0 {
        g := g.(tokens := g.tokens - 1);
        return g.(pendingSgie := "", pendingCount := 0), Capture.Bypass;
      }
      return g, Capture.Skip;
    }

    // ----- publishing one object ------------------------------------------------------------------------------

    /** A heartbeat whose payload equals the last published one is suppressed. */
    predicate Repeats(key: nat, d: Capture.Decision, hash: Hash)
      reads this`pubState
    {
      d == Capture.Heartbeat && hash == PubOf(key).lastPayloadHash
    }

    /** Stores the message, its chain state and the capture it stands for. */
    method Record(key: nat, m: Message, pts: Capture.Pts, sig: string)
      requires Valid() && key == KeyOfMessage(m)
      requires Publishable(labelFilter, m) && Known(m.instanceKey, nextUuid) && Unused(log, m.instanceKey)
      requires m.prevMessageId == PubOf(key).lastMessageId
      requires m.heartbeatSeq == match m.pubType
                                 case FirstSeen => 0
                                 case Heartbeat => PubOf(key).heartbeatSeq + 1
                                 case _ => PubOf(key).heartbeatSeq
      modifies this`pubState, this`lastCapture, this`log, this`trace
      ensures Valid() && log == old(log) + [Sent(m)]
      ensures pubState == old(pubState)[key :=
        PubState(old(PubOf(key)).gate.(lastSgie := sig), m.heartbeatSeq, PayloadOf(m), m.messageId, m.instanceKey, pts)]
      ensures lastCapture == old(lastCapture)[key := pts]
      ensures trace == Append(old(trace), key, Capture.Captured(pts, sig))
    {
      hide LinkedAt, Capture.Decide, Capture.Run, KeyOfMessage, Linked, LastId, LastPayload, Heartbeats, Named,
        Registered, Publishable;
      ghost var before := log;
      RegisteredPush(labelFilter, log, nextUuid, Sent(m));
      var pub := PubOf(key);
      lastCapture := lastCapture[key := pts];
      pubState := pubState[key :=
        PubState(pub.gate.(lastSgie := sig), m.heartbeatSeq, PayloadOf(m), m.messageId, m.instanceKey, pts)];
      Capture.RunSnoc(cfg, Capture.NEW_KEY, TraceOf(key), Capture.Captured(pts, sig));
      trace := trace[key := TraceOf(key) + [Capture.Captured(pts, sig)]];
      log := log + [Sent(m)];
      assert old(DecisionOk(key)) && old(ChainOk(key));
      forall k: nat ensures DecisionOk(k) && ChainOk(k) {
        ChainSnoc(before, m, k);
        assert old(DecisionOk(k)) && old(ChainOk(k));
      }
      ChainSnoc(before, m, key);
      LinkedPush(before, Sent(m));
    }

    /** A published child counts as a sighting of its parent. */
    ghost function ParentSeen(source: nat, obj: Obj, isParent: bool, parentHint: nat): set<nat> {
      var t := if parentHint != UNTRACKED then parentHint
               else if obj.parent.Some? then obj.parent.value.tid else UNTRACKED;
      if isParent || t == UNTRACKED then {} else {ComposeKey(source, t)}
    }

    /** The parent fields of a message; a parent registers its own instance key instead. */
    method NameParent(obj: Obj, ctx: FrameContext, isParent: bool, parentHint: nat, instanceKey: Key,
                      keys: map<nat, Key>)
      returns (keysAfter: map<nat, Key>, parentTid: Option<nat>, parentObjectKey: Key, parentInstanceKey: Key)
      requires Named()
      modifies this`objectKeys, this`nextUuid, this`lastSeen
      ensures Named() && nextUuid >= old(nextUuid)
      ensures lastSeen == Stamp(old(lastSeen), ParentSeen(ctx.source, obj, isParent, parentHint), ctx.pts)
      ensures forall k :: k in old(objectKeys) ==> k in objectKeys && objectKeys[k] == old(objectKeys)[k]
      ensures isParent ==> parentTid == None && keysAfter == keys[obj.tid := instanceKey]
      ensures !isParent ==>
        var t := if parentHint != UNTRACKED then parentHint
                 else if obj.parent.Some? then obj.parent.value.tid else UNTRACKED;
        if t == UNTRACKED then parentTid == None && keysAfter == keys else
          && parentTid == Some(t)
          && ComposeKey(ctx.source, t) in objectKeys && objectKeys[ComposeKey(ctx.source, t)] == parentObjectKey
          && t in keysAfter && keysAfter[t] == parentInstanceKey && (t in keys ==> keysAfter == keys)
    {
      hide ComposeKey, Named;
      keysAfter, parentTid, parentObjectKey, parentInstanceKey := keys, None, NoKey, NoKey;
      if isParent {
        keysAfter := keys[obj.tid := instanceKey];
        return;
      }
      var t := if parentHint != UNTRACKED then parentHint
               else if obj.parent.Some? then obj.parent.value.tid else UNTRACKED;
      if t != UNTRACKED {
        parentTid := Some(t);
        parentObjectKey := GetOrCreateObjectKey(ctx.source, t);
        if t in keys {
          parentInstanceKey := keys[t];
        } else {
          parentInstanceKey := GenerateUuid();
          keysAfter := keys[t := parentInstanceKey];
        }
        lastSeen := lastSeen[ComposeKey(ctx.source, t) := ctx.pts];
      }
    }

    /** What a published message says, in terms of the state and the instance keys it leaves. */
    ghost predicate Announced(m: Message, obj: Obj, ctx: FrameContext, isParent: bool, parentHint: nat,
                              keys: map<nat, Key>, keysAfter: map<nat, Key>)
      reads this`objectKeys
    {
      && m.source == ctx.source && m.trackerId == obj.tid && m.messageId == MessageId(ctx)
      && ComposeKey(ctx.source, obj.tid) in objectKeys && objectKeys[ComposeKey(ctx.source, obj.tid)] == m.objectKey
      && (isParent ==> m.parentTid == None && keysAfter == keys[obj.tid := m.instanceKey])
      && (!isParent && parentHint != UNTRACKED ==>
            && m.parentTid == Some(parentHint)
            && ComposeKey(ctx.source, parentHint) in objectKeys
            && objectKeys[ComposeKey(ctx.source, parentHint)] == m.parentObjectKey
            && parentHint in keysAfter && keysAfter[parentHint] == m.parentInstanceKey
            && (parentHint in keys ==> keysAfter == keys))
    }

    method Announce(obj: Obj, ctx: FrameContext, isParent: bool, parentHint: nat, keys: map<nat, Key>,
                    decision: Capture.Decision, sgie: string, sig: string)
      returns (keysAfter: map<nat, Key>)
      requires Valid() && Accepts(labelFilter, obj) && decision != Capture.Skip
      modifies this`objectKeys, this`nextUuid, this`lastSeen, this`pubState, this`lastCapture, this`log, this`trace
      ensures Valid()
      ensures lastSeen == Stamp(old(lastSeen), ParentSeen(ctx.source, obj, isParent, parentHint), ctx.pts)
      ensures forall k :: k in old(objectKeys) ==> k in objectKeys && objectKeys[k] == old(objectKeys)[k]
      ensures |log| == |old(log)| + 1 && old(log) <= log && log[|old(log)|].Sent?
      ensures log[|old(log)|].m.pubType == decision
      ensures PayloadOf(log[|old(log)|].m) == HashOf(obj.classId, obj.objLabel, sgie, obj.box)
      ensures trace == Append(old(trace), ComposeKey(ctx.source, obj.tid), Capture.Captured(ctx.pts, sig))
      ensures Announced(log[|old(log)|].m, obj, ctx, isParent, parentHint, keys, keysAfter)
    {
      hide Chained, Named, Registered, Unused, ComposeKey, MessageId, Append;
      var key := ComposeKey(ctx.source, obj.tid);
      var objectKey := GetOrCreateObjectKey(ctx.source, obj.tid);
      RegisteredLater(labelFilter, log, old(nextUuid), nextUuid);
      ghost var next := nextUuid;
      var instanceKey := GenerateUuid();
      RegisteredLater(labelFilter, log, next, nextUuid);
      var parentTid, parentObjectKey, parentInstanceKey;
      keysAfter, parentTid, parentObjectKey, parentInstanceKey :=
        NameParent(obj, ctx, isParent, parentHint, instanceKey, keys);
      RegisteredLater(labelFilter, log, next, nextUuid);
      var pub := PubOf(key);
      var heartbeatSeq := if decision == Capture.FirstSeen then 0
                          else if decision == Capture.Heartbeat then pub.heartbeatSeq + 1 else pub.heartbeatSeq;
      var m := Message(ctx.source, obj.tid, objectKey, instanceKey, parentTid, parentObjectKey, parentInstanceKey,
                       obj.classId, obj.objLabel, sgie, obj.box, MessageId(ctx), pub.lastMessageId, decision,
                       heartbeatSeq, ctx.frameNum);
      Record(key, m, ctx.pts, sig);
    }

    /**
     * Publishes one object, with the decision forced by its group or taken here. `keys` maps parent ids to
     * the instance keys of this frame. A child message names its parent by the parent's stored object key
     * and by the instance key in `keys`; a parent message enters its own instance key there.
     */
    method ProcessObjectForPublish(
      obj: Obj, ctx: FrameContext, isParent: bool, parentHint: nat, forced: Option<Capture.Decision>,
      labels: Option<string>, signature: Option<string>, skipDedup: bool, keys: map<nat, Key>)
      returns (published: bool, keysAfter: map<nat, Key>)
      requires Valid()
      modifies this
      ensures Valid() && parents == old(parents)
      ensures forced.Some? && !published ==> trace == old(trace)
      ensures forall k :: k in old(objectKeys) ==> k in objectKeys && objectKeys[k] == old(objectKeys)[k]
      ensures forced.Some? ==>
        var sgie := if labels.Some? then labels.value else obj.sgieLabels;
        var hash := HashOf(obj.classId, obj.objLabel, sgie, obj.box);
        published == (obj.objLabel != "" && obj.tid != UNTRACKED && (labelFilter == [] || obj.objLabel in labelFilter)
                      && forced.value != Capture.Skip
                      && (skipDedup || !old(Repeats(ComposeKey(ctx.source, obj.tid), forced.value, hash))))
      ensures lastSeen == Stamp(old(lastSeen), SeenAs(ctx.source, obj)
        + (if published then ParentSeen(ctx.source, obj, isParent, parentHint) else {}), ctx.pts)
      ensures !published ==> log == old(log) && keysAfter == keys
      ensures published ==>
        && |log| == |old(log)| + 1 && old(log) <= log && log[|old(log)|].Sent?
        && var m := log[|old(log)|].m;
        && m.pubType != Capture.Skip && (forced.Some? ==> m.pubType == forced.value)
        && Announced(m, obj, ctx, isParent, parentHint, keys, keysAfter)
      ensures forced.Some? && published ==>
        var sgie := if labels.Some? then labels.value else obj.sgieLabels;
        var sig := if signature.Some? then signature.value else sgie;
        trace == Append(old(trace), ComposeKey(ctx.source, obj.tid), Capture.Captured(ctx.pts, sig))
        && PayloadOf(log[|old(log)|].m) == HashOf(obj.classId, obj.objLabel, sgie, obj.box)
    {
      hide Valid, ComposeKey, MessageId, Capture.Decide, Announced, Append, ParentSeen;
      published, keysAfter := false, keys;
      StampNothing(lastSeen, ctx.pts);
      if obj.objLabel == "" || obj.tid == UNTRACKED {
        return;
      }
      var key := ComposeKey(ctx.source, obj.tid);
      lastSeen := lastSeen[key := ctx.pts];
      assert lastSeen == Stamp(old(lastSeen), {key}, ctx.pts) && {key} + {} == {key};
      StampTwice(old(lastSeen), {key}, ParentSeen(ctx.source, obj, isParent, parentHint), ctx.pts);
      var sgie := if labels.Some? then labels.value else obj.sgieLabels;
      var sig := if signature.Some? then signature.value else sgie;
      if labelFilter != [] && obj.objLabel !in labelFilter {
        return;
      }
      var decision;
      if forced.Some? {
        decision := forced.value;
      } else {
        decision := DecideCapture(key, ctx.pts, sig, ctx.frameNum);
      }
      if decision == Capture.Skip {
        return;
      }
      var hash := HashOf(obj.classId, obj.objLabel, sgie, obj.box);
      if !skipDedup && decision == Capture.Heartbeat && hash == PubOf(key).lastPayloadHash {
        return;
      }
      keysAfter := Announce(obj, ctx, isParent, parentHint, keys, decision, sgie, sig);
      published := true;
    }

    // ----- publishing one frame -------------------------------------------------------------------------------

    method BuildParentInstanceKeyCache(ctx: FrameContext, groups: seq<Group>) returns (keys: map<nat, Key>)
      ensures forall t: nat :: t in keys <==>
        (exists i :: 0 <= i < |groups| && groups[i].parentTid == t) && t != UNTRACKED
        && PubOf(ComposeKey(ctx.source, t)).lastInstanceKey != NoKey
      ensures forall t :: t in keys ==> keys[t] == PubOf(ComposeKey(ctx.source, t)).lastInstanceKey
    {
      hide ComposeKey;
      keys := map[];
      for i := 0 to |groups|
        invariant forall t: nat :: t in keys <==>
          (exists k :: 0 <= k < i && groups[k].parentTid == t) && t != UNTRACKED
          && PubOf(ComposeKey(ctx.source, t)).lastInstanceKey != NoKey
        invariant forall t :: t in keys ==> keys[t] == PubOf(ComposeKey(ctx.source, t)).lastInstanceKey
      {
        var t := groups[i].parentTid;
        if t == UNTRACKED {
          continue;
        }
        var instanceKey := PubOf(ComposeKey(ctx.source, t)).lastInstanceKey;
        if instanceKey != NoKey && t !in keys {
          keys := keys[t := instanceKey];
        }
      }
    }

    /**
     * One frame. Its groups are those of the metadata; each is decided once, on its parent, and sent or not;
     * the messages are exactly those of the groups sent, parent first; every child carries its parent's object
     * and instance key; what is decided and captured for each object is exactly what the rounds say.
     */
    method ProcessFrame(ctx: FrameContext, objects: seq<Obj>)
      returns (ghost groups: seq<Group>, ghost rounds: seq<Round>)
      requires Valid()
      modifies this
      ensures Valid() && old(log) <= log && ParentsFirst(log, |old(log)|)
      ensures parents == RememberAll(ctx.source, old(parents), objects)
      ensures groups == Groups(ctx.source, old(parents), objects) && |rounds| == |groups|
      ensures Headed(log, |old(log)|, FrameHeaders(labelFilter, groups, rounds))
      ensures trace == FrameTraces(labelFilter, ctx, old(trace), groups, rounds)
      ensures lastSeen == Stamp(old(lastSeen), FrameSeen(ctx.source, groups, rounds), ctx.pts)
      ensures Sighted(log, |old(log)|, lastSeen, ctx.pts)
      ensures forall k :: 0 <= k < |groups| ==>
        FrameRoundOk(cfg, labelFilter, old(trace), log, |old(log)|, ctx, groups, rounds, k)
    {
      hide Valid, ComposeKey, RememberAll, Groups, GroupsOf, ParentsFirst, Headed, RoundOk, FrameRoundOk, GroupHeaders,
        FrameHeaders, FrameTraces, GroupTraces, Stamp, FrameSeen, GroupSeen;
      var built, remembered := BuildObjectGroups(ctx.source, objects, parents);
      groups, rounds := built, [];
      parents := remembered;
      var keys := BuildParentInstanceKeyCache(ctx, built);
      NothingYet(labelFilter, ctx, log, trace);
      StampNothing(lastSeen, ctx.pts);
      FrameSeenPush(ctx.source, [], [], Group(None, 0, []), Round(Capture.Skip, false));
      for i := 0 to |built|
        invariant Valid() && old(log) <= log && ParentsFirst(log, |old(log)|) && parents == remembered
        invariant |rounds| == i && Headed(log, |old(log)|, FrameHeaders(labelFilter, groups[..i], rounds))
        invariant trace == FrameTraces(labelFilter, ctx, old(trace), groups[..i], rounds)
        invariant lastSeen == Stamp(old(lastSeen), FrameSeen(ctx.source, groups[..i], rounds), ctx.pts)
        invariant Sighted(log, |old(log)|, lastSeen, ctx.pts)
        invariant forall k :: 0 <= k < i ==>
          FrameRoundOk(cfg, labelFilter, old(trace), log, |old(log)|, ctx, groups[..i], rounds, k)
      {
        ghost var sent, earlier := log, rounds;
        ghost var round;
        keys, round := ProcessGroup(ctx, built[i], keys, |old(log)|);
        assert groups[..i + 1] == groups[..i] + [groups[i]];
        rounds := earlier + [round];
        FramePush(labelFilter, ctx, old(trace), groups[..i], earlier, groups[i], round);
        FrameSeenPush(ctx.source, groups[..i], earlier, groups[i], round);
        StampTwice(old(lastSeen), FrameSeen(ctx.source, groups[..i], earlier), GroupSeen(ctx.source, groups[i], round),
                   ctx.pts);
        HeadedLength(sent, |old(log)|, FrameHeaders(labelFilter, groups[..i], earlier));
        RoundNow(cfg, labelFilter, old(trace), sent, log, |old(log)|, ctx, groups[..i], earlier, groups[i], round);
        ghost var done := groups[..i + 1];
        forall k | 0 <= k < i
          ensures FrameRoundOk(cfg, labelFilter, old(trace), log, |old(log)|, ctx, done, rounds, k)
        {
          RoundStays(cfg, labelFilter, old(trace), sent, log, |old(log)|, ctx, groups[..i], earlier, groups[i], round,
                     k);
        }
        HeadedConcat(sent, log, |old(log)|, FrameHeaders(labelFilter, groups[..i], earlier),
                     if round.published then GroupHeaders(labelFilter, groups[i], round.decision) else []);
      }
      assert groups[..|built|] == groups;
    }

    /** One group: the parent decides for all; the children follow once it is published. */
    method ProcessGroup(ctx: FrameContext, group: Group, keys: map<nat, Key>, ghost start: nat)
      returns (keysAfter: map<nat, Key>, ghost round: Round)
      requires Valid() && start <= |log| && ParentsFirst(log, start)
      requires group.parent.Some? ==> group.parent.value.tid == group.parentTid
      modifies this
      ensures Valid() && old(log) <= log && ParentsFirst(log, start) && parents == old(parents)
      ensures RoundOk(cfg, labelFilter, old(trace), old(log), ctx, group, round)
      ensures trace == GroupTraces(labelFilter, ctx, old(trace), group, round.published)
      ensures lastSeen == Stamp(old(lastSeen), GroupSeen(ctx.source, group, round), ctx.pts)
      ensures old(Sighted(log, start, lastSeen, ctx.pts)) ==> Sighted(log, start, lastSeen, ctx.pts)
      ensures Headed(log, |old(log)|, if round.published then GroupHeaders(labelFilter, group, round.decision) else [])
    {
      hide Valid, ComposeKey, MessageId, Capture.Decide, Capture.Outcome, Capture.Run, ParentsFirst, GroupSignature,
        ChildHeaders, ChildTraces, Headed, LastPayload, Append, Stamp, ChildrenSeen,
        Sighted;
      keysAfter, round := keys, Round(Capture.Skip, false);
      StampNothing(lastSeen, ctx.pts);
      NothingSent(log);
      if group.parent == None || group.parentTid == UNTRACKED {
        return;
      }
      var signature := BuildGroupSgieSignature(group);
      var parent := group.parent.value;
      var key := ComposeKey(ctx.source, group.parentTid);
      DecidedOutcome(key, DecisionOf(ctx, group));
      LastSent(key);
      var d := DecideCapture(key, ctx.pts, signature, ctx.frameNum);
      round := Round(d, false);
      if d == Capture.Skip {
        return;
      }
      var parentPublished;
      ghost var p := |log|;
      parentPublished, keysAfter := ProcessObjectForPublish(
        parent, ctx, true, UNTRACKED, Some(d), if parent.sgieLabels == "" then None else Some(parent.sgieLabels),
        Some(signature), false, keysAfter);
      assert SeenAs(ctx.source, parent) + {} == SeenAs(ctx.source, parent);
      SightedStamp(old(log), start, old(lastSeen), SeenAs(ctx.source, parent), ctx.pts);
      if !parentPublished {
        return;
      }
      round := Round(d, true);
      Stamped(old(lastSeen), SeenAs(ctx.source, parent), key, ctx.pts);
      SightedPush(old(log), start, lastSeen, log[p].m, ctx.pts);
      StampTwice(old(lastSeen), SeenAs(ctx.source, parent), ChildrenSeen(ctx.source, group.children), ctx.pts);
      assert log == old(log) + [Sent(log[p].m)];
      ParentsFirstPush(old(log), start, log[p]);
      HeadedPush(old(log), p, [], log[p].m);
      ghost var sent := log;
      keysAfter := PublishChildren(ctx, group, keysAfter, d, start, p);
      HeadedConcat(sent, log, p, [Header(group.parentTid, None, d, Payload(parent))],
                   ChildHeaders(labelFilter, group.children, group.parentTid, d));
    }

    /** The children of a group whose parent's message stands at position `p` of the log. */
    method PublishChildren(ctx: FrameContext, group: Group, keys: map<nat, Key>, d: Capture.Decision,
                           ghost start: nat, ghost p: nat)
      returns (keysAfter: map<nat, Key>)
      requires Valid() && ParentsFirst(log, start) && d != Capture.Skip && group.parentTid != UNTRACKED
      requires start <= p < |log| && log[p].Sent?
      requires log[p].m.trackerId == group.parentTid && log[p].m.parentTid == None && log[p].m.pubType == d
      requires log[p].m.source == ctx.source
      requires ComposeKey(ctx.source, group.parentTid) in lastSeen
        && lastSeen[ComposeKey(ctx.source, group.parentTid)] == ctx.pts
      requires group.parentTid in keys && keys[group.parentTid] == log[p].m.instanceKey
      requires ComposeKey(ctx.source, group.parentTid) in objectKeys
        && objectKeys[ComposeKey(ctx.source, group.parentTid)] == log[p].m.objectKey
      modifies this
      ensures Valid() && old(log) <= log && ParentsFirst(log, start) && parents == old(parents)
      ensures trace == ChildTraces(labelFilter, ctx, old(trace), group.children)
      ensures lastSeen == Stamp(old(lastSeen), ChildrenSeen(ctx.source, group.children), ctx.pts)
      ensures old(Sighted(log, start, lastSeen, ctx.pts)) ==> Sighted(log, start, lastSeen, ctx.pts)
      ensures Headed(log, |old(log)|, ChildHeaders(labelFilter, group.children, group.parentTid, d))
    {
      hide Valid, ComposeKey, MessageId, Capture.Decide, ParentsFirst, ChildHeaders, ChildTraces, Headed, Append, Stamp,
        ChildrenSeen, Sighted;
      keysAfter := keys;
      NothingSent(log);
      ghost var announced := log[p].m;
      NoChildren(labelFilter, ctx, trace, group.parentTid, d);
      NobodySeen(ctx.source, lastSeen, ctx.pts);
      ghost var parentKey := ComposeKey(ctx.source, group.parentTid);
      for i := 0 to |group.children|
        invariant Valid() && old(log) <= log && ParentsFirst(log, start) && parents == old(parents)
        invariant trace == ChildTraces(labelFilter, ctx, old(trace), group.children[..i])
        invariant lastSeen == Stamp(old(lastSeen), ChildrenSeen(ctx.source, group.children[..i]), ctx.pts)
        invariant old(Sighted(log, start, lastSeen, ctx.pts)) ==> Sighted(log, start, lastSeen, ctx.pts)
        invariant parentKey in lastSeen && lastSeen[parentKey] == ctx.pts
        invariant Headed(log, |old(log)|, ChildHeaders(labelFilter, group.children[..i], group.parentTid, d))
        invariant p < |old(log)| && log[p] == Sent(announced)
        invariant group.parentTid in keysAfter && keysAfter[group.parentTid] == announced.instanceKey
        invariant ComposeKey(ctx.source, group.parentTid) in objectKeys
          && objectKeys[ComposeKey(ctx.source, group.parentTid)] == announced.objectKey
      {
        ghost var before, seen, own := log, lastSeen, SeenAs(ctx.source, group.children[i]);
        StampAgain(seen, own, parentKey, ctx.pts);
        StampTwice(old(lastSeen), ChildrenSeen(ctx.source, group.children[..i]), own, ctx.pts);
        ChildrenSeenPush(ctx.source, group.children[..i], group.children[i]);
        assert own + {} == own;
        var childPublished;
        childPublished, keysAfter := ProcessObjectForPublish(
          group.children[i], ctx, false, group.parentTid, Some(d), None, None, true, keysAfter);
        ChildPush(labelFilter, ctx, old(trace), group.children[..i], group.children[i], group.parentTid, d);
        assert group.children[..i + 1] == group.children[..i] + [group.children[i]];
        SightedStamp(before, start, seen, own + if childPublished then {parentKey} else {}, ctx.pts);
        if childPublished {
          assert log == before + [Sent(log[|before|].m)];
          SeenItself(ctx.source, group.children[i], seen, {parentKey}, ctx.pts);
          SightedPush(before, start, lastSeen, log[|before|].m, ctx.pts);
          assert AnnouncesParentOf(before[p].m, log[|before|].m);
          ParentsFirstPush(before, start, log[|before|]);
          HeadedPush(before, |old(log)|, ChildHeaders(labelFilter, group.children[..i], group.parentTid, d),
                     log[|before|].m);
        }
      }
      assert group.children[..|group.children|] == group.children;
    }

    /** decide_capture on the stored state is the outcome after everything that happened to the key. */
    lemma DecidedOutcome(key: nat, e: Capture.Event)
      requires Valid() && e.Decided?
      ensures Capture.Decide(cfg, PubOf(key).gate, MarkOf(key), e.pts, e.sig, e.frame).1
           == Capture.Outcome(cfg, Capture.Run(cfg, Capture.NEW_KEY, TraceOf(key)), e)
    {
      hide Capture.Decide, Capture.Run, ChainOk, Linked;
      assert DecisionOk(key);
    }

    lemma LastSent(key: nat)
      requires Valid()
      ensures PubOf(key).lastPayloadHash == LastPayload(log, key)
    {
      hide LastPayload, LastId, Heartbeats, DecisionOk, Linked;
      assert ChainOk(key);
    }

    // ----- cleanup -----------------------------------------------------------------------------------------------

    predicate Stale(key: nat, now: nat)
      requires key in lastSeen
      reads this`lastSeen
    {
      lastSeen[key].NoPts? || (now > lastSeen[key].ns && now - lastSeen[key].ns > staleTimeoutMin * 60_000_000_000)
    }

    /**
     * Forgets every stale key completely, and everything when a map outgrew the emergency limit. `exits`
     * gives for each stale key the id its exit message links to; exit messages are not published.
     */
    method CleanupStaleObjects(now: Capture.Pts) returns (exits: map<nat, string>)
      requires Valid()
      modifies this
      ensures Valid()
      ensures staleTimeoutMin == 0 || now.NoPts? ==>
        && exits == map[] && log == old(log) && pubState == old(pubState) && lastCapture == old(lastCapture)
        && objectKeys == old(objectKeys) && lastSeen == old(lastSeen) && parents == old(parents)
      ensures staleTimeoutMin > 0 && now.At? ==>
        && (forall key :: key in exits <==> LongUnseen(old(lastSeen), key, staleTimeoutMin, now.ns))
        && (forall key :: key in exits ==> exits[key] == LastId(old(log), key))
        && var overgrown := |old(objectKeys) - exits.Keys| > MAX_TRACKED_OBJECTS
             || |old(lastSeen) - exits.Keys| > MAX_TRACKED_OBJECTS
             || |old(lastCapture) - exits.Keys| > MAX_TRACKED_OBJECTS
             || |old(pubState) - exits.Keys| > MAX_TRACKED_OBJECTS;
        if overgrown then
          log == old(log) + [Forgot(exits.Keys), ForgotAll] && Emptied()
        else
          && log == old(log) + [Forgot(exits.Keys)]
          && pubState == old(pubState) - exits.Keys && lastCapture == old(lastCapture) - exits.Keys
          && objectKeys == old(objectKeys) - exits.Keys && lastSeen == old(lastSeen) - exits.Keys
          && parents == old(parents) - exits.Keys
    {
      hide LastId, Valid, LongUnseen;
      exits := map[];
      if staleTimeoutMin == 0 || now.NoPts? {
        return;
      }
      exits := StaleExits(now.ns);
      Forget(exits.Keys);
      EnforceLimit();
    }

    /** The stale keys, each with the id its exit message links to. */
    method StaleExits(now: nat) returns (exits: map<nat, string>)
      requires Valid()
      ensures forall key :: key in exits <==> LongUnseen(lastSeen, key, staleTimeoutMin, now)
      ensures forall key :: key in exits ==> exits[key] == LastId(log, key)
    {
      hide LastId, Heartbeats, Linked, Capture.Run;
      var stale := set key | key in lastSeen && Stale(key, now);
      exits := map key | key in stale :: PubOf(key).lastMessageId;
      forall key: nat | key in exits ensures exits[key] == LastId(log, key) {
        assert ChainOk(key);
      }
    }

    predicate Overgrown()
      reads this
    {
      || |objectKeys| > MAX_TRACKED_OBJECTS || |lastSeen| > MAX_TRACKED_OBJECTS
      || |lastCapture| > MAX_TRACKED_OBJECTS || |pubState| > MAX_TRACKED_OBJECTS
    }

    ghost predicate Emptied()
      reads this
    {
      pubState == map[] && lastCapture == map[] && objectKeys == map[] && lastSeen == map[] && parents == map[]
    }

    /** The emergency limit. */
    method EnforceLimit()
      requires Valid()
      modifies this
      ensures Valid()
      ensures if old(Overgrown()) then Emptied() && log == old(log) + [ForgotAll]
              else pubState == old(pubState) && lastCapture == old(lastCapture) && objectKeys == old(objectKeys)
                   && lastSeen == old(lastSeen) && parents == old(parents) && log == old(log)
    {
      hide Valid;
      if Overgrown() {
        ForgetAll();
      }
    }

    method Forget(keys: set<nat>)
      requires Valid()
      modifies this
      ensures Valid() && log == old(log) + [Forgot(keys)] && nextUuid == old(nextUuid)
      ensures pubState == old(pubState) - keys && lastCapture == old(lastCapture) - keys
      ensures objectKeys == old(objectKeys) - keys && lastSeen == old(lastSeen) - keys && parents == old(parents) - keys
    {
      hide LinkedAt, KeyOfMessage, Capture.Step, Linked, LastId, LastPayload, Heartbeats, Registered, Known;
      ghost var before := log;
      RegisteredPush(labelFilter, log, nextUuid, Forgot(keys));
      objectKeys, lastCapture, pubState := objectKeys - keys, lastCapture - keys, pubState - keys;
      parents, lastSeen := parents - keys, lastSeen - keys;
      trace := trace - keys;
      log := log + [Forgot(keys)];
      forall k: nat ensures DecisionOk(k) && ChainOk(k) {
        EndSnoc(before, Forgot(keys), k);
        assert old(DecisionOk(k)) && old(ChainOk(k));
      }
      LinkedPush(before, Forgot(keys));
    }

    method ForgetAll()
      requires Valid()
      modifies this
      ensures Valid() && log == old(log) + [ForgotAll]
      ensures Emptied()
    {
      hide LinkedAt, KeyOfMessage, Capture.Step, Linked, LastId, LastPayload, Heartbeats, Registered, Known;
      ghost var before := log;
      RegisteredPush(labelFilter, log, nextUuid, ForgotAll);
      objectKeys, lastCapture, pubState, parents, lastSeen := map[], map[], map[], map[], map[];
      trace := map[];
      log := log + [ForgotAll];
      forall k: nat ensures DecisionOk(k) && ChainOk(k) {
        EndSnoc(before, ForgotAll, k);
      }
      LinkedPush(before, ForgotAll);
    }
  }

  lemma NothingYet(filter: seq<string>, ctx: FrameContext, log: seq<LogEntry>, traces: Traces)
    ensures ParentsFirst(log, |log|) && Headed(log, |log|, FrameHeaders(filter, [], []))
    ensures FrameTraces(filter, ctx, traces, [], []) == traces
  {
  }

  lemma NothingSent(log: seq<LogEntry>)
    ensures Headed(log, |log|, [])
  {
  }

  lemma HeadedLength(log: seq<LogEntry>, from: nat, headers: seq<Header>)
    requires Headed(log, from, headers)
    ensures |log| == from + |headers|
  {
  }

  lemma NoChildren(filter: seq<string>, ctx: FrameContext, traces: Traces, parentTid: nat, d: Capture.Decision)
    ensures ChildHeaders(filter, [], parentTid, d) == [] && ChildTraces(filter, ctx, traces, []) == traces
  {
  }

  lemma ChildPush(filter: seq<string>, ctx: FrameContext, traces: Traces, children: seq<Obj>, x: Obj,
                  parentTid: nat, d: Capture.Decision)
    ensures ChildHeaders(filter, children + [x], parentTid, d)
      == ChildHeaders(filter, children, parentTid, d)
         + (if Accepts(filter, x) then [Header(x.tid, Some(parentTid), d, Payload(x))] else [])
    ensures ChildTraces(filter, ctx, traces, children + [x])
      == var before := ChildTraces(filter, ctx, traces, children);
         if Accepts(filter, x) then
           Append(before, ComposeKey(ctx.source, x.tid), Capture.Captured(ctx.pts, x.sgieLabels))
         else before
    ensures !Accepts(filter, x) ==>
      ChildHeaders(filter, children + [x], parentTid, d) == ChildHeaders(filter, children, parentTid, d)
  {
    hide ComposeKey, Append;
    assert (children + [x])[..|children|] == children;
  }

  lemma FramePush(filter: seq<string>, ctx: FrameContext, traces: Traces, groups: seq<Group>, rounds: seq<Round>,
                  g: Group, r: Round)
    requires |groups| == |rounds|
    ensures FrameHeaders(filter, groups + [g], rounds + [r])
      == FrameHeaders(filter, groups, rounds) + (if r.published then GroupHeaders(filter, g, r.decision) else [])
    ensures FrameTraces(filter, ctx, traces, groups + [g], rounds + [r])
      == GroupTraces(filter, ctx, FrameTraces(filter, ctx, traces, groups, rounds), g, r.published)
  {
    hide GroupHeaders, GroupTraces;
    assert (groups + [g])[..|groups|] == groups && (rounds + [r])[..|rounds|] == rounds;
  }
}
