/** Parent/child grouping of one frame's objects (build_object_groups, build_group_sgie_signature). */
module ObjectGroups {
  import opened Options
  import opened TextOrder

  /** Bounding box quantised to integer pixels, as the payload hash sees it. */
  datatype PixelBox = PixelBox(left: int, top: int, width: int, height: int)

  /** One object of the frame metadata; `parent` is the object its parent pointer refers to. */
  datatype Obj = Obj(
    tid: nat, objLabel: string, sgieLabels: string, classId: int, box: PixelBox, parent: Option<Obj>)

  datatype Group = Group(parent: Option<Obj>, parentTid: nat, children: seq<Obj>)

  const UNTRACKED: nat := 0xFFFF_FFFF_FFFF_FFFF

  /** (source_id << 48) | (tracker_id & 0xFFFFFFFFFFFF) in 64 bits. */
  function ComposeKey(source: nat, tid: nat): nat {
    (source % 0x1_0000) * 0x1_0000_0000_0000 + tid % 0x1_0000_0000_0000
  }

  type ParentCache = map<nat, nat>

  /** Where an object belongs: nowhere, at the head of its own group, or below a parent. */
  datatype Place = Ignored | Head | Below(parentTid: nat) | Deferred(parentTid: nat)

  function PlaceOf(source: nat, cache: ParentCache, x: Obj): Place {
    if x.tid == UNTRACKED then Ignored
    else
      match x.parent
      case Some(p) => if p.tid == UNTRACKED then Ignored else Below(p.tid)
      case None => if ComposeKey(source, x.tid) in cache then Deferred(cache[ComposeKey(source, x.tid)]) else Head
  }

  /** The cache after the frame: every explicit parent is remembered. */
  function Remember(source: nat, cache: ParentCache, x: Obj): ParentCache {
    if PlaceOf(source, cache, x).Below? then cache[ComposeKey(source, x.tid) := x.parent.value.tid] else cache
  }

  function RememberAll(source: nat, cache: ParentCache, objects: seq<Obj>): ParentCache {
    if objects == [] then cache
    else Remember(source, RememberAll(source, cache, objects[..|objects| - 1]), objects[|objects| - 1])
  }

  // ----- groups as a table keyed by the parent id ---------------------------------------------------------

  function Lookup(groups: seq<Group>, t: nat): Option<Group> {
    if groups == [] then None
    else if groups[0].parentTid == t then Some(groups[0]) else Lookup(groups[1..], t)
  }

  /** Replaces the group of `g.parentTid`, or appends it. */
  function Put(groups: seq<Group>, g: Group): seq<Group> {
    if groups == [] then [g]
    else if groups[0].parentTid == g.parentTid then [g] + groups[1..] else [groups[0]] + Put(groups[1..], g)
  }

  function GroupFor(groups: seq<Group>, t: nat): Group {
    match Lookup(groups, t)
    case Some(g) => g
    case None => Group(None, t, [])
  }

  ghost predicate DistinctTids(groups: seq<Group>) {
    forall i, j :: 0 <= i < j < |groups| ==> groups[i].parentTid != groups[j].parentTid
  }

  lemma {:induction false} LookupPut(groups: seq<Group>, g: Group, t: nat)
    ensures Lookup(Put(groups, g), t) == if t == g.parentTid then Some(g) else Lookup(groups, t)
  {
    if groups != [] && groups[0].parentTid != g.parentTid {
      LookupPut(groups[1..], g, t);
    }
  }

  lemma {:induction false} LookupAt(groups: seq<Group>, i: nat)
    requires DistinctTids(groups) && i < |groups|
    ensures Lookup(groups, groups[i].parentTid) == Some(groups[i])
    ensures forall g: Group :: g.parentTid == groups[i].parentTid ==> Put(groups, g) == groups[i := g]
  {
    if i > 0 {
      assert groups[0].parentTid != groups[i].parentTid;
      LookupAt(groups[1..], i - 1);
      forall g: Group | g.parentTid == groups[i].parentTid ensures Put(groups, g) == groups[i := g] {
        assert Put(groups[1..], g) == groups[1..][i - 1 := g];
        assert groups[i := g] == [groups[0]] + groups[1..][i - 1 := g];
      }
    }
  }

  lemma {:induction false} LookupAbsent(groups: seq<Group>, t: nat)
    requires forall i :: 0 <= i < |groups| ==> groups[i].parentTid != t
    ensures Lookup(groups, t) == None
    ensures forall g: Group :: g.parentTid == t ==> Put(groups, g) == groups + [g]
  {
    if groups != [] {
      LookupAbsent(groups[1..], t);
      forall g: Group | g.parentTid == t ensures Put(groups, g) == groups + [g] {
        assert Put(groups[1..], g) == groups[1..] + [g];
      }
    }
  }

  lemma {:induction false} LookupMember(groups: seq<Group>, t: nat)
    ensures Lookup(groups, t).Some? ==> Lookup(groups, t).value in groups && Lookup(groups, t).value.parentTid == t
  {
    if groups != [] && groups[0].parentTid != t {
      LookupMember(groups[1..], t);
    }
  }

  /** A group's parent carries the group's id. */
  ghost predicate ParentIds(groups: seq<Group>) {
    forall k :: 0 <= k < |groups| && groups[k].parent.Some? ==> groups[k].parent.value.tid == groups[k].parentTid
  }

  // ----- what the loops compute --------------------------------------------------------------------------------

  /** An object together with the place the cache gives it when its turn comes. */
  datatype Placed = Placed(x: Obj, place: Place)

  function Rounds(source: nat, cache: ParentCache, objects: seq<Obj>): (r: seq<Placed>)
    ensures |r| == |objects|
    ensures forall i :: 0 <= i < |r| ==>
      r[i] == Placed(objects[i], PlaceOf(source, RememberAll(source, cache, objects[..i]), objects[i]))
  {
    seq(|objects|, i requires 0 <= i < |objects| =>
      Placed(objects[i], PlaceOf(source, RememberAll(source, cache, objects[..i]), objects[i])))
  }

  /** The object a group takes as its parent because of this round. */
  function Provided(p: Placed): Obj {
    if p.place.Below? && p.x.parent.Some? then p.x.parent.value else p.x
  }

  function WithParent(g: Group, p: Obj): Group {
    if g.parent == None then g.(parent := Some(p)) else g
  }

  function WithChild(g: Group, x: Obj): Group {
    g.(children := g.children + [x])
  }

  /** One round of the first loop, on groups. */
  function PlaceObject(groups: seq<Group>, p: Placed): seq<Group> {
    match p.place
    case Head => Put(groups, WithParent(GroupFor(groups, p.x.tid), p.x))
    case Below(t) => Put(groups, WithChild(WithParent(GroupFor(groups, t), Provided(p)), p.x))
    case _ => groups
  }

  function FirstLoop(placed: seq<Placed>): seq<Group> {
    if placed == [] then [] else PlaceObject(FirstLoop(placed[..|placed| - 1]), placed[|placed| - 1])
  }

  /** The objects set aside for the second loop, each with the parent id remembered for it. */
  function DeferredOf(placed: seq<Placed>): seq<(Obj, nat)> {
    if placed == [] then []
    else
      var last := placed[|placed| - 1];
      DeferredOf(placed[..|placed| - 1])
      + (match last.place case Deferred(t) => [(last.x, t)] case _ => [])
  }

  function Attach(groups: seq<Group>, deferred: seq<(Obj, nat)>): seq<Group> {
    if deferred == [] then groups
    else
      var before := Attach(groups, deferred[..|deferred| - 1]);
      var (x, t) := deferred[|deferred| - 1];
      Put(before, WithChild(GroupFor(before, t), x))
  }

  function Groups(source: nat, cache: ParentCache, objects: seq<Obj>): seq<Group> {
    var placed := Rounds(source, cache, objects);
    Attach(FirstLoop(placed), DeferredOf(placed))
  }

  // ----- what the groups of a frame are ------------------------------------------------------------------------

  ghost predicate Opens(p: Placed, t: nat) {
    match p.place
    case Head => p.x.tid == t
    case Below(u) => u == t
    case _ => false
  }

  ghost predicate Opened(placed: seq<Placed>, t: nat) {
    exists i :: 0 <= i < |placed| && Opens(placed[i], t)
  }

  ghost predicate ProvidedBy(placed: seq<Placed>, t: nat, parent: Obj) {
    exists i :: 0 <= i < |placed| && Opens(placed[i], t) && Provided(placed[i]) == parent
  }

  /** How often the object was placed below `t`. */
  ghost function TimesBelow(counted: multiset<Placed>, t: nat, x: Obj): nat {
    counted[Placed(x, Below(t))] + counted[Placed(x, Deferred(t))]
  }

  ghost predicate ChildrenAre(counted: multiset<Placed>, t: nat, children: seq<Obj>) {
    forall x :: multiset(children)[x] == TimesBelow(counted, t, x)
  }

  /**
   * The entry for `t` after the rounds `placed` of the first loop, when the children in `counted` have been
   * attached. With both the whole frame this is the meaning of a group.
   */
  ghost predicate EntryOk(placed: seq<Placed>, counted: multiset<Placed>, t: nat, entry: Option<Group>) {
    match entry
    case None => !Opened(placed, t) && ChildrenAre(counted, t, [])
    case Some(g) =>
      && g.parentTid == t
      && ChildrenAre(counted, t, g.children)
      && match g.parent
         case None => !Opened(placed, t) && g.children != []
         case Some(p) => ProvidedBy(placed, t, p)
  }

  ghost predicate GroupsOk(placed: seq<Placed>, counted: multiset<Placed>, groups: seq<Group>) {
    DistinctTids(groups) && forall t: nat :: EntryOk(placed, counted, t, Lookup(groups, t))
  }

  /** Every group of the frame, exactly: which exist, who is the parent, which children it has. */
  ghost predicate GroupsOf(placed: seq<Placed>, groups: seq<Group>) {
    GroupsOk(placed, multiset(placed), groups)
  }

  // ----- step lemmas -------------------------------------------------------------------------------------------

  lemma CountPush(s: seq<Obj>, x: Obj)
    ensures forall y :: multiset(s + [x])[y] == multiset(s)[y] + if y == x then 1 else 0
  {
  }

  lemma OpenedPush(placed: seq<Placed>, p: Placed, t: nat)
    ensures Opened(placed + [p], t) <==> Opened(placed, t) || Opens(p, t)
    ensures forall parent :: ProvidedBy(placed, t, parent) ==> ProvidedBy(placed + [p], t, parent)
    ensures Opens(p, t) ==> ProvidedBy(placed + [p], t, Provided(p))
  {
    hide Opens, Provided;
    var all := placed + [p];
    assert all[|placed|] == p;
    assert forall i :: 0 <= i < |placed| ==> all[i] == placed[i];
    if Opened(placed, t) {
      var i :| 0 <= i < |placed| && Opens(placed[i], t);
      assert Opens(all[i], t);
    }
    forall parent | ProvidedBy(placed, t, parent) ensures ProvidedBy(all, t, parent) {
      var i :| 0 <= i < |placed| && Opens(placed[i], t) && Provided(placed[i]) == parent;
      assert Opens(all[i], t) && Provided(all[i]) == parent;
    }
  }

  /** A round that neither opens nor joins `t` leaves the entry for `t` right. */
  lemma EntryElsewhere(placed: seq<Placed>, counted: multiset<Placed>, p: Placed, t: nat, entry: Option<Group>)
    requires EntryOk(placed, counted, t, entry) && !Opens(p, t)
    ensures EntryOk(placed + [p], counted, t, entry)
    ensures p.place != Deferred(t) ==> EntryOk(placed + [p], counted + multiset{p}, t, entry)
  {
    hide Opened, ProvidedBy;
    OpenedPush(placed, p, t);
  }

  lemma EntryHead(placed: seq<Placed>, counted: multiset<Placed>, p: Placed, groups: seq<Group>)
    requires p.place == Head && EntryOk(placed, counted, p.x.tid, Lookup(groups, p.x.tid))
    ensures EntryOk(placed + [p], counted + multiset{p}, p.x.tid, Some(WithParent(GroupFor(groups, p.x.tid), p.x)))
  {
    hide Opened, ProvidedBy, Lookup;
    OpenedPush(placed, p, p.x.tid);
  }

  lemma EntryBelow(placed: seq<Placed>, counted: multiset<Placed>, p: Placed, t: nat, groups: seq<Group>)
    requires p.place == Below(t) && EntryOk(placed, counted, t, Lookup(groups, t))
    ensures EntryOk(placed + [p], counted + multiset{p}, t,
                    Some(WithChild(WithParent(GroupFor(groups, t), Provided(p)), p.x)))
  {
    hide Opened, ProvidedBy, ChildrenAre, Lookup;
    OpenedPush(placed, p, t);
    ChildrenPush(counted, p, t, GroupFor(groups, t).children);
  }

  lemma ChildrenPush(counted: multiset<Placed>, p: Placed, t: nat, children: seq<Obj>)
    requires ChildrenAre(counted, t, children) && p.place in {Below(t), Deferred(t)}
    ensures ChildrenAre(counted + multiset{p}, t, children + [p.x])
  {
    CountPush(children, p.x);
  }

  lemma EntryDeferred(placed: seq<Placed>, counted: multiset<Placed>, x: Obj, t: nat, groups: seq<Group>)
    requires EntryOk(placed, counted, t, Lookup(groups, t))
    ensures EntryOk(placed, counted + multiset{Placed(x, Deferred(t))}, t, Some(WithChild(GroupFor(groups, t), x)))
  {
    hide Opened, ProvidedBy, ChildrenAre, Lookup;
    ChildrenPush(counted, Placed(x, Deferred(t)), t, GroupFor(groups, t).children);
  }

  lemma {:induction false} PutDistinct(groups: seq<Group>, g: Group)
    requires DistinctTids(groups)
    ensures DistinctTids(Put(groups, g))
    ensures forall h :: h in Put(groups, g) ==> h == g || h in groups
  {
    if groups != [] && groups[0].parentTid != g.parentTid {
      PutDistinct(groups[1..], g);
      var rest := Put(groups[1..], g);
      forall k | 0 <= k < |rest| ensures rest[k].parentTid != groups[0].parentTid {
        assert rest[k] in rest;
      }
    }
  }

  lemma GroupForTid(groups: seq<Group>, t: nat)
    ensures GroupFor(groups, t).parentTid == t
  {
    LookupMember(groups, t);
  }

  lemma FirstLoopStep(placed: seq<Placed>, counted: multiset<Placed>, groups: seq<Group>, p: Placed)
    requires GroupsOk(placed, counted, groups)
    ensures GroupsOk(placed + [p], if p.place.Deferred? then counted else counted + multiset{p}, PlaceObject(groups, p))
  {
    hide EntryOk, GroupFor, Lookup, Put;
    var after := PlaceObject(groups, p);
    var more := if p.place.Deferred? then counted else counted + multiset{p};
    if p.place.Head? || p.place.Below? {
      var t := if p.place.Below? then p.place.parentTid else p.x.tid;
      var g := if p.place.Head? then WithParent(GroupFor(groups, t), p.x)
               else WithChild(WithParent(GroupFor(groups, t), Provided(p)), p.x);
      GroupForTid(groups, t);
      PutDistinct(groups, g);
      if p.place.Head? {
        EntryHead(placed, counted, p, groups);
      } else {
        EntryBelow(placed, counted, p, t, groups);
      }
      forall u: nat ensures EntryOk(placed + [p], more, u, Lookup(after, u)) {
        LookupPut(groups, g, u);
        if u != t {
          EntryElsewhere(placed, counted, p, u, Lookup(groups, u));
        }
      }
    } else {
      forall u: nat ensures EntryOk(placed + [p], more, u, Lookup(after, u)) {
        EntryElsewhere(placed, counted, p, u, Lookup(groups, u));
      }
    }
  }

  lemma SecondLoopStep(placed: seq<Placed>, counted: multiset<Placed>, groups: seq<Group>, x: Obj, t: nat)
    requires GroupsOk(placed, counted, groups)
    ensures GroupsOk(placed, counted + multiset{Placed(x, Deferred(t))}, Put(groups, WithChild(GroupFor(groups, t), x)))
  {
    hide GroupFor, Lookup, Put, Opened, ProvidedBy;
    var grown := WithChild(GroupFor(groups, t), x);
    var more := counted + multiset{Placed(x, Deferred(t))};
    GroupForTid(groups, t);
    PutDistinct(groups, grown);
    EntryDeferred(placed, counted, x, t, groups);
    forall u: nat ensures EntryOk(placed, more, u, Lookup(Put(groups, grown), u)) {
      LookupPut(groups, grown, u);
      if u != t {
        assert EntryOk(placed, counted, u, Lookup(groups, u));
      }
    }
  }

  ghost function NotDeferred(placed: seq<Placed>): multiset<Placed> {
    if placed == [] then multiset{}
    else
      var last := placed[|placed| - 1];
      NotDeferred(placed[..|placed| - 1]) + (if last.place.Deferred? then multiset{} else multiset{last})
  }

  ghost function Bag(deferred: seq<(Obj, nat)>): multiset<Placed> {
    if deferred == [] then multiset{}
    else
      var (x, t) := deferred[|deferred| - 1];
      Bag(deferred[..|deferred| - 1]) + multiset{Placed(x, Deferred(t))}
  }

  lemma {:induction false} FirstLoopMeans(placed: seq<Placed>)
    ensures GroupsOk(placed, NotDeferred(placed), FirstLoop(placed))
  {
    hide GroupsOk, PlaceObject;
    if placed == [] {
      NothingPlaced();
    } else {
      var front, last := placed[..|placed| - 1], placed[|placed| - 1];
      FirstLoopMeans(front);
      FirstLoopStep(front, NotDeferred(front), FirstLoop(front), last);
      assert placed == front + [last];
      assert NotDeferred(front) + multiset{} == NotDeferred(front);
    }
  }

  lemma {:induction false} KeptAndDeferred(placed: seq<Placed>)
    ensures NotDeferred(placed) + Bag(DeferredOf(placed)) == multiset(placed)
  {
    hide NotDeferred, Bag, DeferredOf;
    if placed == [] {
      NothingDeferred();
    } else {
      var front, last := placed[..|placed| - 1], placed[|placed| - 1];
      KeptAndDeferred(front);
      DeferredPush(front, last);
      assert placed == front + [last];
    }
  }

  lemma NothingDeferred()
    ensures NotDeferred([]) == multiset{} && Bag(DeferredOf([])) == multiset{}
  {
  }

  lemma DeferredPush(front: seq<Placed>, last: Placed)
    ensures NotDeferred(front + [last]) + Bag(DeferredOf(front + [last]))
         == NotDeferred(front) + Bag(DeferredOf(front)) + multiset{last}
  {
    hide Bag;
    assert (front + [last])[..|front|] == front;
    match last.place {
      case Deferred(t) => BagPush(DeferredOf(front), last.x, t);
      case _ => assert DeferredOf(front) + [] == DeferredOf(front);
    }
  }

  lemma NothingPlaced()
    ensures GroupsOk([], multiset{}, [])
  {
  }

  lemma BagPush(deferred: seq<(Obj, nat)>, x: Obj, t: nat)
    ensures Bag(deferred + [(x, t)]) == Bag(deferred) + multiset{Placed(x, Deferred(t))}
  {
    assert (deferred + [(x, t)])[..|deferred|] == deferred;
  }

  lemma {:induction false} AttachMeans(
    placed: seq<Placed>, counted: multiset<Placed>, groups: seq<Group>, deferred: seq<(Obj, nat)>)
    requires GroupsOk(placed, counted, groups)
    ensures GroupsOk(placed, counted + Bag(deferred), Attach(groups, deferred))
    decreases |deferred|
  {
    hide GroupsOk, Put, GroupFor;
    if deferred == [] {
      assert counted + Bag(deferred) == counted;
    } else {
      var front := deferred[..|deferred| - 1];
      var (x, t) := deferred[|deferred| - 1];
      AttachMeans(placed, counted, groups, front);
      SecondLoopStep(placed, counted + Bag(front), Attach(groups, front), x, t);
      assert counted + Bag(deferred) == counted + Bag(front) + multiset{Placed(x, Deferred(t))};
    }
  }

  /** For every frame the groups are exactly those its rounds define. */
  lemma GroupsMean(source: nat, cache: ParentCache, objects: seq<Obj>)
    ensures GroupsOf(Rounds(source, cache, objects), Groups(source, cache, objects))
  {
    hide GroupsOk, Attach, FirstLoop, DeferredOf, Rounds;
    var placed := Rounds(source, cache, objects);
    FirstLoopMeans(placed);
    KeptAndDeferred(placed);
    AttachMeans(placed, NotDeferred(placed), FirstLoop(placed), DeferredOf(placed));
  }

  // ----- the method ------------------------------------------------------------------------------------------

  ghost predicate IndexOk(groups: seq<Group>, index: map<nat, nat>) {
    && DistinctTids(groups)
    && (forall t :: t in index ==> index[t] < |groups| && groups[index[t]].parentTid == t)
    && (forall k :: 0 <= k < |groups| ==> groups[k].parentTid in index)
  }

  /** Finds the group of `t` through the index, or appends an empty one. */
  method EnsureGroup(groups: seq<Group>, index: map<nat, nat>, t: nat)
    returns (grown: seq<Group>, grownIndex: map<nat, nat>, at: nat)
    requires IndexOk(groups, index)
    ensures at < |grown| && grown[at] == GroupFor(groups, t) && grown[at].parentTid == t
    ensures ParentIds(groups) ==> ParentIds(grown)
    ensures forall g: Group :: g.parentTid == t ==>
      Put(groups, g) == grown[at := g] && IndexOk(grown[at := g], grownIndex)
  {
    if t in index {
      LookupAt(groups, index[t]);
      return groups, index, index[t];
    }
    LookupAbsent(groups, t);
    grown, grownIndex, at := groups + [Group(None, t, [])], index[t := |groups|], |groups|;
    forall g: Group | g.parentTid == t
      ensures Put(groups, g) == grown[at := g] && IndexOk(grown[at := g], grownIndex)
    {
      assert grown[at := g] == groups + [g];
    }
  }

  /** One round of the first loop; a parentless object whose parent is remembered is deferred. */
  method PlaceOne(source: nat, x: Obj, groups: seq<Group>, index: map<nat, nat>, cache: ParentCache)
    returns (grown: seq<Group>, grownIndex: map<nat, nat>, remembered: ParentCache, later: Option<nat>)
    requires IndexOk(groups, index)
    ensures IndexOk(grown, grownIndex) && grown == PlaceObject(groups, Placed(x, PlaceOf(source, cache, x)))
    ensures ParentIds(groups) ==> ParentIds(grown)
    ensures remembered == Remember(source, cache, x)
    ensures later == match PlaceOf(source, cache, x) case Deferred(t) => Some(t) case _ => None
  {
    hide IndexOk, Lookup, Put, ComposeKey;
    grown, grownIndex, remembered, later := groups, index, cache, None;
    if x.tid == UNTRACKED {
      return;
    }
    if x.parent == None {
      var key := ComposeKey(source, x.tid);
      if key in cache {
        later := Some(cache[key]);
      } else {
        var at;
        grown, grownIndex, at := EnsureGroup(groups, index, x.tid);
        grown := grown[at := WithParent(grown[at], x)];
      }
      return;
    }
    var p := x.parent.value;
    if p.tid == UNTRACKED {
      return;
    }
    remembered := cache[ComposeKey(source, x.tid) := p.tid];
    var at;
    grown, grownIndex, at := EnsureGroup(groups, index, p.tid);
    var g := WithParent(grown[at], p);
    grown := grown[at := WithChild(g, x)];
  }

  /** Groups of one frame, and the updated parent cache. */
  method BuildObjectGroups(source: nat, objects: seq<Obj>, cache: ParentCache)
    returns (groups: seq<Group>, remembered: ParentCache)
    ensures remembered == RememberAll(source, cache, objects)
    ensures groups == Groups(source, cache, objects)
    ensures GroupsOf(Rounds(source, cache, objects), groups) && ParentIds(groups)
  {
    hide GroupsOf, PlaceObject, FirstLoop, DeferredOf, Rounds, Remember, RememberAll, PlaceOf, IndexOk;
    groups, remembered := [], cache;
    var index: map<nat, nat> := map[];
    var deferred: seq<(Obj, nat)> := [];
    NoRounds(source, cache);
    for i := 0 to |objects|
      invariant IndexOk(groups, index) && ParentIds(groups)
      invariant remembered == RememberAll(source, cache, objects[..i])
      invariant groups == FirstLoop(Rounds(source, cache, objects[..i]))
      invariant deferred == DeferredOf(Rounds(source, cache, objects[..i]))
    {
      RoundsPush(source, cache, objects[..i], objects[i]);
      assert objects[..i + 1] == objects[..i] + [objects[i]];
      var later;
      groups, index, remembered, later := PlaceOne(source, objects[i], groups, index, remembered);
      deferred := deferred + if later.Some? then [(objects[i], later.value)] else [];
    }
    assert objects[..|objects|] == objects;
    groups := AttachDeferred(groups, index, deferred);
    GroupsMean(source, cache, objects);
  }

  lemma NoRounds(source: nat, cache: ParentCache)
    ensures Rounds(source, cache, []) == [] && FirstLoop([]) == [] && DeferredOf([]) == []
    ensures RememberAll(source, cache, []) == cache && IndexOk([], map[])
  {
  }

  lemma LoopsPush(before: seq<Placed>, p: Placed)
    ensures FirstLoop(before + [p]) == PlaceObject(FirstLoop(before), p)
    ensures DeferredOf(before + [p]) == DeferredOf(before) + (match p.place case Deferred(t) => [(p.x, t)] case _ => [])
  {
    hide PlaceObject;
    assert (before + [p])[..|before|] == before;
  }

  lemma RoundsPush(source: nat, cache: ParentCache, done: seq<Obj>, x: Obj)
    ensures
      var now, before := RememberAll(source, cache, done), Rounds(source, cache, done);
      var p := Placed(x, PlaceOf(source, now, x));
      && Rounds(source, cache, done + [x]) == before + [p]
      && RememberAll(source, cache, done + [x]) == Remember(source, now, x)
      && FirstLoop(before + [p]) == PlaceObject(FirstLoop(before), p)
      && DeferredOf(before + [p])
         == DeferredOf(before) + (match p.place case Deferred(t) => [(x, t)] case _ => [])
  {
    hide PlaceOf, Remember, PlaceObject, FirstLoop, DeferredOf;
    var all := done + [x];
    assert all[..|done|] == done;
    var now, before := RememberAll(source, cache, done), Rounds(source, cache, done);
    var p := Placed(x, PlaceOf(source, now, x));
    LoopsPush(before, p);
    forall i | 0 <= i < |done| ensures Rounds(source, cache, all)[i] == before[i] {
      assert all[..i] == done[..i];
    }
    assert Rounds(source, cache, all) == before + [p];
  }

  /** The second loop: every deferred object joins the group remembered for it. */
  method AttachDeferred(headed: seq<Group>, headedIndex: map<nat, nat>, deferred: seq<(Obj, nat)>)
    returns (groups: seq<Group>)
    requires IndexOk(headed, headedIndex) && ParentIds(headed)
    ensures groups == Attach(headed, deferred) && ParentIds(groups)
  {
    hide IndexOk, Put;
    groups := headed;
    var index := headedIndex;
    for i := 0 to |deferred|
      invariant IndexOk(groups, index) && ParentIds(groups)
      invariant groups == Attach(headed, deferred[..i])
    {
      var (child, t) := deferred[i];
      assert deferred[..i + 1][..i] == deferred[..i];
      var at;
      groups, index, at := EnsureGroup(groups, index, t);
      groups := groups[at := WithChild(groups[at], child)];
    }
    assert deferred[..|deferred|] == deferred;
  }

  // ----- every object is placed once ----------------------------------------------------------------------------

  /** No tracker id occurs twice in the frame. */
  ghost predicate DistinctIds(objects: seq<Obj>) {
    forall i, j :: 0 <= i < j < |objects| && objects[i].tid != UNTRACKED ==> objects[i].tid != objects[j].tid
  }

  /** The object that an opening entry for `x` names as parent. */
  function Named(x: Obj): Obj {
    if x.parent.Some? then x.parent.value else x
  }

  /** A tracker id stands for one object: parent pointers with one id refer to one and the same object. */
  ghost predicate OneObjectPerId(objects: seq<Obj>) {
    forall x, y :: x in objects && y in objects && Named(x).tid == Named(y).tid != UNTRACKED ==> Named(x) == Named(y)
  }

  lemma ProviderUnique(source: nat, cache: ParentCache, objects: seq<Obj>, t: nat, p: Obj, q: Obj)
    requires OneObjectPerId(objects)
    requires ProvidedBy(Rounds(source, cache, objects), t, p) && ProvidedBy(Rounds(source, cache, objects), t, q)
    ensures p == q
  {
    hide ComposeKey, RememberAll;
    var placed := Rounds(source, cache, objects);
    var i :| 0 <= i < |placed| && Opens(placed[i], t) && Provided(placed[i]) == p;
    var j :| 0 <= j < |placed| && Opens(placed[j], t) && Provided(placed[j]) == q;
    assert objects[i] in objects && objects[j] in objects;
  }

  lemma Twice<T>(s: seq<T>, i: nat, j: nat)
    requires i < j < |s| && s[i] == s[j]
    ensures multiset(s)[s[i]] >= 2
  {
    assert s == s[..i] + [s[i]] + s[i + 1..j] + [s[j]] + s[j + 1..];
  }

  lemma SecondPlace<T>(s: seq<T>, i: nat) returns (j: nat)
    requires i < |s| && multiset(s)[s[i]] >= 2
    ensures j < |s| && j != i && s[j] == s[i]
  {
    RemoveAt(s, i);
    var rest := s[..i] + s[i + 1..];
    assert s[i] in multiset(rest);
    var k :| 0 <= k < |rest| && rest[k] == s[i];
    j := if k < i then k else k + 1;
  }

  lemma OnlyOnce(objects: seq<Obj>, i: nat)
    requires DistinctIds(objects) && i < |objects| && objects[i].tid != UNTRACKED
    ensures multiset(objects)[objects[i]] == 1
  {
    assert objects[i] in multiset(objects);
    if multiset(objects)[objects[i]] >= 2 {
      var j := SecondPlace(objects, i);
      assert false;
    }
  }

  /** An object that occurs once has one round, so it is below `t` at most once. */
  lemma BelowOnce(source: nat, cache: ParentCache, objects: seq<Obj>, i: nat, t: nat)
    requires i < |objects| && multiset(objects)[objects[i]] == 1
    ensures
      var placed := Rounds(source, cache, objects);
      TimesBelow(multiset(placed), t, objects[i]) == if placed[i].place in {Below(t), Deferred(t)} then 1 else 0
  {
    hide PlaceOf, RememberAll;
    var placed := Rounds(source, cache, objects);
    RemoveAt(placed, i);
    var rest := placed[..i] + placed[i + 1..];
    forall k | 0 <= k < |rest| ensures rest[k].x != objects[i] {
      var j := if k < i then k else k + 1;
      assert rest[k] == placed[j];
      if objects[j] == objects[i] {
        Twice(objects, if i < j then i else j, if i < j then j else i);
      }
    }
    assert multiset(rest)[Placed(objects[i], Below(t))] == 0;
    assert multiset(rest)[Placed(objects[i], Deferred(t))] == 0;
  }

  /**
   * With distinct tracker ids an object whose place is not `Ignored` (it is tracked, and so is its parent, if
   * any) is placed exactly once, where the cache puts it at its turn: at the head of the group of its own id
   * and among no children, or exactly once among the children of one group and of no other.
   */
  lemma PlacedOnce(source: nat, cache: ParentCache, objects: seq<Obj>, i: nat, t: nat)
    requires DistinctIds(objects) && OneObjectPerId(objects) && i < |objects|
    requires Rounds(source, cache, objects)[i].place != Ignored
    ensures
      var x, entry := objects[i], Lookup(Groups(source, cache, objects), t);
      var times := if entry.Some? then multiset(entry.value.children)[x] else 0;
      match Rounds(source, cache, objects)[i].place
      case Head => times == 0 && (t == x.tid ==> entry.Some? && entry.value.parent == Some(x))
      case Below(u) => times == (if t == u then 1 else 0)
      case Deferred(u) => times == (if t == u then 1 else 0)
      case Ignored => false
  {
    hide ComposeKey, RememberAll, Lookup, DistinctIds, OneObjectPerId, Groups;
    var x, entry, placed := objects[i], Lookup(Groups(source, cache, objects), t), Rounds(source, cache, objects);
    GroupsMean(source, cache, objects);
    OnlyOnce(objects, i);
    BelowOnce(source, cache, objects, i, t);
    assert EntryOk(placed, multiset(placed), t, entry);
    assert ChildrenAre(multiset(placed), t, if entry.Some? then entry.value.children else []);
    if placed[i].place == Head && t == x.tid {
      assert Opens(placed[i], t) && Provided(placed[i]) == x;
      assert Opened(placed, t) && ProvidedBy(placed, t, x);
      ProviderUnique(source, cache, objects, t, entry.value.parent.value, x);
    }
  }

  // ----- when the order of the metadata matters ---------------------------------------------------------

  ghost predicate SameEntry(a: Option<Group>, b: Option<Group>) {
    match (a, b)
    case (None, None) => true
    case (Some(g), Some(h)) => g.parent == h.parent && multiset(g.children) == multiset(h.children)
    case _ => false
  }

  /** Same groups: the same ids, parents and children as multisets; and the same updated cache. */
  ghost predicate SameResult(source: nat, cache: ParentCache, a: seq<Obj>, b: seq<Obj>) {
    && RememberAll(source, cache, a) == RememberAll(source, cache, b)
    && forall t: nat :: SameEntry(Lookup(Groups(source, cache, a), t), Lookup(Groups(source, cache, b), t))
  }

  predicate Explicit(x: Obj) {
    x.tid != UNTRACKED && x.parent.Some? && x.parent.value.tid != UNTRACKED
  }

  /**
   * `y` names a tracked parent, and `x` has the same 48-bit key but is parentless, with something other than
   * that parent in the cache for the key, or names another parent.
   */
  ghost predicate Clashes(source: nat, cache: ParentCache, x: Obj, y: Obj) {
    && x.tid != UNTRACKED && Explicit(y) && ComposeKey(source, x.tid) == ComposeKey(source, y.tid)
    && var key, t := ComposeKey(source, x.tid), y.parent.value.tid;
    match x.parent
    case None => !(key in cache && cache[key] == t)
    case Some(p) => p.tid != UNTRACKED && p.tid != t
  }

  ghost predicate Conflict(source: nat, cache: ParentCache, objects: seq<Obj>) {
    exists x, y :: x in objects && y in objects && Clashes(source, cache, x, y)
  }

  /** Some two orders of the same metadata give different groups or a different cache. */
  ghost predicate OrderMatters(source: nat, cache: ParentCache, objects: seq<Obj>) {
    exists a, b :: multiset(a) == multiset(objects) && multiset(b) == multiset(objects)
                   && !SameResult(source, cache, a, b)
  }

  /** Entries for a key are those of any of its writers, all of which agree; without a writer it is unchanged. */
  lemma {:induction false} CacheAt(source: nat, cache: ParentCache, objects: seq<Obj>, key: nat)
    requires !Conflict(source, cache, objects)
    ensures
      var after := RememberAll(source, cache, objects);
      && (forall y :: y in objects && Explicit(y) && ComposeKey(source, y.tid) == key ==>
            key in after && after[key] == y.parent.value.tid)
      && ((forall y :: y in objects && Explicit(y) ==> ComposeKey(source, y.tid) != key) ==>
            (key in after <==> key in cache) && (key in cache ==> after[key] == cache[key]))
  {
    hide ComposeKey;
    if objects != [] {
      var front, last := objects[..|objects| - 1], objects[|objects| - 1];
      assert last in objects && forall y :: y in objects <==> y in front || y == last;
      CacheAt(source, cache, front, key);
      forall y | y in objects && Explicit(y) && ComposeKey(source, y.tid) == key
        ensures key in RememberAll(source, cache, objects)
             && RememberAll(source, cache, objects)[key] == y.parent.value.tid
      {
        assert !Clashes(source, cache, last, y);
      }
    }
  }

  /** Without a clash an object's place does not depend on the objects before it. */
  lemma PlaceUnaffected(source: nat, cache: ParentCache, objects: seq<Obj>, i: nat)
    requires !Conflict(source, cache, objects) && i < |objects|
    ensures PlaceOf(source, RememberAll(source, cache, objects[..i]), objects[i]) == PlaceOf(source, cache, objects[i])
  {
    hide ComposeKey, RememberAll;
    var x, key := objects[i], ComposeKey(source, objects[i].tid);
    if x.tid != UNTRACKED && x.parent == None {
      assert x in objects && forall y :: y in objects[..i] ==> y in objects;
      CacheAt(source, cache, objects[..i], key);
      if y :| y in objects[..i] && Explicit(y) && ComposeKey(source, y.tid) == key {
        assert !Clashes(source, cache, x, y);
      }
    }
  }

  ghost function Tagged(source: nat, cache: ParentCache, x: Obj): Placed {
    Placed(x, PlaceOf(source, cache, x))
  }

  lemma RoundsPermuted(source: nat, cache: ParentCache, a: seq<Obj>, b: seq<Obj>)
    requires multiset(a) == multiset(b) && !Conflict(source, cache, a)
    ensures multiset(Rounds(source, cache, a)) == multiset(Rounds(source, cache, b)) && !Conflict(source, cache, b)
  {
    hide PlaceOf, Clashes, RememberAll;
    SameMembers(a, b);
    var tag := x => Tagged(source, cache, x);
    forall i | 0 <= i < |a| ensures Rounds(source, cache, a)[i] == tag(a[i]) {
      PlaceUnaffected(source, cache, a, i);
    }
    forall i | 0 <= i < |b| ensures Rounds(source, cache, b)[i] == tag(b[i]) {
      PlaceUnaffected(source, cache, b, i);
    }
    assert Rounds(source, cache, a) == Map(tag, a) && Rounds(source, cache, b) == Map(tag, b);
    MapPermuted(tag, a, b);
  }

  lemma SameMembers<T>(a: seq<T>, b: seq<T>)
    requires multiset(a) == multiset(b)
    ensures forall x :: x in a <==> x in b
  {
    forall x ensures x in a <==> x in b {
      assert x in a <==> x in multiset(a);
      assert x in b <==> x in multiset(b);
    }
  }

  lemma CacheIgnoresOrder(source: nat, cache: ParentCache, a: seq<Obj>, b: seq<Obj>)
    requires multiset(a) == multiset(b) && !Conflict(source, cache, a) && !Conflict(source, cache, b)
    ensures RememberAll(source, cache, a) == RememberAll(source, cache, b)
  {
    hide ComposeKey, Clashes, RememberAll, Conflict;
    SameMembers(a, b);
    forall key ensures
      var ra, rb := RememberAll(source, cache, a), RememberAll(source, cache, b);
      (key in ra <==> key in rb) && (key in ra ==> ra[key] == rb[key])
    {
      CacheAt(source, cache, a, key);
      CacheAt(source, cache, b, key);
    }
  }

  lemma OpenedPermuted(a: seq<Placed>, b: seq<Placed>, t: nat)
    requires multiset(a) == multiset(b)
    ensures Opened(a, t) ==> Opened(b, t)
    ensures forall p :: ProvidedBy(a, t, p) ==> ProvidedBy(b, t, p) && Opened(a, t)
  {
    hide Opens, Provided;
    SameMembers(a, b);
    forall i | 0 <= i < |a| ensures a[i] in b {
      assert a[i] in a;
    }
    if Opened(a, t) {
      var i :| 0 <= i < |a| && Opens(a[i], t);
      var j :| 0 <= j < |b| && b[j] == a[i];
      assert Opens(b[j], t);
    }
    forall p | ProvidedBy(a, t, p) ensures ProvidedBy(b, t, p) && Opened(a, t) {
      var i :| 0 <= i < |a| && Opens(a[i], t) && Provided(a[i]) == p;
      var j :| 0 <= j < |b| && b[j] == a[i];
      assert Opens(b[j], t) && Provided(b[j]) == p;
    }
  }

  ghost function ChildrenIn(entry: Option<Group>): seq<Obj> {
    if entry.Some? then entry.value.children else []
  }

  lemma EntryPermuted(a: seq<Placed>, b: seq<Placed>, t: nat, ea: Option<Group>, eb: Option<Group>)
    requires multiset(a) == multiset(b)
    requires EntryOk(a, multiset(a), t, ea) && EntryOk(b, multiset(b), t, eb)
    requires forall p, q :: ProvidedBy(a, t, p) && ProvidedBy(a, t, q) ==> p == q
    ensures SameEntry(ea, eb)
  {
    hide TimesBelow, Opened, ProvidedBy;
    OpenedPermuted(a, b, t);
    OpenedPermuted(b, a, t);
    var c, d := ChildrenIn(ea), ChildrenIn(eb);
    forall x ensures multiset(c)[x] == multiset(d)[x] {
      assert ChildrenAre(multiset(a), t, c) && ChildrenAre(multiset(b), t, d);
    }
    assert multiset(c) == multiset(d);
    assert |multiset(c)| == |c| && |multiset(d)| == |d|;
  }

  /** Without a clash every order of the metadata gives the same groups and the same cache. */
  lemma GroupingIgnoresOrder(source: nat, cache: ParentCache, a: seq<Obj>, b: seq<Obj>)
    requires multiset(a) == multiset(b) && OneObjectPerId(a) && !Conflict(source, cache, a)
    ensures SameResult(source, cache, a, b)
  {
    hide PlaceOf, RememberAll, Lookup, Groups, Conflict, OneObjectPerId, EntryOk, Rounds, Opened, ProvidedBy;
    RoundsPermuted(source, cache, a, b);
    CacheIgnoresOrder(source, cache, a, b);
    GroupsMean(source, cache, a);
    GroupsMean(source, cache, b);
    var ra, rb := Rounds(source, cache, a), Rounds(source, cache, b);
    forall t: nat
      ensures SameEntry(Lookup(Groups(source, cache, a), t), Lookup(Groups(source, cache, b), t))
    {
      forall p, q | ProvidedBy(ra, t, p) && ProvidedBy(ra, t, q) ensures p == q {
        ProviderUnique(source, cache, a, t, p, q);
      }
      EntryPermuted(ra, rb, t, Lookup(Groups(source, cache, a), t), Lookup(Groups(source, cache, b), t));
    }
  }

  /** Both orders of two objects in front of the rest. */
  lemma TwoInFront(objects: seq<Obj>, x: Obj, y: Obj) returns (rest: seq<Obj>)
    requires x in objects && y in objects && x != y
    ensures multiset([x, y] + rest) == multiset(objects) && multiset([y, x] + rest) == multiset(objects)
    ensures multiset(rest + [x, y]) == multiset(objects) && multiset(rest + [y, x]) == multiset(objects)
  {
    var others := Without(objects, x);
    assert y in multiset(objects);
    assert y in multiset(others);
    rest := Without(others, y);
    assert multiset(objects) == multiset{x, y} + multiset(rest);
    assert multiset([x, y]) == multiset{x, y} && multiset([y, x]) == multiset{x, y};
  }

  lemma Without(objects: seq<Obj>, x: Obj) returns (rest: seq<Obj>)
    requires x in objects
    ensures multiset(objects) == multiset{x} + multiset(rest)
  {
    var i :| 0 <= i < |objects| && objects[i] == x;
    RemoveAt(objects, i);
    rest := objects[..i] + objects[i + 1..];
    assert x in multiset(objects);
  }

  /** A parentless object that comes before the one with the parent is not placed below that parent; after it, it is. */
  lemma PlaceDepends(source: nat, cache: ParentCache, x: Obj, y: Obj, rest: seq<Obj>)
    requires Clashes(source, cache, x, y) && x.parent == None
    ensures Rounds(source, cache, [x, y] + rest)[0].place !in {Below(y.parent.value.tid), Deferred(y.parent.value.tid)}
    ensures Rounds(source, cache, [y, x] + rest)[1].place == Deferred(y.parent.value.tid)
  {
    hide ComposeKey;
    var a, b := [x, y] + rest, [y, x] + rest;
    assert a[..0] == [] && b[..1] == [y] && [y][..0] == [];
    assert RememberAll(source, cache, [y]) == Remember(source, cache, y);
  }

  lemma GroupsDiffer(source: nat, cache: ParentCache, objects: seq<Obj>, x: Obj, y: Obj)
    requires DistinctIds(objects) && x in objects && y in objects && Clashes(source, cache, x, y) && x.parent == None
    ensures OrderMatters(source, cache, objects)
  {
    hide ComposeKey, RememberAll, PlaceOf, Lookup, Groups, DistinctIds, TimesBelow, Opened, ProvidedBy, Clashes;
    ClashingPair(source, cache, x, y);
    var t := y.parent.value.tid;
    var rest := TwoInFront(objects, x, y);
    var a, b := [x, y] + rest, [y, x] + rest;
    var i :| 0 <= i < |objects| && objects[i] == x;
    OnlyOnce(objects, i);
    PlaceDepends(source, cache, x, y, rest);
    BelowOnce(source, cache, a, 0, t);
    BelowOnce(source, cache, b, 1, t);
    GroupsMean(source, cache, a);
    GroupsMean(source, cache, b);
    var ea, eb := Lookup(Groups(source, cache, a), t), Lookup(Groups(source, cache, b), t);
    assert EntryOk(Rounds(source, cache, a), multiset(Rounds(source, cache, a)), t, ea);
    assert EntryOk(Rounds(source, cache, b), multiset(Rounds(source, cache, b)), t, eb);
    assert multiset(ChildrenIn(ea))[x] == 0 && multiset(ChildrenIn(eb))[x] == 1;
    assert !SameEntry(ea, eb);
    assert !SameResult(source, cache, a, b);
  }

  lemma ClashingPair(source: nat, cache: ParentCache, x: Obj, y: Obj)
    requires Clashes(source, cache, x, y)
    ensures x != y && x.tid != UNTRACKED && Explicit(y)
  {
  }

  lemma CachesDiffer(source: nat, cache: ParentCache, objects: seq<Obj>, x: Obj, y: Obj)
    requires x in objects && y in objects && Clashes(source, cache, x, y) && x.parent.Some?
    ensures OrderMatters(source, cache, objects)
  {
    hide Groups, Lookup;
    var rest := TwoInFront(objects, x, y);
    var a, b := rest + [x, y], rest + [y, x];
    LastWriter(source, cache, rest + [x], y);
    LastWriter(source, cache, rest + [y], x);
    assert a == rest + [x] + [y] && b == rest + [y] + [x];
    assert !SameResult(source, cache, a, b);
  }

  lemma LastWriter(source: nat, cache: ParentCache, before: seq<Obj>, y: Obj)
    requires Explicit(y)
    ensures
      var after, key := RememberAll(source, cache, before + [y]), ComposeKey(source, y.tid);
      key in after && after[key] == y.parent.value.tid
  {
    assert (before + [y])[..|before|] == before;
  }

  /**
   * For distinct tracker ids the order of the metadata matters exactly when two objects clash: they share a
   * 48-bit key, one names a tracked parent, and the other is parentless (with something else in the cache) or
   * names another parent.
   */
  lemma OrderMattersIff(source: nat, cache: ParentCache, objects: seq<Obj>)
    requires DistinctIds(objects) && OneObjectPerId(objects)
    ensures OrderMatters(source, cache, objects) <==> Conflict(source, cache, objects)
  {
    hide SameResult, Clashes, DistinctIds, OneObjectPerId;
    if Conflict(source, cache, objects) {
      var x, y :| x in objects && y in objects && Clashes(source, cache, x, y);
      if x.parent == None {
        GroupsDiffer(source, cache, objects, x, y);
      } else {
        CachesDiffer(source, cache, objects, x, y);
      }
    } else {
      forall a, b | multiset(a) == multiset(objects) && multiset(b) == multiset(objects)
        ensures SameResult(source, cache, a, b)
      {
        SameMembers(a, objects);
        PermutedIds(objects, a);
        GroupingIgnoresOrder(source, cache, a, b);
      }
    }
  }

  lemma PermutedIds(a: seq<Obj>, b: seq<Obj>)
    requires OneObjectPerId(a) && forall x :: x in b ==> x in a
    ensures OneObjectPerId(b)
  {
  }

  /** A parentless object and one that names a parent, with ids that agree modulo 2^48: the groups differ. */
  lemma OrderMattersOnKeyCollision(source: nat)
    ensures
      var box := PixelBox(0, 0, 0, 0);
      var parent := Obj(7, "car", "", 0, box, None);
      var a, b := Obj(1, "car", "", 0, box, None), Obj(0x1_0000_0000_0001, "plate", "", 1, box, Some(parent));
      && a.tid != b.tid
      && Groups(source, map[], [a, b]) == [Group(Some(a), 1, []), Group(Some(parent), 7, [b])]
      && Groups(source, map[], [b, a]) == [Group(Some(parent), 7, [b, a])]
      && RememberAll(source, map[], [a, b]) == RememberAll(source, map[], [b, a])
         == map[ComposeKey(source, 1) := 7]
  {
    var box := PixelBox(0, 0, 0, 0);
    var parent := Obj(7, "car", "", 0, box, None);
    var a, b := Obj(1, "car", "", 0, box, None), Obj(0x1_0000_0000_0001, "plate", "", 1, box, Some(parent));
    CollidingRounds(source, a, b, parent);
    CollidingGroups(a, b, parent);
  }

  lemma CollidingRounds(source: nat, a: Obj, b: Obj, parent: Obj)
    requires a.tid == 1 && a.parent == None
    requires b.tid == 0x1_0000_0000_0001 && b.parent == Some(parent) && parent.tid == 7
    ensures Rounds(source, map[], [a, b]) == [Placed(a, Head), Placed(b, Below(7))]
    ensures Rounds(source, map[], [b, a]) == [Placed(b, Below(7)), Placed(a, Deferred(7))]
    ensures RememberAll(source, map[], [a, b]) == map[ComposeKey(source, 1) := 7]
    ensures RememberAll(source, map[], [b, a]) == map[ComposeKey(source, 1) := 7]
  {
    assert ComposeKey(source, b.tid) == ComposeKey(source, 1);
    hide ComposeKey;
    assert [a, b][..1] == [a] && [b, a][..1] == [b] && [a][..0] == [] && [b][..0] == [];
    assert RememberAll(source, map[], [a]) == map[];
    assert RememberAll(source, map[], [b]) == map[ComposeKey(source, 1) := 7];
  }

  lemma CollidingGroups(a: Obj, b: Obj, parent: Obj)
    requires a.tid == 1 && b.parent == Some(parent)
    ensures
      var placed := [Placed(a, Head), Placed(b, Below(7))];
      Attach(FirstLoop(placed), DeferredOf(placed)) == [Group(Some(a), 1, []), Group(Some(parent), 7, [b])]
    ensures
      var placed := [Placed(b, Below(7)), Placed(a, Deferred(7))];
      Attach(FirstLoop(placed), DeferredOf(placed)) == [Group(Some(parent), 7, [b, a])]
  {
    hide PlaceObject, Put, GroupFor, FirstLoop, DeferredOf, Attach;
    var heads, below, later := Placed(a, Head), Placed(b, Below(7)), Placed(a, Deferred(7));
    var first, second := Group(Some(a), 1, []), Group(Some(parent), 7, [b]);
    EmptyLoops();
    CollidingSteps(a, b, parent);
    LoopsPush([], heads);
    LoopsPush([heads], below);
    assert [] + [heads] == [heads] && [heads] + [below] == [heads, below];
    AttachNothing([first, second]);
    LoopsPush([], below);
    LoopsPush([below], later);
    assert [] + [below] == [below] && [below] + [later] == [below, later];
    NotPlacedYet([second], later);
    var alone: seq<(Obj, nat)> := [(a, 7)];
    assert [] + alone == alone && DeferredOf([below, later]) == alone;
    AttachOne([second], a, 7);
  }

  lemma CollidingSteps(a: Obj, b: Obj, parent: Obj)
    requires a.tid == 1 && b.parent == Some(parent)
    ensures
      var first, second := Group(Some(a), 1, []), Group(Some(parent), 7, [b]);
      && PlaceObject([], Placed(a, Head)) == [first]
      && PlaceObject([first], Placed(b, Below(7))) == [first, second]
      && PlaceObject([], Placed(b, Below(7))) == [second]
      && Put([second], WithChild(GroupFor([second], 7), a)) == [Group(Some(parent), 7, [b, a])]
  {
    var first, second := Group(Some(a), 1, []), Group(Some(parent), 7, [b]);
    assert [] + [b] == [b] && [b] + [a] == [b, a];
    assert [first][1..] == [];
    assert [second][1..] == [];
    assert Lookup([first], 7) == None;
    assert GroupFor([first], 7) == Group(None, 7, []);
    assert Put([], second) == [second] && Put([first], second) == [first] + [second] == [first, second];
    assert GroupFor([second], 7) == second;
  }

  lemma EmptyLoops()
    ensures FirstLoop([]) == [] && DeferredOf([]) == []
  {
  }

  lemma AttachNothing(groups: seq<Group>)
    ensures Attach(groups, []) == groups
  {
  }

  lemma AttachOne(groups: seq<Group>, x: Obj, t: nat)
    ensures Attach(groups, [(x, t)]) == Put(groups, WithChild(GroupFor(groups, t), x))
  {
    hide Put, GroupFor;
    assert [(x, t)][..0] == [];
    AttachNothing(groups);
  }

  lemma NotPlacedYet(groups: seq<Group>, p: Placed)
    requires p.place.Deferred?
    ensures PlaceObject(groups, p) == groups
  {
  }

  // ----- the group's label signature ------------------------------------------------------------------------------

  predicate Labelled(x: Obj) {
    x.tid != UNTRACKED && x.sgieLabels != ""
  }

  function LabelPart(x: Obj): string {
    IntText(x.tid) + "=" + x.sgieLabels
  }

  function LabelledOnly(children: seq<Obj>): seq<Obj> {
    if children == [] then []
    else
      LabelledOnly(children[..|children| - 1])
      + (if Labelled(children[|children| - 1]) then [children[|children| - 1]] else [])
  }

  function GroupSignature(parent: Option<Obj>, children: seq<Obj>): string {
    var own := if parent.Some? then parent.value.sgieLabels else "";
    var aggregate := Join(Sort(Map(LabelPart, LabelledOnly(children))), '|');
    if aggregate == "" then own else own + "||" + aggregate
  }

  method BuildGroupSgieSignature(group: Group) returns (signature: string)
    ensures signature == GroupSignature(group.parent, group.children)
  {
    hide LabelPart, Sort, Join;
    var parts: seq<string> := [];
    ghost var labelled: seq<Obj> := [];
    for i := 0 to |group.children|
      invariant labelled == LabelledOnly(group.children[..i]) && parts == Map(LabelPart, labelled)
    {
      var child := group.children[i];
      assert group.children[..i + 1][..i] == group.children[..i];
      if child.tid == UNTRACKED {
        continue;
      }
      if child.sgieLabels != "" {
        parts := parts + [LabelPart(child)];
        labelled := labelled + [child];
      }
    }
    assert group.children[..|group.children|] == group.children;
    var aggregate := Join(Sort(parts), '|');
    signature := if group.parent.Some? then group.parent.value.sgieLabels else "";
    if aggregate != "" {
      signature := signature + "||" + aggregate;
    }
  }

  lemma {:induction false} LabelledCount(children: seq<Obj>, x: Obj)
    ensures multiset(LabelledOnly(children))[x] == if Labelled(x) then multiset(children)[x] else 0
  {
    hide Labelled;
    if children != [] {
      LabelledCount(children[..|children| - 1], x);
      CountPush(children[..|children| - 1], children[|children| - 1]);
      assert children == children[..|children| - 1] + [children[|children| - 1]];
      CountPush(LabelledOnly(children[..|children| - 1]), children[|children| - 1]);
    }
  }

  /** The signature that drives the parent's decision depends only on the multiset of children. */
  lemma SignatureIgnoresOrder(parent: Option<Obj>, c: seq<Obj>, d: seq<Obj>)
    requires multiset(c) == multiset(d)
    ensures GroupSignature(parent, c) == GroupSignature(parent, d)
  {
    hide LabelPart, Join, Sort, LabelledOnly;
    forall x ensures multiset(LabelledOnly(c))[x] == multiset(LabelledOnly(d))[x] {
      LabelledCount(c, x);
      LabelledCount(d, x);
    }
    MapPermuted(LabelPart, LabelledOnly(c), LabelledOnly(d));
    SortCanonical(Map(LabelPart, LabelledOnly(c)), Map(LabelPart, LabelledOnly(d)));
  }
}
