/** What the grouping of a frame means, read off its metadata: keys, remembered parents, placement, signature. */
module GroupMeaning {
  import opened Options
  import opened TextOrder
  import opened ObjectGroups

  // ----- keys ------------------------------------------------------------------------------------

  /** The key of an object identifies its source modulo 2^16 and its tracker id modulo 2^48, and nothing else. */
  lemma ComposeKeyExact(source: nat, tid: nat, other: nat, id: nat)
    ensures ComposeKey(source, tid) == ComposeKey(other, id) <==>
      source % 0x1_0000 == other % 0x1_0000 && tid % 0x1_0000_0000_0000 == id % 0x1_0000_0000_0000
  {
    DigitsUnique(source % 0x1_0000, tid % 0x1_0000_0000_0000, other % 0x1_0000, id % 0x1_0000_0000_0000);
  }

  lemma DigitsUnique(a: nat, b: nat, c: nat, d: nat)
    requires b < 0x1_0000_0000_0000 && d < 0x1_0000_0000_0000
    ensures a * 0x1_0000_0000_0000 + b == c * 0x1_0000_0000_0000 + d <==> a == c && b == d
  {
  }

  // ----- the remembered parents --------------------------------------------------------------------

  /** The object is tracked and points to a tracked parent. */
  ghost predicate PointsTo(x: Obj, p: Obj) {
    x.parent == Some(p) && x.tid != UNTRACKED && p.tid != UNTRACKED
  }

  /** Object `i` is the last one of the frame with this key that points to a tracked parent. */
  ghost predicate LastPointer(source: nat, objects: seq<Obj>, key: nat, i: nat) {
    && i < |objects| && ComposeKey(source, objects[i].tid) == key && objects[i].parent.Some?
    && PointsTo(objects[i], objects[i].parent.value)
    && forall j, p :: i < j < |objects| && PointsTo(objects[j], p) ==> ComposeKey(source, objects[j].tid) != key
  }

  /** After a frame the cache holds the parent that the last pointing object with the key named, else what it held. */
  lemma {:induction false} CacheMeans(source: nat, cache: ParentCache, objects: seq<Obj>, key: nat)
    ensures
      var after := RememberAll(source, cache, objects);
      if i: nat :| LastPointer(source, objects, key, i) then
        key in after && after[key] == objects[i].parent.value.tid
      else (key in after <==> key in cache) && (key in after ==> after[key] == cache[key])
  {
    hide ComposeKey;
    if objects != [] {
      var n := |objects| - 1;
      var front, x := objects[..n], objects[n];
      CacheMeans(source, cache, front, key);
      if x.parent.Some? && PointsTo(x, x.parent.value) && ComposeKey(source, x.tid) == key {
        assert LastPointer(source, objects, key, n);
      } else {
        forall i: nat ensures LastPointer(source, objects, key, i) <==> LastPointer(source, front, key, i) {
          PointerStays(source, objects, key, i);
        }
      }
      forall i: nat, j: nat | LastPointer(source, objects, key, i) && LastPointer(source, objects, key, j)
        ensures i == j
      {
      }
    }
  }

  lemma PointerStays(source: nat, objects: seq<Obj>, key: nat, i: nat)
    requires objects != []
    requires
      var x := objects[|objects| - 1];
      !(x.parent.Some? && PointsTo(x, x.parent.value) && ComposeKey(source, x.tid) == key)
    ensures LastPointer(source, objects, key, i) <==> LastPointer(source, objects[..|objects| - 1], key, i)
  {
    hide ComposeKey;
    var front := objects[..|objects| - 1];
    if LastPointer(source, front, key, i) {
      forall j, p | i < j < |objects| && PointsTo(objects[j], p) ensures ComposeKey(source, objects[j].tid) != key {
        assert j < |front| ==> front[j] == objects[j];
      }
    }
    if LastPointer(source, objects, key, i) {
      forall j, p | i < j < |front| && PointsTo(front[j], p) ensures ComposeKey(source, front[j].tid) != key {
        assert front[j] == objects[j];
      }
    }
  }

  // ----- placement ---------------------------------------------------------------------------------

  /** How often the object is a child of the group of `t`. */
  ghost function TimesIn(groups: seq<Group>, t: nat, x: Obj): nat {
    if Lookup(groups, t).Some? then multiset(Lookup(groups, t).value.children)[x] else 0
  }

  /**
   * Where an object of a frame with distinct ids ends up. One that points to a tracked parent is a child of that
   * parent's group, which has a parent object. A parentless one is a child of the group its key was last attached
   * to, if the cache knows one at its turn, and otherwise the head of its own group. An untracked object, or one
   * whose parent is untracked, is in no group.
   */
  lemma PlacedByParent(source: nat, cache: ParentCache, objects: seq<Obj>, i: nat, t: nat)
    requires DistinctIds(objects) && OneObjectPerId(objects) && i < |objects|
    ensures
      var x, groups := objects[i], Groups(source, cache, objects);
      var known, key := RememberAll(source, cache, objects[..i]), ComposeKey(source, x.tid);
      if x.tid == UNTRACKED then TimesIn(groups, t, x) == 0
      else
        match x.parent
        case Some(p) =>
          && TimesIn(groups, t, x) == (if p.tid != UNTRACKED && t == p.tid then 1 else 0)
          && (p.tid != UNTRACKED && t == p.tid ==> Lookup(groups, t).Some? && Lookup(groups, t).value.parent.Some?)
        case None =>
          if key in known then TimesIn(groups, t, x) == if t == known[key] then 1 else 0
          else
            && TimesIn(groups, t, x) == 0
            && (t == x.tid ==> Lookup(groups, t).Some? && Lookup(groups, t).value.parent == Some(x))
  {
    hide ComposeKey, RememberAll, Lookup, DistinctIds, OneObjectPerId, Groups;
    var x, placed := objects[i], Rounds(source, cache, objects);
    GroupsMean(source, cache, objects);
    assert EntryOk(placed, multiset(placed), t, Lookup(Groups(source, cache, objects), t));
    if placed[i].place == Ignored {
      IgnoredIsNowhere(source, cache, objects, i, t);
    } else {
      PlacedOnce(source, cache, objects, i, t);
      if placed[i].place == Below(t) {
        assert Opens(placed[i], t);
      }
    }
  }

  lemma IgnoredIsNowhere(source: nat, cache: ParentCache, objects: seq<Obj>, i: nat, t: nat)
    requires i < |objects| && Rounds(source, cache, objects)[i].place == Ignored
    ensures TimesIn(Groups(source, cache, objects), t, objects[i]) == 0
  {
    hide ComposeKey, RememberAll, Lookup, Groups;
    var x, placed := objects[i], Rounds(source, cache, objects);
    GroupsMean(source, cache, objects);
    assert EntryOk(placed, multiset(placed), t, Lookup(Groups(source, cache, objects), t));
    forall k | 0 <= k < |placed| && placed[k].x == x ensures placed[k].place == Ignored {
    }
    assert Placed(x, Below(t)) !in placed && Placed(x, Deferred(t)) !in placed;
    assert TimesBelow(multiset(placed), t, x) == 0;
  }

  // ----- order -------------------------------------------------------------------------------------

  /** The objects that name `t` as parent, in metadata order. */
  ghost function DirectChildren(placed: seq<Placed>, t: nat): seq<Obj> {
    if placed == [] then []
    else
      var last := placed[|placed| - 1];
      DirectChildren(placed[..|placed| - 1], t) + (if last.place == Below(t) then [last.x] else [])
  }

  /** The parentless objects that the cache puts below `t`, in metadata order. */
  ghost function RememberedChildren(placed: seq<Placed>, t: nat): seq<Obj> {
    if placed == [] then []
    else
      var last := placed[|placed| - 1];
      RememberedChildren(placed[..|placed| - 1], t) + (if last.place == Deferred(t) then [last.x] else [])
  }

  ghost function ChildrenOf(groups: seq<Group>, t: nat): seq<Obj> {
    if Lookup(groups, t).Some? then Lookup(groups, t).value.children else []
  }

  lemma {:induction false} DirectInOrder(placed: seq<Placed>, t: nat)
    ensures ChildrenOf(FirstLoop(placed), t) == DirectChildren(placed, t)
  {
    hide Lookup, Put;
    if placed == [] {
      NoGroups(t);
    } else {
      var front, last := placed[..|placed| - 1], placed[|placed| - 1];
      DirectInOrder(front, t);
      var groups := FirstLoop(front);
      match last.place
      case Head =>
        GroupForTid(groups, last.x.tid);
        PutChildren(groups, WithParent(GroupFor(groups, last.x.tid), last.x), t);
      case Below(u) =>
        GroupForTid(groups, u);
        PutChildren(groups, WithChild(WithParent(GroupFor(groups, u), Provided(last)), last.x), t);
      case _ =>
    }
  }

  lemma NoGroups(t: nat)
    ensures Lookup([], t) == None
  {
  }

  lemma PutChildren(groups: seq<Group>, g: Group, t: nat)
    ensures ChildrenOf(Put(groups, g), t) == if t == g.parentTid then g.children else ChildrenOf(groups, t)
    ensures GroupFor(groups, t).children == ChildrenOf(groups, t) && GroupFor(groups, t).parentTid == t
  {
    hide Lookup, Put;
    LookupPut(groups, g, t);
    GroupForTid(groups, t);
  }

  lemma {:induction false} AttachedInOrder(groups: seq<Group>, deferred: seq<(Obj, nat)>, t: nat)
    ensures ChildrenOf(Attach(groups, deferred), t) == ChildrenOf(groups, t) + AttachedTo(deferred, t)
  {
    hide Lookup, Put, GroupFor;
    if deferred != [] {
      var front, last := deferred[..|deferred| - 1], deferred[|deferred| - 1];
      AttachedInOrder(groups, front, t);
      var before := Attach(groups, front);
      var g := WithChild(GroupFor(before, last.1), last.0);
      PutChildren(before, g, t);
      PutChildren(before, g, last.1);
    }
  }

  ghost function AttachedTo(deferred: seq<(Obj, nat)>, t: nat): seq<Obj> {
    if deferred == [] then []
    else
      var last := deferred[|deferred| - 1];
      AttachedTo(deferred[..|deferred| - 1], t) + (if last.1 == t then [last.0] else [])
  }

  lemma {:induction false} RememberedAreDeferred(placed: seq<Placed>, t: nat)
    ensures AttachedTo(DeferredOf(placed), t) == RememberedChildren(placed, t)
  {
    if placed != [] {
      var front, last := placed[..|placed| - 1], placed[|placed| - 1];
      RememberedAreDeferred(front, t);
      if last.place.Deferred? {
        var all, pair := DeferredOf(placed), (last.x, last.place.parentTid);
        assert all == DeferredOf(front) + [pair];
        assert all[..|all| - 1] == DeferredOf(front);
      } else {
        assert DeferredOf(placed) == DeferredOf(front);
      }
    }
  }

  /** Children come in metadata order: first those that name the parent, then those the cache puts below it. */
  lemma ChildrenInOrder(source: nat, cache: ParentCache, objects: seq<Obj>, t: nat)
    ensures
      var placed := Rounds(source, cache, objects);
      ChildrenOf(Groups(source, cache, objects), t) == DirectChildren(placed, t) + RememberedChildren(placed, t)
  {
    hide Lookup, Put, Rounds, FirstLoop, Attach, DeferredOf;
    var placed := Rounds(source, cache, objects);
    DirectInOrder(placed, t);
    AttachedInOrder(FirstLoop(placed), DeferredOf(placed), t);
    RememberedAreDeferred(placed, t);
  }

  /** The ids of the groups in order. */
  ghost function TidsOf(groups: seq<Group>): (r: seq<nat>)
    ensures |r| == |groups| && forall k :: 0 <= k < |r| ==> r[k] == groups[k].parentTid
  {
    seq(|groups|, k requires 0 <= k < |groups| => groups[k].parentTid)
  }

  ghost function Once(tids: seq<nat>, t: nat): seq<nat> {
    if t in tids then tids else tids + [t]
  }

  /** Group ids in the order in which objects of the frame first ask for them. */
  ghost function AskedFor(placed: seq<Placed>): seq<nat> {
    if placed == [] then []
    else
      var before, last := AskedFor(placed[..|placed| - 1]), placed[|placed| - 1];
      match last.place
      case Head => Once(before, last.x.tid)
      case Below(t) => Once(before, t)
      case _ => before
  }

  /** And those that only remembered parents ask for, after them. */
  ghost function AskedLater(tids: seq<nat>, deferred: seq<(Obj, nat)>): seq<nat> {
    if deferred == [] then tids else Once(AskedLater(tids, deferred[..|deferred| - 1]), deferred[|deferred| - 1].1)
  }

  lemma TidsCons(g: Group, rest: seq<Group>)
    ensures TidsOf([g] + rest) == [g.parentTid] + TidsOf(rest) && TidsOf([]) == []
  {
  }

  lemma OnceCons(x: nat, rest: seq<nat>, t: nat)
    requires x != t
    ensures Once([x] + rest, t) == [x] + Once(rest, t)
  {
    assert t in [x] + rest <==> t in rest;
    assert [x] + rest + [t] == [x] + (rest + [t]);
  }

  lemma {:induction false} PutTids(groups: seq<Group>, g: Group)
    ensures TidsOf(Put(groups, g)) == Once(TidsOf(groups), g.parentTid)
  {
    hide TidsOf, Once;
    if groups == [] {
      TidsCons(g, []);
      assert [g] + [] == [g];
      FirstOnce(g.parentTid);
    } else {
      var first, rest := groups[0], groups[1..];
      assert groups == [first] + rest;
      TidsCons(first, rest);
      if first.parentTid == g.parentTid {
        TidsCons(g, rest);
        AlreadyOnce(TidsOf(groups), g.parentTid);
      } else {
        PutTids(rest, g);
        TidsCons(first, Put(rest, g));
        OnceCons(first.parentTid, TidsOf(rest), g.parentTid);
      }
    }
  }

  lemma FirstOnce(t: nat)
    ensures Once([], t) == [t] && [t] + [] == [t]
  {
  }

  lemma AlreadyOnce(tids: seq<nat>, t: nat)
    requires tids != [] && tids[0] == t
    ensures Once(tids, t) == tids
  {
  }

  lemma {:induction false} FirstLoopTids(placed: seq<Placed>)
    ensures TidsOf(FirstLoop(placed)) == AskedFor(placed)
  {
    hide Lookup, Put;
    if placed != [] {
      var front, last := placed[..|placed| - 1], placed[|placed| - 1];
      FirstLoopTids(front);
      var groups := FirstLoop(front);
      match last.place
      case Head =>
        GroupForTid(groups, last.x.tid);
        PutTids(groups, WithParent(GroupFor(groups, last.x.tid), last.x));
      case Below(u) =>
        GroupForTid(groups, u);
        PutTids(groups, WithChild(WithParent(GroupFor(groups, u), Provided(last)), last.x));
      case _ =>
    }
  }

  lemma {:induction false} AttachTids(groups: seq<Group>, deferred: seq<(Obj, nat)>)
    ensures TidsOf(Attach(groups, deferred)) == AskedLater(TidsOf(groups), deferred)
  {
    hide Lookup, Put;
    if deferred != [] {
      var front, last := deferred[..|deferred| - 1], deferred[|deferred| - 1];
      AttachTids(groups, front);
      var before := Attach(groups, front);
      GroupForTid(before, last.1);
      PutTids(before, WithChild(GroupFor(before, last.1), last.0));
    }
  }

  /** Groups stand in the order in which they are first asked for, those of remembered parents last. */
  lemma GroupsInOrder(source: nat, cache: ParentCache, objects: seq<Obj>)
    ensures
      var placed := Rounds(source, cache, objects);
      TidsOf(Groups(source, cache, objects)) == AskedLater(AskedFor(placed), DeferredOf(placed))
  {
    hide Rounds, FirstLoop, Attach, DeferredOf, TidsOf;
    var placed := Rounds(source, cache, objects);
    FirstLoopTids(placed);
    AttachTids(FirstLoop(placed), DeferredOf(placed));
  }

  // ----- the group's label signature ---------------------------------------------------------------

  /** How many children with this id show these labels. */
  ghost function Showing(children: seq<Obj>, tid: nat, labels: string): nat {
    if children == [] then 0
    else
      var last := children[|children| - 1];
      Showing(children[..|children| - 1], tid, labels) + (if last.tid == tid && last.sgieLabels == labels then 1 else 0)
  }

  ghost function OwnLabels(parent: Option<Obj>): string {
    if parent.Some? then parent.value.sgieLabels else ""
  }

  /** Label texts without the character that separates id and labels. */
  ghost predicate Undisguised(parent: Option<Obj>, children: seq<Obj>) {
    '=' !in OwnLabels(parent) && forall k :: 0 <= k < |children| ==> '=' !in children[k].sgieLabels
  }

  function PartOf(tag: (nat, string)): string {
    IntText(tag.0) + "=" + tag.1
  }

  function TagOf(x: Obj): (nat, string) {
    (x.tid, x.sgieLabels)
  }

  ghost function TagsOf(children: seq<Obj>): seq<(nat, string)> {
    Map(TagOf, LabelledOnly(children))
  }

  ghost predicate Splittable(part: string, key: string, value: string) {
    part == key + ['='] + value && '=' !in key && '|' !in key && '=' !in value
  }

  ghost predicate IsKeyed(part: string) {
    exists key, value :: Splittable(part, key, value)
  }

  ghost predicate AllSplittable(parts: seq<string>) {
    forall k :: 0 <= k < |parts| ==> IsKeyed(parts[k])
  }

  lemma RestSplittable(parts: seq<string>)
    requires parts != [] && AllSplittable(parts)
    ensures IsKeyed(parts[0]) && AllSplittable(parts[1..])
  {
    hide IsKeyed;
  }

  /** The joined parts after the first '='. */
  ghost function TextAfter(parts: seq<string>, value: string): string {
    if |parts| <= 1 then value else value + ['|'] + Join(parts[1..], '|')
  }

  lemma AfterEquals(parts: seq<string>, key: string, value: string)
    requires parts != [] && Splittable(parts[0], key, value)
    ensures Join(parts, '|') == key + ['='] + TextAfter(parts, value)
  {
    if |parts| > 1 {
      assert parts[0] + ['|'] + Join(parts[1..], '|') == key + ['='] + TextAfter(parts, value);
    }
  }

  lemma LaterEquals(parts: seq<string>, value: string)
    requires parts != [] && AllSplittable(parts) && '=' !in value
    ensures '=' in TextAfter(parts, value) <==> |parts| > 1
  {
    if |parts| > 1 {
      var k, v :| Splittable(parts[1], k, v);
      AfterEquals(parts[1..], k, v);
      var rest := TextAfter(parts, value);
      assert rest == value + ['|'] + k + ['='] + TextAfter(parts[1..], v);
      assert rest[|value| + 1 + |k|] == '=';
    }
  }

  /** The first parts agree, and either both lists end there or both go on with the same text. */
  lemma KeyedHeads(a: seq<string>, b: seq<string>, k: string, v: string, l: string, w: string)
    requires a != [] && b != [] && AllSplittable(a) && AllSplittable(b)
    requires Splittable(a[0], k, v) && Splittable(b[0], l, w)
    requires Join(a, '|') == Join(b, '|')
    ensures k == l && (|a| == 1 <==> |b| == 1) && TextAfter(a, v) == TextAfter(b, w)
  {
    AfterEquals(a, k, v);
    AfterEquals(b, l, w);
    LaterEquals(a, v);
    LaterEquals(b, w);
    hide Join, AllSplittable, TextAfter;
    SplitFirst(k, TextAfter(a, v), l, TextAfter(b, w), '=');
  }

  lemma KeyedTails(a: seq<string>, b: seq<string>, v: string, w: string)
    requires |a| > 1 && |b| > 1 && AllSplittable(a) && AllSplittable(b) && '=' !in v && '=' !in w
    requires TextAfter(a, v) == TextAfter(b, w)
    ensures v == w && Join(a[1..], '|') == Join(b[1..], '|')
  {
    var m, x :| Splittable(a[1], m, x);
    var n, y :| Splittable(b[1], n, y);
    var c, d := TextAfter(a[1..], x), TextAfter(b[1..], y);
    AfterEquals(a[1..], m, x);
    AfterEquals(b[1..], n, y);
    TwoSplits(v, m, c, w, n, d);
  }

  lemma TwoSplits(v: string, m: string, c: string, w: string, n: string, d: string)
    requires '=' !in v && '=' !in w && '=' !in m && '=' !in n && '|' !in m && '|' !in n
    requires v + ['|'] + (m + ['='] + c) == w + ['|'] + (n + ['='] + d)
    ensures v == w && m == n && c == d
  {
    var g, h := v + ['|'] + m, w + ['|'] + n;
    assert v + ['|'] + (m + ['='] + c) == g + ['='] + c && w + ['|'] + (n + ['='] + d) == h + ['='] + d;
    SplitFirst(g, c, h, d, '=');
    SplitLast(v, m, w, n, '|');
  }

  /** Joined parts of the form key=value determine the parts, although values may contain the separator. */
  lemma {:induction false} KeyedJoinInjective(a: seq<string>, b: seq<string>)
    requires a != [] && b != [] && AllSplittable(a) && AllSplittable(b)
    requires Join(a, '|') == Join(b, '|')
    ensures a == b
    decreases |a|
  {
    hide Join;
    RestSplittable(a);
    RestSplittable(b);
    var k, v :| Splittable(a[0], k, v);
    var l, w :| Splittable(b[0], l, w);
    KeyedHeads(a, b, k, v, l, w);
    if |a| == 1 {
      assert a == [a[0]] && b == [b[0]];
    } else {
      KeyedTails(a, b, v, w);
      KeyedJoinInjective(a[1..], b[1..]);
      assert a == [a[0]] + a[1..] && b == [b[0]] + b[1..];
    }
  }

  lemma PartSplits(tag: (nat, string))
    requires '=' !in tag.1
    ensures Splittable(PartOf(tag), IntText(tag.0), tag.1)
  {
    IntTextAvoids(tag.0, '=');
    IntTextAvoids(tag.0, '|');
    hide IntText;
  }

  lemma PartDetermines(a: (nat, string), b: (nat, string))
    requires PartOf(a) == PartOf(b)
    ensures a == b
  {
    IntTextAvoids(a.0, '=');
    IntTextAvoids(b.0, '=');
    hide IntText;
    SplitFirst(IntText(a.0), a.1, IntText(b.0), b.1, '=');
    IntTextInjective(a.0, b.0);
  }

  lemma PartInjective()
    ensures forall a, b :: PartOf(a) == PartOf(b) ==> a == b
  {
    hide PartOf;
    forall a, b | PartOf(a) == PartOf(b) ensures a == b {
      PartDetermines(a, b);
    }
  }

  lemma PartsOfTags(children: seq<Obj>)
    ensures Map(LabelPart, LabelledOnly(children)) == Map(PartOf, TagsOf(children))
  {
    hide LabelledOnly, IntText;
  }

  lemma {:induction false} TagCount(children: seq<Obj>, tag: (nat, string))
    ensures multiset(TagsOf(children))[tag]
      == if tag.0 != UNTRACKED && tag.1 != "" then Showing(children, tag.0, tag.1) else 0
  {
    if children != [] {
      var front, last := children[..|children| - 1], children[|children| - 1];
      TagCount(front, tag);
      assert TagsOf(children) == TagsOf(front) + if Labelled(last) then [TagOf(last)] else [];
    }
  }

  /** For every tracked id and nonempty label text, as many children show it. */
  ghost predicate ShowSame(c: seq<Obj>, d: seq<Obj>) {
    forall t: nat, l: string :: t != UNTRACKED && l != "" ==> Showing(c, t, l) == Showing(d, t, l)
  }

  lemma SameShowing(c: seq<Obj>, d: seq<Obj>)
    ensures multiset(TagsOf(c)) == multiset(TagsOf(d)) <==> ShowSame(c, d)
  {
    hide TagsOf, Showing;
    if ShowSame(c, d) {
      forall tag: (nat, string) ensures multiset(TagsOf(c))[tag] == multiset(TagsOf(d))[tag] {
        TagCount(c, tag);
        TagCount(d, tag);
      }
    }
    if multiset(TagsOf(c)) == multiset(TagsOf(d)) {
      forall t: nat, l: string | t != UNTRACKED && l != "" ensures Showing(c, t, l) == Showing(d, t, l) {
        TagCount(c, (t, l));
        TagCount(d, (t, l));
      }
    }
  }

  /** The aggregated part of the signature. */
  ghost function Aggregate(children: seq<Obj>): string {
    Join(Sort(Map(PartOf, TagsOf(children))), '|')
  }

  lemma SortedParts(tags: seq<(nat, string)>)
    requires forall k :: 0 <= k < |tags| ==> '=' !in tags[k].1
    ensures AllSplittable(Sort(Map(PartOf, tags))) && |Sort(Map(PartOf, tags))| == |tags|
  {
    hide PartOf, Splittable, Sort;
    var parts := Map(PartOf, tags);
    var sorted := Sort(parts);
    assert |multiset(sorted)| == |sorted| && |multiset(parts)| == |parts|;
    forall k | 0 <= k < |sorted| ensures IsKeyed(sorted[k]) {
      assert sorted[k] in multiset(parts);
      var m :| 0 <= m < |parts| && parts[m] == sorted[k];
      PartSplits(tags[m]);
      assert Splittable(sorted[k], IntText(tags[m].0), tags[m].1);
    }
  }

  lemma AggregateExact(c: seq<Obj>, d: seq<Obj>)
    requires forall k :: 0 <= k < |TagsOf(c)| ==> '=' !in TagsOf(c)[k].1
    requires forall k :: 0 <= k < |TagsOf(d)| ==> '=' !in TagsOf(d)[k].1
    ensures Aggregate(c) == Aggregate(d) <==> multiset(TagsOf(c)) == multiset(TagsOf(d))
    ensures (Aggregate(c) == "" <==> TagsOf(c) == []) && (TagsOf(c) != [] ==> HasKey(Aggregate(c)))
  {
    hide PartOf, Sort, TagsOf;
    var a, b := Map(PartOf, TagsOf(c)), Map(PartOf, TagsOf(d));
    SortedParts(TagsOf(c));
    SortedParts(TagsOf(d));
    SortCanonical(a, b);
    PartInjective();
    MapMultiset(PartOf, TagsOf(c), TagsOf(d));
    KeyFirst(Sort(a));
    KeyFirst(Sort(b));
    if Aggregate(c) == Aggregate(d) && TagsOf(c) != [] {
      KeyedJoinInjective(Sort(a), Sort(b));
    }
  }

  /** Starts with a key free of the separator, followed by '='. */
  ghost predicate HasKey(text: string) {
    exists key, rest :: text == key + ['='] + rest && '=' !in key && '|' !in key
  }

  lemma KeyFirst(parts: seq<string>)
    requires AllSplittable(parts)
    ensures (Join(parts, '|') == "" <==> parts == []) && (parts != [] ==> HasKey(Join(parts, '|')))
  {
    if parts != [] {
      var k, v :| Splittable(parts[0], k, v);
      AfterEquals(parts, k, v);
    }
  }

  lemma TagsUndisguised(children: seq<Obj>)
    requires forall k :: 0 <= k < |children| ==> '=' !in children[k].sgieLabels
    ensures forall k :: 0 <= k < |TagsOf(children)| ==> '=' !in TagsOf(children)[k].1
  {
    if children != [] {
      var front, last := children[..|children| - 1], children[|children| - 1];
      TagsUndisguised(front);
      assert TagsOf(children) == TagsOf(front) + if Labelled(last) then [TagOf(last)] else [];
    }
  }

  lemma EqualsInside(own: string, a: string)
    requires HasKey(a)
    ensures '=' in own + "||" + a
  {
    var k, r :| a == k + ['='] + r && '=' !in k && '|' !in k;
    assert (own + "||" + a)[|own| + 2 + |k|] == '=';
  }

  lemma BothAggregated(own: string, a: string, other: string, b: string)
    requires HasKey(a) && HasKey(b) && '=' !in own && '=' !in other && own + "||" + a == other + "||" + b
    ensures own == other && a == b
  {
    var k, r :| a == k + ['='] + r && '=' !in k && '|' !in k;
    var l, s :| b == l + ['='] + s && '=' !in l && '|' !in l;
    var g, h := own + ['|'] + ['|'] + k, other + ['|'] + ['|'] + l;
    assert own + "||" + a == g + ['='] + r && other + "||" + b == h + ['='] + s;
    SplitFirst(g, r, h, s, '=');
    SplitLast(own + ['|'], k, other + ['|'], l, '|');
    assert own == (own + ['|'])[..|own|] && other == (other + ['|'])[..|other|];
  }

  /** Own labels and aggregate can be read off the signature. */
  lemma TwoParts(own: string, a: string, other: string, b: string)
    requires '=' !in own && '=' !in other && (a == "" || HasKey(a)) && (b == "" || HasKey(b))
    requires (if a == "" then own else own + "||" + a) == (if b == "" then other else other + "||" + b)
    ensures own == other && a == b
  {
    hide HasKey;
    if a != "" {
      EqualsInside(own, a);
    }
    if b != "" {
      EqualsInside(other, b);
    }
    if a != "" && b != "" {
      BothAggregated(own, a, other, b);
    }
  }

  /**
   * The signature that drives the parent's decision shows every change of labels: two groups have the same one
   * exactly when the parent shows the same labels and, for every tracked id and nonempty label text, as many
   * children do, provided no label text contains '='.
   */
  lemma GroupSignatureExact(p: Option<Obj>, c: seq<Obj>, q: Option<Obj>, d: seq<Obj>)
    requires Undisguised(p, c) && Undisguised(q, d)
    ensures GroupSignature(p, c) == GroupSignature(q, d) <==>
      OwnLabels(p) == OwnLabels(q) && ShowSame(c, d)
  {
    hide Sort, Join, Map, TagsOf, Aggregate, HasKey, ShowSame, LabelledOnly, GroupSignature;
    TagsUndisguised(c);
    TagsUndisguised(d);
    AggregateExact(c, d);
    AggregateExact(d, c);
    SameShowing(c, d);
    SignatureText(p, c);
    SignatureText(q, d);
    if GroupSignature(p, c) == GroupSignature(q, d) {
      TwoParts(OwnLabels(p), Aggregate(c), OwnLabels(q), Aggregate(d));
    }
  }

  lemma SignatureText(p: Option<Obj>, c: seq<Obj>)
    ensures GroupSignature(p, c)
      == if Aggregate(c) == "" then OwnLabels(p) else OwnLabels(p) + "||" + Aggregate(c)
  {
    hide Sort, Join, TagsOf, LabelledOnly;
    PartsOfTags(c);
  }
}
