/** The dedupe ledger of recently encoded refs (evidence_request_service.cpp). */
module RecentRefs {
  import opened SuffixWindow

  /** `limit` is max_recent_encoded_refs, `ttl` is encode_dedupe_ttl_ms. */
  datatype Config = Config(ttl: int, limit: int)

  datatype Ledger = Ledger(refs: map<string, int>, order: seq<string>)

  const EMPTY := Ledger(map[], [])

  datatype Mark = Mark(key: string, at: int)

  function MarkedAt(m: Mark): int {
    m.at
  }

  // ----- the operations as functions of the ledger -------------------------------------------------

  function Prune(cfg: Config, l: Ledger, now: int): Ledger
    decreases |l.order|
  {
    if l.order == [] then l
    else
      var oldest := l.order[0];
      if oldest !in l.refs then Prune(cfg, Ledger(l.refs, l.order[1..]), now)
      else if now - l.refs[oldest] > cfg.ttl || (cfg.limit > 0 && |l.refs| > cfg.limit) then
        Prune(cfg, Ledger(l.refs - {oldest}, l.order[1..]), now)
      else l
  }

  function AfterTest(cfg: Config, l: Ledger, now: int): Ledger {
    if cfg.ttl <= 0 then l else Prune(cfg, l, now)
  }

  function TestsRecent(cfg: Config, l: Ledger, key: string, now: int): bool {
    && cfg.ttl > 0
    && (var p := Prune(cfg, l, now); key in p.refs && now - p.refs[key] <= cfg.ttl)
  }

  function AfterMark(cfg: Config, l: Ledger, m: Mark): Ledger {
    if cfg.ttl <= 0 then l
    else
      var p := Prune(cfg, l, m.at);
      var order := if m.key in p.refs then p.order else p.order + [m.key];
      Prune(cfg, Ledger(p.refs[m.key := m.at], order), m.at)
  }

  // ----- runs of tests and marks -------------------------------------------------------------------

  datatype Op = TestOp(key: string, now: int) | MarkOp(mark: Mark)

  function TimeOf(op: Op): int {
    match op
    case TestOp(_, now) => now
    case MarkOp(m) => m.at
  }

  function Apply(cfg: Config, l: Ledger, op: Op): Ledger {
    match op
    case TestOp(_, now) => AfterTest(cfg, l, now)
    case MarkOp(m) => AfterMark(cfg, l, m)
  }

  function Run(cfg: Config, ops: seq<Op>): Ledger {
    if ops == [] then EMPTY else Apply(cfg, Run(cfg, ops[..|ops| - 1]), ops[|ops| - 1])
  }

  ghost function Marks(ops: seq<Op>): seq<Mark> {
    if ops == [] then []
    else Marks(ops[..|ops| - 1]) + (if ops[|ops| - 1].MarkOp? then [ops[|ops| - 1].mark] else [])
  }

  ghost predicate Monotone(ops: seq<Op>) {
    forall i, j :: 0 <= i < j < |ops| ==> TimeOf(ops[i]) <= TimeOf(ops[j])
  }

  /** A mark directly follows a test of the same key that said "not recent": encode only after a miss. */
  ghost predicate Disciplined(cfg: Config, ops: seq<Op>) {
    forall j :: 0 <= j < |ops| && ops[j].MarkOp? ==> AfterMiss(cfg, ops, j)
  }

  ghost predicate AfterMiss(cfg: Config, ops: seq<Op>, j: nat)
    requires j < |ops| && ops[j].MarkOp?
  {
    && j > 0 && ops[j - 1].TestOp? && ops[j - 1].key == ops[j].mark.key
    && !TestsRecent(cfg, Run(cfg, ops[..j - 1]), ops[j - 1].key, ops[j - 1].now)
  }

  // ----- the shape of the ledger in every run ------------------------------------------------------

  ghost predicate NoDuplicates(order: seq<string>) {
    forall i, j :: 0 <= i < j < |order| ==> order[i] != order[j]
  }

  ghost predicate Consistent(l: Ledger) {
    && NoDuplicates(l.order)
    && (forall k :: k in l.refs <==> k in l.order)
  }

  ghost predicate WithinLimit(cfg: Config, l: Ledger) {
    cfg.limit > 0 ==> |l.refs| <= cfg.limit
  }

  lemma {:induction false} PruneConsistent(cfg: Config, l: Ledger, now: int)
    requires Consistent(l)
    ensures Consistent(Prune(cfg, l, now)) && WithinLimit(cfg, Prune(cfg, l, now))
    ensures forall k :: k in Prune(cfg, l, now).refs ==> k in l.refs
    decreases |l.order|
  {
    if l.order == [] {
      assert l.refs == map[];
    } else {
      var oldest := l.order[0];
      assert oldest in l.refs;
      if now - l.refs[oldest] > cfg.ttl || (cfg.limit > 0 && |l.refs| > cfg.limit) {
        var rest := Ledger(l.refs - {oldest}, l.order[1..]);
        assert l.order == [oldest] + rest.order;
        PruneConsistent(cfg, rest, now);
      }
    }
  }

  lemma MarkConsistent(cfg: Config, l: Ledger, m: Mark)
    requires Consistent(l)
    ensures Consistent(AfterMark(cfg, l, m)) && (cfg.ttl > 0 ==> WithinLimit(cfg, AfterMark(cfg, l, m)))
  {
    if cfg.ttl > 0 {
      var p := Prune(cfg, l, m.at);
      PruneConsistent(cfg, l, m.at);
      var pushed := Ledger(p.refs[m.key := m.at], if m.key in p.refs then p.order else p.order + [m.key]);
      assert Consistent(pushed) by {
        assert forall k :: k in pushed.order <==> k in p.order || k == m.key;
      }
      PruneConsistent(cfg, pushed, m.at);
    }
  }

  /** Order and map agree, without duplicates and within the limit, whatever the keys and the clock. */
  lemma {:induction false} LedgerConsistent(cfg: Config, ops: seq<Op>)
    ensures Consistent(Run(cfg, ops)) && WithinLimit(cfg, Run(cfg, ops))
  {
    hide Prune;
    if ops != [] {
      var l := Run(cfg, ops[..|ops| - 1]);
      LedgerConsistent(cfg, ops[..|ops| - 1]);
      match ops[|ops| - 1] {
        case TestOp(_, now) => PruneConsistent(cfg, l, now);
        case MarkOp(m) => MarkConsistent(cfg, l, m);
      }
    }
  }

  lemma {:induction false} ConsistentSize(refs: set<string>, order: seq<string>)
    requires NoDuplicates(order) && (forall k :: k in refs <==> k in order)
    ensures |refs| == |order|
  {
    if order == [] {
      assert refs == {};
    } else {
      assert order == [order[0]] + order[1..];
      ConsistentSize(refs - {order[0]}, order[1..]);
    }
  }

  // ----- exactness ---------------------------------------------------------------------------------

  ghost function Window(cfg: Config, marks: seq<Mark>, now: int): (r: seq<Mark>)
    ensures |r| <= |marks|
  {
    LiveSuffix(MarkedAt, marks, now, cfg.ttl, cfg.limit)
  }

  /** The ledger holds exactly these marks, in this order. */
  ghost predicate Matches(l: Ledger, marks: seq<Mark>) {
    && |l.order| == |marks|
    && forall i :: 0 <= i < |marks| ==> Holds(l, i, marks[i])
  }

  ghost predicate Holds(l: Ledger, i: nat, m: Mark)
    requires i < |l.order|
  {
    l.order[i] == m.key && m.key in l.refs && l.refs[m.key] == m.at
  }

  lemma {:induction false} PruneExact(cfg: Config, l: Ledger, marks: seq<Mark>, now: int)
    requires Consistent(l) && Matches(l, marks) && Sorted(MarkedAt, marks)
    ensures Matches(Prune(cfg, l, now), Window(cfg, marks, now))
    decreases |marks|
  {
    if marks != [] {
      FrontDecides(MarkedAt, marks, now, cfg.ttl, cfg.limit);
      ConsistentSize(l.refs.Keys, l.order);
      assert Holds(l, 0, marks[0]);
      if !Live(MarkedAt, marks, now, cfg.ttl, cfg.limit) {
        var rest := Ledger(l.refs - {l.order[0]}, l.order[1..]);
        DropFront(l, marks);
        PruneExact(cfg, rest, marks[1..], now);
      }
    }
  }

  lemma DropFront(l: Ledger, marks: seq<Mark>)
    requires Consistent(l) && Matches(l, marks) && marks != []
    ensures var rest := Ledger(l.refs - {l.order[0]}, l.order[1..]); Consistent(rest) && Matches(rest, marks[1..])
  {
    var rest := Ledger(l.refs - {l.order[0]}, l.order[1..]);
    assert l.order == [l.order[0]] + rest.order;
    forall i | 0 <= i < |marks| - 1 ensures Holds(rest, i, marks[1..][i]) {
      assert Holds(l, i + 1, marks[i + 1]);
    }
  }

  /** `l` is the window of the marks at time `now`. */
  ghost predicate Exact(cfg: Config, l: Ledger, marks: seq<Mark>, now: int) {
    && Consistent(l) && Sorted(MarkedAt, marks) && (forall i :: 0 <= i < |marks| ==> marks[i].at <= now)
    && Matches(l, Window(cfg, marks, now))
  }

  lemma WindowOrdered(cfg: Config, marks: seq<Mark>, now: int)
    requires Sorted(MarkedAt, marks)
    ensures var r := Window(cfg, marks, now); r == marks[|marks| - |r|..] && Sorted(MarkedAt, r)
  {
    LiveSuffixIsSuffix(MarkedAt, marks, now, cfg.ttl, cfg.limit);
  }

  lemma WindowGrows(cfg: Config, marks: seq<Mark>, more: seq<Mark>, now: int, later: int)
    requires now <= later
    ensures Window(cfg, marks + more, later) == Window(cfg, Window(cfg, marks, now) + more, later)
  {
    LiveSuffixIncremental(MarkedAt, marks, more, now, later, cfg.ttl, cfg.limit);
  }

  lemma TestExact(cfg: Config, l: Ledger, marks: seq<Mark>, now: int, later: int)
    requires now <= later && Exact(cfg, l, marks, now)
    ensures Exact(cfg, Prune(cfg, l, later), marks, later)
  {
    hide Prune, LiveSuffix;
    var r := Window(cfg, marks, now);
    WindowOrdered(cfg, marks, now);
    PruneExact(cfg, l, r, later);
    PruneConsistent(cfg, l, later);
    WindowGrows(cfg, marks, [], now, later);
    assert marks + [] == marks && r + [] == r;
  }

  lemma MarkExact(cfg: Config, l: Ledger, marks: seq<Mark>, now: int, m: Mark)
    requires cfg.ttl > 0 && now <= m.at && Exact(cfg, l, marks, now) && m.key !in l.refs
    ensures Exact(cfg, AfterMark(cfg, l, m), marks + [m], m.at)
  {
    hide Prune, LiveSuffix, Consistent;
    TestExact(cfg, l, marks, now, m.at);
    PruneConsistent(cfg, l, m.at);
    var p, r := Prune(cfg, l, m.at), Window(cfg, marks, m.at);
    var pushed := Ledger(p.refs[m.key := m.at], p.order + [m.key]);
    WindowOrdered(cfg, marks, m.at);
    PushMatches(p, r, m);
    assert Sorted(MarkedAt, r + [m]) && Sorted(MarkedAt, marks + [m]);
    PruneExact(cfg, pushed, r + [m], m.at);
    PruneConsistent(cfg, pushed, m.at);
    WindowGrows(cfg, marks, [m], m.at, m.at);
  }

  lemma PushMatches(p: Ledger, r: seq<Mark>, m: Mark)
    requires Consistent(p) && Matches(p, r) && m.key !in p.refs
    ensures var pushed := Ledger(p.refs[m.key := m.at], p.order + [m.key]);
      Consistent(pushed) && Matches(pushed, r + [m])
  {
    var pushed := Ledger(p.refs[m.key := m.at], p.order + [m.key]);
    assert forall k :: k in pushed.order <==> k in p.order || k == m.key;
    forall i | 0 <= i < |r| ensures Holds(pushed, i, (r + [m])[i]) {
      assert Holds(p, i, r[i]);
    }
  }

  lemma DisciplinedPrefix(cfg: Config, ops: seq<Op>)
    requires ops != [] && Monotone(ops) && Disciplined(cfg, ops)
    ensures var before := ops[..|ops| - 1];
      Monotone(before) && Disciplined(cfg, before) && (before == [] ==> ops[0].TestOp?)
      && (before != [] ==> TimeOf(before[|before| - 1]) <= TimeOf(ops[|ops| - 1]))
  {
    var before := ops[..|ops| - 1];
    forall j | 0 <= j < |before| && before[j].MarkOp? ensures AfterMiss(cfg, before, j) {
      assert AfterMiss(cfg, ops, j);
      assert j > 0 ==> before[..j - 1] == ops[..j - 1];
    }
  }

  /** Extending a run keeps it disciplined when a new mark directly follows its own miss. */
  lemma PushOp(cfg: Config, ops: seq<Op>, op: Op)
    requires Monotone(ops) && Disciplined(cfg, ops) && (ops != [] ==> TimeOf(ops[|ops| - 1]) <= TimeOf(op))
    requires op.MarkOp? ==>
      && ops != [] && ops[|ops| - 1].TestOp? && ops[|ops| - 1].key == op.mark.key
      && !TestsRecent(cfg, Run(cfg, ops[..|ops| - 1]), ops[|ops| - 1].key, ops[|ops| - 1].now)
    ensures Monotone(ops + [op]) && Disciplined(cfg, ops + [op])
    ensures Run(cfg, ops + [op]) == Apply(cfg, Run(cfg, ops), op)
  {
    hide TestsRecent, Apply;
    var all := ops + [op];
    assert all[..|ops|] == ops;
    forall j | 0 <= j < |all| && all[j].MarkOp? ensures AfterMiss(cfg, all, j) {
      assert j < |ops| ==> AfterMiss(cfg, ops, j);
      assert j > 0 ==> all[..j - 1] == ops[..j - 1];
    }
  }

  /** After a miss the key is not in the ledger: what survives the prune is not expired. */
  lemma MissMeansAbsent(cfg: Config, l: Ledger, marks: seq<Mark>, key: string, now: int)
    requires cfg.ttl > 0 && Exact(cfg, Prune(cfg, l, now), marks, now) && !TestsRecent(cfg, l, key, now)
    ensures key !in Prune(cfg, l, now).refs
  {
    hide Prune;
    var p, r := Prune(cfg, l, now), Window(cfg, marks, now);
    LiveSuffixLongest(MarkedAt, marks, now, cfg.ttl, cfg.limit);
    forall i | 0 <= i < |p.order| ensures p.order[i] != key {
      assert Holds(p, i, r[i]);
    }
  }

  /** The ledger of a disciplined run is the window of its marks. */
  lemma {:induction false} LedgerExact(cfg: Config, ops: seq<Op>)
    requires cfg.ttl > 0 && ops != [] && Monotone(ops) && Disciplined(cfg, ops)
    ensures Exact(cfg, Run(cfg, ops), Marks(ops), TimeOf(ops[|ops| - 1]))
  {
    hide Prune, Exact;
    var before, last := ops[..|ops| - 1], ops[|ops| - 1];
    DisciplinedPrefix(cfg, ops);
    assert Marks(before) + [] == Marks(before);
    if before == [] {
      FirstTest(cfg, ops);
    } else {
      LedgerExact(cfg, before);
      var now := TimeOf(before[|before| - 1]);
      match last {
        case TestOp(_, later) => TestExact(cfg, Run(cfg, before), Marks(before), now, later);
        case MarkOp(m) =>
          assert AfterMiss(cfg, ops, |ops| - 1);
          assert ops[..|ops| - 2] == before[..|before| - 1];
          MissMeansAbsent(cfg, Run(cfg, before[..|before| - 1]), Marks(before), m.key, now);
          MarkExact(cfg, Run(cfg, before), Marks(before), now, m);
      }
    }
  }

  lemma FirstTest(cfg: Config, ops: seq<Op>)
    requires |ops| == 1 && ops[0].TestOp?
    ensures Exact(cfg, Run(cfg, ops), Marks(ops), TimeOf(ops[0]))
  {
    assert ops[..0] == [];
    assert Marks(ops) == [];
  }

  // ----- what a test answers -----------------------------------------------------------------------

  /** Position `i` holds the last mark of the key. */
  ghost predicate IsLastMark(marks: seq<Mark>, key: string, i: int) {
    && 0 <= i < |marks| && marks[i].key == key
    && forall j :: i < j < |marks| ==> marks[j].key != key
  }

  /** The last mark of the key is young enough and among the last `limit` marks. */
  ghost predicate LastMarkKept(cfg: Config, marks: seq<Mark>, key: string, now: int) {
    exists i :: IsLastMark(marks, key, i)
      && (cfg.limit > 0 ==> |marks| - i <= cfg.limit) && now - marks[i].at <= cfg.ttl
  }

  /** In any disciplined run a ref tests as recent iff its last mark is young enough and among the last `limit`. */
  lemma RecentIff(cfg: Config, ops: seq<Op>, key: string, now: int)
    requires cfg.ttl > 0 && Monotone(ops) && Disciplined(cfg, ops)
    requires ops != [] ==> TimeOf(ops[|ops| - 1]) <= now
    ensures TestsRecent(cfg, Run(cfg, ops), key, now) <==> LastMarkKept(cfg, Marks(ops), key, now)
  {
    hide Prune, Exact, LastMarkKept;
    var all, marks := ops + [TestOp(key, now)], Marks(ops);
    assert all[..|ops|] == ops && Marks(all) == marks;
    PushOp(cfg, ops, TestOp(key, now));
    LedgerExact(cfg, all);
    var p := Prune(cfg, Run(cfg, ops), now);
    assert Run(cfg, all) == p;
    PresentIff(cfg, p, marks, key, now);
    assert TestsRecent(cfg, Run(cfg, ops), key, now) <==> key in p.refs && now - p.refs[key] <= cfg.ttl;
  }

  lemma PresentIff(cfg: Config, p: Ledger, marks: seq<Mark>, key: string, now: int)
    requires Exact(cfg, p, marks, now)
    ensures (key in p.refs && now - p.refs[key] <= cfg.ttl) <==> LastMarkKept(cfg, marks, key, now)
  {
    var r := Window(cfg, marks, now);
    WindowOrdered(cfg, marks, now);
    var c := |marks| - |r|;
    if key in p.refs {
      var j :| 0 <= j < |p.order| && p.order[j] == key;
      assert Holds(p, j, r[j]);
      KeptIff(MarkedAt, marks, now, cfg.ttl, cfg.limit, c + j);
      forall k | c + j < k < |marks| ensures marks[k].key != key {
        assert Holds(p, k - c, r[k - c]);
      }
      assert IsLastMark(marks, key, c + j);
    }
    if i :| IsLastMark(marks, key, i) && (cfg.limit > 0 ==> |marks| - i <= cfg.limit) && now - marks[i].at <= cfg.ttl {
      KeptIff(MarkedAt, marks, now, cfg.ttl, cfg.limit, i);
      assert Holds(p, i - c, r[i - c]);
    }
  }

  /**
   * No ref is encoded twice within the time to live, unless at least `limit` other marks came between.
   * (With a time to live of zero or less the ledger is switched off and nothing is promised.)
   */
  lemma {:induction false} NeverEncodedTwice(cfg: Config, ops: seq<Op>, i: nat, j: nat)
    requires cfg.ttl > 0 && Monotone(ops) && Disciplined(cfg, ops)
    requires i < j < |Marks(ops)| && Marks(ops)[i].key == Marks(ops)[j].key
    ensures Marks(ops)[j].at - Marks(ops)[i].at > cfg.ttl || (cfg.limit > 0 && j - i - 1 >= cfg.limit)
  {
    var before, last := ops[..|ops| - 1], ops[|ops| - 1];
    DisciplinedPrefix(cfg, ops);
    var marks := Marks(before);
    if j < |marks| {
      NeverEncodedTwice(cfg, before, i, j);
    } else {
      assert AfterMiss(cfg, ops, |ops| - 1);
      var tested := ops[..|ops| - 2];
      assert tested == before[..|before| - 1];
      assert marks == Marks(tested) + [] == Marks(tested);
      DisciplinedPrefix(cfg, before);
      RecentIff(cfg, tested, last.mark.key, before[|before| - 1].now);
      var k: int := LastMarkOf(marks, last.mark.key, i);
      LedgerExact(cfg, before);
      assert marks[i].at <= marks[k].at;
    }
  }

  lemma {:induction false} LastMarkOf(marks: seq<Mark>, key: string, i: nat) returns (k: nat)
    requires i < |marks| && marks[i].key == key
    ensures i <= k && IsLastMark(marks, key, k)
    decreases |marks| - i
  {
    if j :| i < j < |marks| && marks[j].key == key {
      k := LastMarkOf(marks, key, j);
    } else {
      k := i;
    }
  }

  // ----- a missed ref stays missed until it is marked ------------------------------------------------

  /** A test at `now` or later cannot say "recent". */
  ghost predicate Forgotten(cfg: Config, l: Ledger, key: string, now: int) {
    cfg.ttl <= 0 || key !in l.refs || now - l.refs[key] > cfg.ttl
  }

  lemma {:induction false} PruneShrinks(cfg: Config, l: Ledger, now: int, key: string)
    ensures
      var p := Prune(cfg, l, now);
      key in p.refs ==> key in l.refs && p.refs[key] == l.refs[key]
    decreases |l.order|
  {
    if l.order != [] {
      PruneShrinks(cfg, Ledger(l.refs, l.order[1..]), now, key);
      PruneShrinks(cfg, Ledger(l.refs - {l.order[0]}, l.order[1..]), now, key);
    }
  }

  lemma {:induction false} ForgottenUntilMarked(cfg: Config, ops: seq<Op>, i: nat, n: nat)
    requires i < n <= |ops| && (forall m :: i <= m < n ==> ops[m].TestOp?)
    requires !TestsRecent(cfg, Run(cfg, ops[..i]), ops[i].key, ops[i].now)
    ensures Forgotten(cfg, Run(cfg, ops[..n]), ops[i].key, ops[i].now)
    decreases n
  {
    hide Prune;
    assert ops[..n][..n - 1] == ops[..n - 1];
    if i < n - 1 {
      ForgottenUntilMarked(cfg, ops, i, n - 1);
      PruneShrinks(cfg, Run(cfg, ops[..n - 1]), ops[n - 1].now, ops[i].key);
    }
  }

  /** After a miss the same ref is missed again as long as nothing is marked. */
  lemma MissStays(cfg: Config, ops: seq<Op>, i: nat, j: nat)
    requires i < j < |ops| && Monotone(ops) && (forall m :: i <= m <= j ==> ops[m].TestOp?)
    requires ops[j].key == ops[i].key && !TestsRecent(cfg, Run(cfg, ops[..i]), ops[i].key, ops[i].now)
    ensures !TestsRecent(cfg, Run(cfg, ops[..j]), ops[j].key, ops[j].now)
  {
    hide Prune, Run;
    ForgottenUntilMarked(cfg, ops, i, j);
    PruneShrinks(cfg, Run(cfg, ops[..j]), ops[j].now, ops[j].key);
    assert TimeOf(ops[i]) <= TimeOf(ops[j]);
  }
}
