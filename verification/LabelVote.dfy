/** Sliding-window majority vote on the labels of each tracked object (frame_events_probe_handler.cpp). */
module LabelVote {
  import opened Options
  import opened TextOrder
  import opened FrameSignature

  datatype Sample = Sample(signature: string, labels: seq<string>)

  datatype VoteState = VoteState(
    samples: seq<Sample>, provisionalInitialized: bool, provisionalLabels: seq<string>,
    committedSignature: string, committedLabels: seq<string>)

  const UNVOTED: VoteState := VoteState([], false, [], "", [])

  /** The configured window, at least one sample. */
  function Window(configured: int): (w: nat)
    ensures w >= 1 && w >= configured && (w == 1 || w == configured)
  {
    if configured < 1 then 1 else configured
  }

  // ----- counting ------------------------------------------------------------------------------

  function Count(samples: seq<Sample>, signature: string): (n: nat)
    ensures n <= |samples|
  {
    if samples == [] then 0
    else
      Count(samples[..|samples| - 1], signature) + (if samples[|samples| - 1].signature == signature then 1 else 0)
  }

  predicate Majority(samples: seq<Sample>, signature: string) {
    2 * Count(samples, signature) > |samples|
  }

  ghost predicate Occurs(samples: seq<Sample>, signature: string) {
    exists k :: 0 <= k < |samples| && samples[k].signature == signature
  }

  lemma {:induction false} CountsAddUp(samples: seq<Sample>, a: string, b: string)
    requires a != b
    ensures Count(samples, a) + Count(samples, b) <= |samples|
  {
    if samples != [] {
      CountsAddUp(samples[..|samples| - 1], a, b);
    }
  }

  lemma MajorityUnique(samples: seq<Sample>, a: string, b: string)
    requires Majority(samples, a) && Majority(samples, b)
    ensures a == b
  {
    if a != b {
      CountsAddUp(samples, a, b);
    }
  }

  lemma {:induction false} CountPositive(samples: seq<Sample>, signature: string)
    ensures Count(samples, signature) > 0 <==> Occurs(samples, signature)
  {
    if samples != [] {
      var front := samples[..|samples| - 1];
      CountPositive(front, signature);
      if Occurs(front, signature) {
        var k :| 0 <= k < |front| && front[k].signature == signature;
        assert samples[k].signature == signature;
      } else if Occurs(samples, signature) {
        var k :| 0 <= k < |samples| && samples[k].signature == signature;
        assert k < |front| ==> front[k].signature == signature;
      }
    }
  }

  /** Index of the latest sample with this signature. */
  function LatestIndex(samples: seq<Sample>, signature: string): (k: nat)
    requires Occurs(samples, signature)
    ensures k < |samples| && samples[k].signature == signature
    ensures forall i :: k < i < |samples| ==> samples[i].signature != signature
  {
    var n := |samples| - 1;
    if samples[n].signature == signature then n
    else
      assert Occurs(samples[..n], signature) by {
        var k :| 0 <= k < |samples| && samples[k].signature == signature;
        assert samples[..n][k].signature == signature;
      }
      LatestIndex(samples[..n], signature)
  }

  // ----- the vote of one object ----------------------------------------------------------------

  function Push(samples: seq<Sample>, sample: Sample, w: nat): seq<Sample> {
    var grown := samples + [sample];
    if |grown| > w then grown[|grown| - w..] else grown
  }

  /** The signature holding a strict majority of a full window, if any. */
  ghost function Elected(samples: seq<Sample>, w: nat): Option<string> {
    if |samples| >= w && exists s :: Majority(samples, s) then
      var s :| Majority(samples, s);
      Some(s)
    else None
  }

  lemma ElectedMeans(samples: seq<Sample>, w: nat, s: string)
    ensures Elected(samples, w) == Some(s) <==> |samples| >= w && Majority(samples, s)
  {
    if |samples| >= w && Majority(samples, s) {
      MajorityUnique(samples, s, Elected(samples, w).value);
    }
  }

  ghost function Commit(v: VoteState, w: nat): VoteState {
    match Elected(v.samples, w)
    case None => v
    case Some(s) =>
      ElectedMeans(v.samples, w, s);
      CountPositive(v.samples, s);
      v.(committedSignature := s, committedLabels := v.samples[LatestIndex(v.samples, s)].labels)
  }

  /** Feeds one observation of an object to its vote. */
  ghost function Vote(w: nat, v: VoteState, labels: seq<string>): VoteState {
    var shown := if v.provisionalInitialized then v
                 else v.(provisionalInitialized := true, provisionalLabels := labels);
    Commit(shown.(samples := Push(v.samples, Sample(LabelSignature(labels), labels), w)), w)
  }

  /** The unique most frequent signature, the latest one among equals. */
  ghost predicate IsWinner(samples: seq<Sample>, winner: string) {
    Occurs(samples, winner) &&
    forall s :: Occurs(samples, s) && s != winner ==> Beats(samples, winner, s)
  }

  ghost predicate Beats(samples: seq<Sample>, a: string, b: string)
    requires Occurs(samples, a) && Occurs(samples, b)
  {
    Count(samples, b) < Count(samples, a)
    || (Count(samples, b) == Count(samples, a) && LatestIndex(samples, b) < LatestIndex(samples, a))
  }

  lemma BeatsAsymmetric(samples: seq<Sample>, a: string, b: string)
    requires Occurs(samples, a) && Occurs(samples, b)
    ensures !(Beats(samples, a, b) && Beats(samples, b, a))
  {
  }

  lemma WinnerUnique(samples: seq<Sample>, a: string, b: string)
    requires IsWinner(samples, a) && IsWinner(samples, b)
    ensures a == b
  {
    BeatsAsymmetric(samples, a, b);
  }

  lemma WinnerElected(samples: seq<Sample>, w: nat, winner: string)
    requires IsWinner(samples, winner) && |samples| >= w
    ensures Elected(samples, w) == if Majority(samples, winner) then Some(winner) else None
  {
    ElectedMeans(samples, w, winner);
    if exists s :: Majority(samples, s) {
      var s :| Majority(samples, s);
      CountPositive(samples, s);
      assert s == winner || Beats(samples, winner, s);
    }
  }

  /** Tallies of the samples seen so far: counts, latest index and latest labels per signature. */
  ghost predicate Tallied(samples: seq<Sample>, counts: map<string, int>, latestIndex: map<string, nat>,
                          latestLabels: map<string, seq<string>>) {
    counts.Keys == latestIndex.Keys == latestLabels.Keys
    && (forall s :: s in counts <==> Occurs(samples, s))
    && forall s :: s in counts ==>
      counts[s] == Count(samples, s) && latestIndex[s] == LatestIndex(samples, s)
      && latestLabels[s] == samples[LatestIndex(samples, s)].labels
  }

  method Tally(samples: seq<Sample>)
    returns (counts: map<string, int>, latestIndex: map<string, nat>, latestLabels: map<string, seq<string>>)
    ensures Tallied(samples, counts, latestIndex, latestLabels)
  {
    hide Tallied;
    counts, latestIndex, latestLabels := map[], map[], map[];
    NothingTallied();
    for index := 0 to |samples|
      invariant Tallied(samples[..index], counts, latestIndex, latestLabels)
    {
      var observed := samples[index];
      TallyStep(samples[..index], observed, counts, latestIndex, latestLabels);
      assert samples[..index + 1] == samples[..index] + [observed];
      var seen := if observed.signature in counts then counts[observed.signature] else 0;
      counts := counts[observed.signature := seen + 1];
      latestIndex := latestIndex[observed.signature := index];
      latestLabels := latestLabels[observed.signature := observed.labels];
    }
    assert samples[..|samples|] == samples;
  }

  lemma NothingTallied()
    ensures Tallied([], map[], map[], map[])
  {
  }

  lemma OccursSnoc(samples: seq<Sample>, d: Sample, s: string)
    ensures Occurs(samples + [d], s) <==> s == d.signature || Occurs(samples, s)
    ensures Count(samples + [d], s) == Count(samples, s) + (if s == d.signature then 1 else 0)
    ensures Occurs(samples + [d], s) ==>
      LatestIndex(samples + [d], s) == if s == d.signature then |samples| else LatestIndex(samples, s)
  {
    var t := samples + [d];
    assert t[..|t| - 1] == samples;
    if Occurs(samples, s) {
      var k :| 0 <= k < |samples| && samples[k].signature == s;
      assert t[k].signature == s;
    }
    if s == d.signature {
      assert t[|samples|].signature == s;
    }
  }

  lemma TallyStep(samples: seq<Sample>, d: Sample, counts: map<string, int>, latestIndex: map<string, nat>,
                  latestLabels: map<string, seq<string>>)
    requires Tallied(samples, counts, latestIndex, latestLabels)
    ensures
      var seen := if d.signature in counts then counts[d.signature] else 0;
      Tallied(samples + [d], counts[d.signature := seen + 1], latestIndex[d.signature := |samples|],
              latestLabels[d.signature := d.labels])
  {
    hide Occurs, Count, LatestIndex;
    CountPositive(samples, d.signature);
    forall s
      ensures Occurs(samples + [d], s) <==> s == d.signature || Occurs(samples, s)
      ensures Count(samples + [d], s) == Count(samples, s) + (if s == d.signature then 1 else 0)
      ensures Occurs(samples + [d], s) ==>
        LatestIndex(samples + [d], s) == if s == d.signature then |samples| else LatestIndex(samples, s)
    {
      OccursSnoc(samples, d, s);
    }
  }

  lemma OccursAt(samples: seq<Sample>, k: nat)
    requires k < |samples|
    ensures Occurs(samples, samples[k].signature)
  {
  }

  /** Two different signatures never tie: their latest samples are different samples. */
  lemma SplitBeats(samples: seq<Sample>, a: string, b: string)
    requires Occurs(samples, a) && Occurs(samples, b) && a != b
    ensures Beats(samples, a, b) || Beats(samples, b, a)
  {
  }

  /** `winner` is one of these signatures and beats all the others. */
  ghost predicate Best(samples: seq<Sample>, signatures: set<string>, winner: string) {
    winner in signatures && (forall s :: s in signatures ==> Occurs(samples, s))
    && forall s :: s in signatures && s != winner ==> Beats(samples, winner, s)
  }

  lemma BestAlone(samples: seq<Sample>, signature: string)
    requires Occurs(samples, signature)
    ensures Best(samples, {signature}, signature)
  {
    hide Occurs;
  }

  /** One more signature: it becomes the best one iff it beats the best one so far. */
  lemma BestStep(samples: seq<Sample>, signatures: set<string>, winner: string, candidate: string)
    requires Best(samples, signatures, winner) && Occurs(samples, candidate) && candidate !in signatures
    ensures Best(samples, signatures + {candidate}, if Beats(samples, candidate, winner) then candidate else winner)
  {
    hide Occurs, Beats;
    SplitBeats(samples, winner, candidate);
    if Beats(samples, candidate, winner) {
      forall s | s in signatures ensures Beats(samples, candidate, s) {
        if s != winner {
          BeatsTransitive(samples, candidate, winner, s);
        }
      }
    }
  }

  lemma BeatsTransitive(samples: seq<Sample>, a: string, b: string, c: string)
    requires Occurs(samples, a) && Occurs(samples, b) && Occurs(samples, c)
    requires Beats(samples, a, b) && Beats(samples, b, c)
    ensures Beats(samples, a, c)
  {
    hide Occurs, Count, LatestIndex;
  }

  lemma BestOfAll(samples: seq<Sample>, counts: map<string, int>, latestIndex: map<string, nat>,
                  latestLabels: map<string, seq<string>>, winner: string)
    requires Tallied(samples, counts, latestIndex, latestLabels) && Best(samples, counts.Keys, winner)
    ensures IsWinner(samples, winner)
  {
    hide Occurs, Beats, Count, LatestIndex;
  }

  /** The comparison of the loop, on the tallies, is the one of the specification. */
  lemma TalliedBeats(samples: seq<Sample>, counts: map<string, int>, latestIndex: map<string, nat>,
                     latestLabels: map<string, seq<string>>, a: string)
    requires Tallied(samples, counts, latestIndex, latestLabels) && a in counts
    ensures Occurs(samples, a) && a in latestIndex && counts[a] == Count(samples, a) > 0
    ensures latestIndex[a] == LatestIndex(samples, a)
  {
    hide Occurs, Count, LatestIndex;
    CountPositive(samples, a);
  }

  lemma SomethingTallied(samples: seq<Sample>, counts: map<string, int>, latestIndex: map<string, nat>,
                         latestLabels: map<string, seq<string>>)
    requires samples != [] && Tallied(samples, counts, latestIndex, latestLabels)
    ensures counts.Keys != {}
  {
    hide Occurs, Count, LatestIndex;
    OccursAt(samples, 0);
    assert samples[0].signature in counts;
  }

  /** The winner loop, over the signatures in whatever order the hash map yields them. */
  method PickWinner(ghost samples: seq<Sample>, counts: map<string, int>, latestIndex: map<string, nat>,
                    ghost latestLabels: map<string, seq<string>>, committed: string)
    returns (winner: string, winnerCount: int)
    requires samples != [] && Tallied(samples, counts, latestIndex, latestLabels)
    ensures IsWinner(samples, winner) && winnerCount == Count(samples, winner)
  {
    hide Occurs, Count, LatestIndex, Tallied, Best, IsWinner;
    winner, winnerCount := committed, -1;
    var winnerLatestIndex: nat := 0;
    var remaining := counts.Keys;
    ghost var seen: set<string> := {};
    SomethingTallied(samples, counts, latestIndex, latestLabels);
    while remaining != {}
      invariant seen + remaining == counts.Keys && seen !! remaining
      invariant winnerCount == -1 ==> seen == {}
      invariant winnerCount != -1 ==>
        Best(samples, seen, winner) && Occurs(samples, winner) && winnerCount == Count(samples, winner)
        && winnerLatestIndex == LatestIndex(samples, winner)
      decreases remaining
    {
      var signature :| signature in remaining;
      TalliedBeats(samples, counts, latestIndex, latestLabels, signature);
      var count, candidateLatestIndex := counts[signature], latestIndex[signature];
      if winnerCount == -1 {
        BestAlone(samples, signature);
        assert seen + {signature} == {signature};
      } else {
        BestStep(samples, seen, winner, signature);
      }
      if count > winnerCount || (count == winnerCount && candidateLatestIndex > winnerLatestIndex) {
        winner, winnerCount, winnerLatestIndex := signature, count, candidateLatestIndex;
      }
      remaining, seen := remaining - {signature}, seen + {signature};
    }
    BestOfAll(samples, counts, latestIndex, latestLabels, winner);
  }

  /** One pass of the per-object loop body: provisional labels, window, vote, commit. */
  method CastVote(w: nat, v: VoteState, labels: seq<string>) returns (r: VoteState)
    requires w >= 1
    ensures r == Vote(w, v, labels)
  {
    hide Occurs, Count, LatestIndex;
    r := v;
    var signature := BuildLabelSignature(labels);
    if !r.provisionalInitialized {
      r := r.(provisionalInitialized := true, provisionalLabels := labels);
    }
    var window := Slide(r.samples, Sample(signature, labels), w);
    r := r.(samples := window);
    r := CommitWinner(r, w);
  }

  method Slide(samples: seq<Sample>, sample: Sample, w: nat) returns (window: seq<Sample>)
    ensures window == Push(samples, sample, w)
  {
    window := samples + [sample];
    ghost var grown := window;
    while |window| > w
      invariant |window| <= |grown| && window == grown[|grown| - |window|..]
      invariant |window| >= w || window == grown
    {
      window := window[1..];
    }
  }

  method CommitWinner(v: VoteState, w: nat) returns (r: VoteState)
    requires w >= 1 && 1 <= |v.samples| <= w
    ensures r == Commit(v, w)
  {
    hide Occurs, Count, LatestIndex;
    r := v;
    if w == 1 {
      var latest := r.samples[|r.samples| - 1];
      OnlySampleElected(v.samples);
      r := r.(committedSignature := latest.signature, committedLabels := latest.labels);
    } else if |r.samples| >= w {
      var counts, latestIndex, latestLabels := Tally(r.samples);
      var winner, winnerCount := PickWinner(r.samples, counts, latestIndex, latestLabels, r.committedSignature);
      WinnerElected(r.samples, w, winner);
      if winnerCount > |r.samples| / 2 {
        r := r.(committedSignature := winner, committedLabels := latestLabels[winner]);
      }
    }
  }

  /** The shortcut for a window of one sample agrees with the general rule. */
  lemma OnlySampleElected(samples: seq<Sample>)
    requires |samples| == 1
    ensures Elected(samples, 1) == Some(samples[0].signature)
    ensures Occurs(samples, samples[0].signature) && LatestIndex(samples, samples[0].signature) == 0
  {
    ElectedMeans(samples, 1, samples[0].signature);
    assert Count(samples[..0], samples[0].signature) == 0;
    OccursAt(samples, 0);
  }

  // ----- what one vote changes -----------------------------------------------------------------

  /** The committed signature changes exactly when another one holds a strict majority of a full window. */
  lemma ChangesIff(w: nat, v: VoteState, labels: seq<string>)
    requires w >= 1
    ensures
      var r := Vote(w, v, labels);
      r.committedSignature != v.committedSignature
      <==> |r.samples| == w && exists s :: s != v.committedSignature && Majority(r.samples, s)
  {
    hide Occurs, Count, LatestIndex, Majority;
    var r := Vote(w, v, labels);
    if r.committedSignature != v.committedSignature {
      ElectedMeans(r.samples, w, r.committedSignature);
    }
    if |r.samples| == w && exists s :: s != v.committedSignature && Majority(r.samples, s) {
      var s :| s != v.committedSignature && Majority(r.samples, s);
      ElectedMeans(r.samples, w, s);
    }
  }

  // ----- runs of one object --------------------------------------------------------------------

  ghost function ObjectRun(w: nat, seen: seq<seq<string>>): VoteState {
    if seen == [] then UNVOTED else Vote(w, ObjectRun(w, seen[..|seen| - 1]), seen[|seen| - 1])
  }

  function SampleOf(labels: seq<string>): Sample {
    Sample(LabelSignature(labels), labels)
  }

  /** The last `w` observations (all of them while there are fewer). */
  function WindowAt(w: nat, seen: seq<seq<string>>): seq<Sample> {
    Map(SampleOf, if |seen| > w then seen[|seen| - w..] else seen)
  }

  lemma EmptyWindow(w: nat)
    ensures WindowAt(w, []) == []
  {
  }

  lemma VoteSamples(w: nat, v: VoteState, labels: seq<string>)
    ensures Vote(w, v, labels).samples == Push(v.samples, SampleOf(labels), w)
  {
    hide LabelSignature, Elected, LatestIndex, Occurs;
  }

  lemma WindowSnoc(w: nat, seen: seq<seq<string>>, labels: seq<string>)
    requires w >= 1
    ensures Push(WindowAt(w, seen), SampleOf(labels), w) == WindowAt(w, seen + [labels])
  {
    hide SampleOf;
  }

  lemma {:induction false} RunSamples(w: nat, seen: seq<seq<string>>)
    requires w >= 1
    ensures ObjectRun(w, seen).samples == WindowAt(w, seen)
  {
    hide LabelSignature, Vote, WindowAt;
    if seen == [] {
      assert WindowAt(w, []) == [] by { EmptyWindow(w); }
    } else {
      var front, last := seen[..|seen| - 1], seen[|seen| - 1];
      RunSamples(w, front);
      VoteSamples(w, ObjectRun(w, front), last);
      WindowSnoc(w, front, last);
      assert seen == front + [last];
    }
  }

  /** The signature elected by the most recent observation that elected one. */
  ghost function LastElected(w: nat, seen: seq<seq<string>>): Option<string> {
    if seen == [] then None
    else if Elected(WindowAt(w, seen), w).Some? then Elected(WindowAt(w, seen), w)
    else LastElected(w, seen[..|seen| - 1])
  }

  /** The committed signature of a run is that of the most recent full window with a majority. */
  lemma {:induction false} CommittedIsLastElected(w: nat, seen: seq<seq<string>>)
    requires w >= 1
    ensures ObjectRun(w, seen).committedSignature == match LastElected(w, seen) case None => "" case Some(s) => s
  {
    hide Elected, LabelSignature, WindowAt;
    if seen != [] {
      CommittedIsLastElected(w, seen[..|seen| - 1]);
      RunSamples(w, seen);
    }
  }

  /** The most recent election took place after `m` observations. */
  ghost predicate LatestElection(w: nat, seen: seq<seq<string>>, m: nat) {
    && 0 < m <= |seen| && Elected(WindowAt(w, seen[..m]), w).Some?
    && forall l :: m < l <= |seen| ==> Elected(WindowAt(w, seen[..l]), w) == None
  }

  /** Observation `k` is the latest one with signature `s` among the last `w` of the first `m`. */
  ghost predicate Carries(w: nat, seen: seq<seq<string>>, m: nat, s: string, k: nat)
    requires m <= |seen|
  {
    && k < m <= k + w && LabelSignature(seen[k]) == s
    && forall i :: k < i < m ==> LabelSignature(seen[i]) != s
  }

  lemma WindowCarries(w: nat, seen: seq<seq<string>>, s: string) returns (k: nat)
    requires w >= 1 && Occurs(WindowAt(w, seen), s)
    ensures Carries(w, seen, |seen|, s, k)
    ensures WindowAt(w, seen)[LatestIndex(WindowAt(w, seen), s)].labels == seen[k]
  {
    hide LabelSignature, Occurs, WindowAt;
    var first := if |seen| > w then |seen| - w else 0;
    var window := WindowAt(w, seen);
    WindowEntries(w, seen, first);
    k := first + LatestIndex(window, s);
    assert window[k - first] == SampleOf(seen[k]);
    forall i | k < i < |seen| ensures LabelSignature(seen[i]) != s {
      assert window[i - first] == SampleOf(seen[i]) && window[i - first].signature != s;
    }
  }

  lemma WindowEntries(w: nat, seen: seq<seq<string>>, first: nat)
    requires first == if |seen| > w then |seen| - w else 0
    ensures |WindowAt(w, seen)| == |seen| - first
    ensures forall i :: 0 <= i < |seen| - first ==> WindowAt(w, seen)[i] == SampleOf(seen[first + i])
  {
    hide SampleOf;
  }

  /** The labels a committed object shows: those of observation `k`, or the first ones if it carries none at all. */
  ghost predicate CommittedTo(w: nat, seen: seq<seq<string>>, s: string, labels: seq<string>) {
    exists m: nat, k: nat :: LatestElection(w, seen, m) && Carries(w, seen, m, s, k) && labels == seen[k]
  }

  lemma {:induction false} CommittedLabels(w: nat, seen: seq<seq<string>>)
    requires w >= 1 && seen != []
    ensures
      var v := ObjectRun(w, seen);
      && v.provisionalInitialized && v.provisionalLabels == seen[0]
      && match LastElected(w, seen)
         case None => v.committedLabels == []
         case Some(s) => CommittedTo(w, seen, s, v.committedLabels)
  {
    hide Elected, LabelSignature, WindowAt, CommittedTo, LatestIndex, Occurs;
    var front := seen[..|seen| - 1];
    assert seen[..|seen|] == seen;
    RunSamples(w, seen);
    if front != [] {
      CommittedLabels(w, front);
    }
    match Elected(WindowAt(w, seen), w) {
      case Some(s) =>
        ElectedOccurs(WindowAt(w, seen), w, s);
        var k := WindowCarries(w, seen, s);
        CommittedNow(w, seen, s, k);
      case None =>
        if LastElected(w, front).Some? {
          StillCommitted(w, seen, LastElected(w, front).value, ObjectRun(w, front).committedLabels);
        }
    }
  }

  lemma ElectedOccurs(samples: seq<Sample>, w: nat, s: string)
    requires Elected(samples, w) == Some(s)
    ensures Occurs(samples, s)
  {
    ElectedMeans(samples, w, s);
    CountPositive(samples, s);
  }

  lemma CommittedNow(w: nat, seen: seq<seq<string>>, s: string, k: nat)
    requires Elected(WindowAt(w, seen), w).Some? && seen != [] && Carries(w, seen, |seen|, s, k)
    ensures CommittedTo(w, seen, s, seen[k])
  {
    hide Elected, WindowAt, LabelSignature;
    assert seen[..|seen|] == seen;
    assert LatestElection(w, seen, |seen|);
  }

  lemma StillCommitted(w: nat, seen: seq<seq<string>>, s: string, labels: seq<string>)
    requires seen != [] && Elected(WindowAt(w, seen), w) == None
    requires CommittedTo(w, seen[..|seen| - 1], s, labels)
    ensures CommittedTo(w, seen, s, labels)
  {
    hide Elected, WindowAt, LabelSignature;
    var front := seen[..|seen| - 1];
    var m: nat, k: nat :| LatestElection(w, front, m) && Carries(w, front, m, s, k) && labels == front[k];
    assert seen[..|seen|] == seen;
    forall l | 0 < l < |seen| ensures front[..l] == seen[..l] {
    }
    assert LatestElection(w, seen, m) && Carries(w, seen, m, s, k);
  }

  function CountOthers(samples: seq<Sample>, signature: string): nat {
    |samples| - Count(samples, signature)
  }

  lemma FewOthersElectNobodyElse(samples: seq<Sample>, w: nat, s: string)
    requires CountOthers(samples, s) <= w / 2
    ensures Elected(samples, w).Some? ==> Elected(samples, w) == Some(s)
  {
    if Elected(samples, w).Some? {
      var t := Elected(samples, w).value;
      ElectedMeans(samples, w, t);
      if t != s {
        CountsAddUp(samples, s, t);
      }
    }
  }

  /**
   * Stability over a whole run: once committed to `s` after `n` observations, an object stays at `s`
   * as long as no later window holds more than half of other signatures.
   */
  lemma {:induction false} StaysCommitted(w: nat, seen: seq<seq<string>>, n: nat, s: string)
    requires w >= 1 && n <= |seen| && ObjectRun(w, seen[..n]).committedSignature == s
    requires forall m :: n < m <= |seen| ==> CountOthers(WindowAt(w, seen[..m]), s) <= w / 2
    ensures ObjectRun(w, seen).committedSignature == s
  {
    hide Elected, LabelSignature, WindowAt, CountOthers;
    if n < |seen| {
      var front := seen[..|seen| - 1];
      assert seen[..|seen|] == seen;
      assert front[..n] == seen[..n];
      forall m | n < m <= |front| ensures CountOthers(WindowAt(w, front[..m]), s) <= w / 2 {
        assert front[..m] == seen[..m];
      }
      StaysCommitted(w, front, n, s);
      RunSamples(w, seen);
      FewOthersElectNobodyElse(WindowAt(w, seen), w, s);
    } else {
      assert seen[..n] == seen;
    }
  }

  /** The bound is sharp: half of a full window plus one sample of another signature switches to it. */
  lemma SwitchesAboveHalf(w: nat, seen: seq<seq<string>>, t: string)
    requires w >= 1 && |seen| >= w && Count(WindowAt(w, seen), t) >= w / 2 + 1
    ensures ObjectRun(w, seen).committedSignature == t
  {
    hide Count, LabelSignature;
    ElectedMeans(WindowAt(w, seen), w, t);
    CommittedIsLastElected(w, seen);
  }

  // ----- all objects of a frame ----------------------------------------------------------------

  function StateOf(votes: map<nat, VoteState>, id: nat): VoteState {
    if id in votes then votes[id] else UNVOTED
  }

  /** The votes after the objects of a frame, in metadata order, have been counted. */
  ghost function VoteAll(w: nat, votes: map<nat, VoteState>, objects: seq<FrameObject>): map<nat, VoteState> {
    if objects == [] then votes
    else CountIn(w, VoteAll(w, votes, objects[..|objects| - 1]), objects[|objects| - 1])
  }

  ghost function CountIn(w: nat, votes: map<nat, VoteState>, o: FrameObject): map<nat, VoteState> {
    votes[o.objectId := Vote(w, StateOf(votes, o.objectId), o.labels)]
  }

  /** What the frame shows of an object: the committed labels, or the first ones seen before any commit. */
  function Relabel(o: FrameObject, v: VoteState): FrameObject {
    if v.committedSignature != "" || v.committedLabels != [] then
      o.(labels := v.committedLabels, labelSignature := v.committedSignature)
    else o.(labels := v.provisionalLabels, labelSignature := "")
  }

  /** Each object is relabelled by its own vote as it stands when the loop reaches it. */
  ghost function Relabelled(w: nat, votes: map<nat, VoteState>, objects: seq<FrameObject>): seq<FrameObject> {
    seq(|objects|, k requires 0 <= k < |objects| =>
      Relabel(objects[k], StateOf(VoteAll(w, votes, objects[..k + 1]), objects[k].objectId)))
  }

  function Ids(objects: seq<FrameObject>): set<nat> {
    set k | 0 <= k < |objects| :: objects[k].objectId
  }

  function Restrict(votes: map<nat, VoteState>, ids: set<nat>): map<nat, VoteState> {
    map id | id in votes && id in ids :: votes[id]
  }

  /** The votes that a frame leaves behind: objects it does not show are forgotten. */
  ghost function VotesAfter(w: nat, votes: map<nat, VoteState>, objects: seq<FrameObject>): map<nat, VoteState> {
    Restrict(VoteAll(w, votes, objects), Ids(objects))
  }

  method ApplyLabelMajorityVote(configuredWindow: int, votes: map<nat, VoteState>, objects: seq<FrameObject>)
    returns (after: map<nat, VoteState>, relabelled: seq<FrameObject>)
    ensures after == VotesAfter(Window(configuredWindow), votes, objects)
    ensures relabelled == Relabelled(Window(configuredWindow), votes, objects)
  {
    hide Vote, VoteAll, Relabelled, Relabel, Ids;
    var w := Window(configuredWindow);
    after, relabelled := votes, [];
    var seen: set<nat> := {};
    NothingCounted(w, votes);
    for i := 0 to |objects|
      invariant after == VoteAll(w, votes, objects[..i])
      invariant relabelled == Relabelled(w, votes, objects[..i])
      invariant seen == Ids(objects[..i])
    {
      var current := objects[i];
      CountNext(w, votes, objects[..i], current);
      assert objects[..i + 1] == objects[..i] + [current];
      seen := seen + {current.objectId};
      var vote := CastVote(w, StateOf(after, current.objectId), current.labels);
      after := after[current.objectId := vote];
      relabelled := relabelled + [Relabel(current, vote)];
    }
    assert objects[..|objects|] == objects;
    after := EraseUnseen(after, seen);
  }

  lemma NothingCounted(w: nat, votes: map<nat, VoteState>)
    ensures VoteAll(w, votes, []) == votes && Relabelled(w, votes, []) == [] && Ids([]) == {}
  {
  }

  lemma CountNext(w: nat, votes: map<nat, VoteState>, done: seq<FrameObject>, o: FrameObject)
    ensures
      var vote := Vote(w, StateOf(VoteAll(w, votes, done), o.objectId), o.labels);
      VoteAll(w, votes, done + [o]) == VoteAll(w, votes, done)[o.objectId := vote]
      && Relabelled(w, votes, done + [o]) == Relabelled(w, votes, done) + [Relabel(o, vote)]
    ensures Ids(done + [o]) == Ids(done) + {o.objectId}
  {
    hide Vote, Relabel, Ids, VoteAll;
    var all := done + [o];
    VoteSnoc(w, votes, done, o);
    assert all[..|done| + 1] == all;
    forall k | 0 <= k < |done| ensures Relabelled(w, votes, all)[k] == Relabelled(w, votes, done)[k] {
      assert all[..k + 1] == done[..k + 1];
    }
    IdsSnoc(done, o);
  }

  lemma VoteSnoc(w: nat, votes: map<nat, VoteState>, done: seq<FrameObject>, o: FrameObject)
    ensures VoteAll(w, votes, done + [o]) == CountIn(w, VoteAll(w, votes, done), o)
  {
    hide CountIn;
    assert (done + [o])[..|done|] == done;
  }

  lemma IdsSnoc(done: seq<FrameObject>, o: FrameObject)
    ensures Ids(done + [o]) == Ids(done) + {o.objectId}
  {
    var all := done + [o];
    assert all[|done|].objectId == o.objectId;
    forall id | id in Ids(done) ensures id in Ids(all) {
      var k :| 0 <= k < |done| && done[k].objectId == id;
      assert all[k].objectId == id;
    }
  }

  method EraseUnseen(votes: map<nat, VoteState>, seen: set<nat>) returns (r: map<nat, VoteState>)
    ensures r == Restrict(votes, seen)
  {
    r := votes;
    var remaining := votes.Keys;
    while remaining != {}
      invariant remaining <= votes.Keys
      invariant forall id :: id in r <==> id in votes && (id in seen || id in remaining)
      invariant forall id :: id in r ==> r[id] == votes[id]
      decreases |remaining|
    {
      var id :| id in remaining;
      remaining := remaining - {id};
      if id !in seen {
        r := r - {id};
      }
    }
  }

  /** Voting changes labels only: the identity that the object-set signature covers is untouched. */
  lemma RelabelKeepsMembers(w: nat, votes: map<nat, VoteState>, objects: seq<FrameObject>)
    ensures Members(Relabelled(w, votes, objects)) == Members(objects)
  {
    hide VoteAll;
  }

  // ----- an object over the frames of a source -------------------------------------------------

  ghost function FrameRun(w: nat, frames: seq<seq<FrameObject>>): map<nat, VoteState> {
    if frames == [] then map[] else VotesAfter(w, FrameRun(w, frames[..|frames| - 1]), frames[|frames| - 1])
  }

  /** `at[f]` is the only place where object `id` occurs in frame `f`. */
  ghost predicate OncePerFrame(frames: seq<seq<FrameObject>>, at: seq<nat>, id: nat) {
    |at| == |frames| &&
    forall f :: 0 <= f < |frames| ==> OccursOnceAt(frames[f], at[f], id)
  }

  ghost predicate OccursOnceAt(objects: seq<FrameObject>, k: nat, id: nat) {
    k < |objects| && forall i :: 0 <= i < |objects| ==> (objects[i].objectId == id <==> i == k)
  }

  function LabelsSeen(frames: seq<seq<FrameObject>>, at: seq<nat>): (r: seq<seq<string>>)
    requires |at| == |frames| && forall f :: 0 <= f < |frames| ==> at[f] < |frames[f]|
    ensures |r| == |frames|
  {
    seq(|frames|, f requires 0 <= f < |frames| => frames[f][at[f]].labels)
  }

  lemma {:induction false} OthersDoNotVote(w: nat, votes: map<nat, VoteState>, objects: seq<FrameObject>, id: nat)
    requires forall i :: 0 <= i < |objects| ==> objects[i].objectId != id
    ensures StateOf(VoteAll(w, votes, objects), id) == StateOf(votes, id)
  {
    hide Vote;
    if objects != [] {
      OthersDoNotVote(w, votes, objects[..|objects| - 1], id);
    }
  }

  lemma {:induction false} OneVotePerFrame(w: nat, votes: map<nat, VoteState>, objects: seq<FrameObject>,
                                           k: nat, id: nat)
    requires OccursOnceAt(objects, k, id)
    ensures StateOf(VoteAll(w, votes, objects), id) == Vote(w, StateOf(votes, id), objects[k].labels)
  {
    hide Vote;
    var n := |objects| - 1;
    if k < n {
      OneVotePerFrame(w, votes, objects[..n], k, id);
    } else {
      OthersDoNotVote(w, votes, objects[..n], id);
    }
  }

  /** Objects vote independently: the state of an object shown once in every frame is its own run. */
  lemma {:induction false} ObjectsVoteIndependently(w: nat, frames: seq<seq<FrameObject>>, at: seq<nat>, id: nat)
    requires OncePerFrame(frames, at, id)
    ensures StateOf(FrameRun(w, frames), id) == ObjectRun(w, LabelsSeen(frames, at))
  {
    hide Vote, VoteAll;
    if frames != [] {
      var n := |frames| - 1;
      assert OncePerFrame(frames[..n], at[..n], id);
      ObjectsVoteIndependently(w, frames[..n], at[..n], id);
      var seen := LabelsSeen(frames, at);
      assert LabelsSeen(frames[..n], at[..n]) == seen[..n];
      OneVotePerFrame(w, FrameRun(w, frames[..n]), frames[n], at[n], id);
      assert frames[n][at[n]].objectId == id;
      assert id in Ids(frames[n]);
    }
  }

  /**
   * What is shown of an object with these observations. Before any election: no signature, and the labels it was
   * first seen with. After that the signature elected last, with the labels of the latest observation in the
   * electing window that carries it; only when that observation has no label at all, the first labels again.
   */
  ghost predicate ShowsElected(w: nat, seen: seq<seq<string>>, shown: FrameObject)
    requires seen != []
  {
    match LastElected(w, seen)
    case None => shown.labelSignature == "" && shown.labels == seen[0]
    case Some(s) =>
      shown.labelSignature == s
      && exists labels :: CommittedTo(w, seen, s, labels)
                          && shown.labels == if s == "" && labels == [] then seen[0] else labels
  }

  /** The last frame shows of an object that every frame shows once what its own observations elected. */
  lemma ShownLabels(w: nat, frames: seq<seq<FrameObject>>, at: seq<nat>, id: nat)
    requires w >= 1 && frames != [] && OncePerFrame(frames, at, id)
    ensures
      var n := |frames| - 1;
      ShowsElected(w, LabelsSeen(frames, at), Relabelled(w, FrameRun(w, frames[..n]), frames[n])[at[n]])
  {
    hide Vote, VoteAll, LastElected, CommittedTo, LabelSignature;
    var n, seen := |frames| - 1, LabelsSeen(frames, at);
    var objects := frames[n];
    var before := FrameRun(w, frames[..n]);
    assert OncePerFrame(frames[..n], at[..n], id);
    ObjectsVoteIndependently(w, frames[..n], at[..n], id);
    assert LabelsSeen(frames[..n], at[..n]) == seen[..n];
    assert OccursOnceAt(objects[..at[n] + 1], at[n], id) by {
      assert OccursOnceAt(objects, at[n], id);
    }
    OneVotePerFrame(w, before, objects[..at[n] + 1], at[n], id);
    CommittedIsLastElected(w, seen);
    CommittedLabels(w, seen);
  }
}
