/** Greedy non-maximum suppression of the face parser, over exact reals. */
module Nms {
  import opened Boxes
  import opened TextOrder

  /** One candidate; `mask` names the heap buffer that the candidate owns. */
  datatype Detection = Detection(box: Box, confidence: real, mask: nat)

  const THRESHOLD: real := 0.45

  // ----- the stable sort by descending confidence ----------------------------------------------

  ghost predicate Descending(s: seq<Detection>) {
    forall i, j :: 0 <= i < j < |s| ==> s[i].confidence >= s[j].confidence
  }

  /** The candidates of one confidence, in list order. */
  function OfConfidence(s: seq<Detection>, c: real): seq<Detection> {
    if s == [] then []
    else OfConfidence(s[..|s| - 1], c) + (if s[|s| - 1].confidence == c then [s[|s| - 1]] else [])
  }

  ghost predicate SameWithinConfidence(s: seq<Detection>, r: seq<Detection>) {
    forall c :: OfConfidence(r, c) == OfConfidence(s, c)
  }

  /** `r` is a stable descending sort of `s`: equal confidences keep their order. */
  ghost predicate StableSorted(s: seq<Detection>, r: seq<Detection>) {
    Descending(r) && multiset(r) == multiset(s) && SameWithinConfidence(s, r)
  }

  function Place(r: seq<Detection>, x: Detection): seq<Detection> {
    if r == [] || r[|r| - 1].confidence >= x.confidence then r + [x]
    else Place(r[..|r| - 1], x) + [r[|r| - 1]]
  }

  function SortByConfidence(s: seq<Detection>): seq<Detection> {
    if s == [] then [] else Place(SortByConfidence(s[..|s| - 1]), s[|s| - 1])
  }

  lemma {:induction false} PlaceMultiset(r: seq<Detection>, x: Detection)
    ensures multiset(Place(r, x)) == multiset(r) + multiset{x}
  {
    if r != [] && r[|r| - 1].confidence < x.confidence {
      PlaceMultiset(r[..|r| - 1], x);
      assert r == r[..|r| - 1] + [r[|r| - 1]];
    }
  }

  lemma {:induction false} PlaceDescending(r: seq<Detection>, x: Detection)
    requires Descending(r)
    ensures Descending(Place(r, x))
  {
    if r != [] && r[|r| - 1].confidence < x.confidence {
      var front, last := r[..|r| - 1], r[|r| - 1];
      PlaceDescending(front, x);
      PlaceMultiset(front, x);
      var p := Place(front, x);
      forall i | 0 <= i < |p| ensures p[i].confidence >= last.confidence {
        assert p[i] in multiset(p);
        assert p[i] == x || p[i] in front;
      }
    }
  }

  lemma FilterSnoc(r: seq<Detection>, x: Detection, c: real)
    ensures OfConfidence(r + [x], c) == OfConfidence(r, c) + (if x.confidence == c then [x] else [])
  {
    assert (r + [x])[..|r|] == r;
  }

  lemma {:induction false} PlaceStable(r: seq<Detection>, x: Detection, c: real)
    ensures OfConfidence(Place(r, x), c) == OfConfidence(r + [x], c)
  {
    FilterSnoc(r, x, c);
    if r != [] && r[|r| - 1].confidence < x.confidence {
      var front, last := r[..|r| - 1], r[|r| - 1];
      PlaceStable(front, x, c);
      FilterSnoc(front, x, c);
      FilterSnoc(Place(front, x), last, c);
      assert r == front + [last];
      FilterSnoc(front, last, c);
    }
  }

  lemma {:induction false} SortMeans(s: seq<Detection>)
    ensures StableSorted(s, SortByConfidence(s))
  {
    if s != [] {
      var front, last := s[..|s| - 1], s[|s| - 1];
      assert s == front + [last];
      SortMeans(front);
      var r := SortByConfidence(front);
      PlaceDescending(r, last);
      PlaceMultiset(r, last);
      forall c ensures OfConfidence(Place(r, last), c) == OfConfidence(s, c) {
        PlaceStable(r, last, c);
        FilterSnoc(r, last, c);
        FilterSnoc(front, last, c);
      }
    }
  }

  lemma {:induction false} FilterMember(s: seq<Detection>, c: real)
    ensures forall k :: 0 <= k < |OfConfidence(s, c)| ==>
      OfConfidence(s, c)[k].confidence == c && OfConfidence(s, c)[k] in s
    ensures (exists k :: 0 <= k < |s| && s[k].confidence == c) ==> OfConfidence(s, c) != []
  {
    if s != [] {
      FilterMember(s[..|s| - 1], c);
      assert s == s[..|s| - 1] + [s[|s| - 1]];
      forall k | 0 <= k < |OfConfidence(s, c)| ensures OfConfidence(s, c)[k] in s {
        if k < |OfConfidence(s[..|s| - 1], c)| {
          assert OfConfidence(s, c)[k] in s[..|s| - 1];
        }
      }
    }
  }

  /** The last element of a descending list ends the list of its own confidence. */
  lemma LastOfFilter(a: seq<Detection>, b: seq<Detection>)
    requires Descending(a) && Descending(b) && a != []
    requires SameWithinConfidence(a, b)
    ensures b != [] && b[|b| - 1].confidence <= a[|a| - 1].confidence
  {
    var c := a[|a| - 1].confidence;
    FilterMember(a, c);
    FilterMember(b, c);
    assert OfConfidence(b, c) == OfConfidence(a, c) != [];
    var x := OfConfidence(b, c)[0];
    assert x.confidence == c && x in b;
  }

  /** Two descending lists with the same per-confidence lists are the same list. */
  lemma {:induction false} StableUnique(a: seq<Detection>, b: seq<Detection>)
    requires Descending(a) && Descending(b)
    requires SameWithinConfidence(a, b)
    ensures a == b
  {
    if a == [] {
      if b != [] {
        LastOfFilter(b, a);
      }
    } else {
      LastOfFilter(a, b);
      LastOfFilter(b, a);
      var frontA, frontB := a[..|a| - 1], b[..|b| - 1];
      SameLast(a, b);
      forall c ensures OfConfidence(frontA, c) == OfConfidence(frontB, c) {
        DropLast(a, b, c);
      }
      StableUnique(frontA, frontB);
      assert a == frontA + [a[|a| - 1]] && b == frontB + [b[|b| - 1]];
    }
  }

  lemma SameLast(a: seq<Detection>, b: seq<Detection>)
    requires a != [] && b != [] && a[|a| - 1].confidence == b[|b| - 1].confidence
    requires SameWithinConfidence(a, b)
    ensures a[|a| - 1] == b[|b| - 1]
  {
    var x, y := a[|a| - 1], b[|b| - 1];
    var c := x.confidence;
    var p, q := OfConfidence(a[..|a| - 1], c), OfConfidence(b[..|b| - 1], c);
    assert OfConfidence(a, c) == p + [x] && OfConfidence(b, c) == q + [y];
    assert (p + [x])[|p|] == x && (q + [y])[|q|] == y;
  }

  lemma DropLast(a: seq<Detection>, b: seq<Detection>, c: real)
    requires a != [] && b != [] && a[|a| - 1] == b[|b| - 1] && OfConfidence(a, c) == OfConfidence(b, c)
    ensures OfConfidence(a[..|a| - 1], c) == OfConfidence(b[..|b| - 1], c)
  {
    var x := a[|a| - 1];
    var p, q := OfConfidence(a[..|a| - 1], c), OfConfidence(b[..|b| - 1], c);
    if x.confidence == c {
      assert p == (p + [x])[..|p|] && q == (q + [x])[..|q|];
    } else {
      assert OfConfidence(a, c) == p + [] == p && OfConfidence(b, c) == q + [] == q;
    }
  }

  /** The three promises of a stable sort leave exactly one result. */
  lemma SortUnique(s: seq<Detection>, r: seq<Detection>)
    ensures StableSorted(s, r) <==> r == SortByConfidence(s)
  {
    SortMeans(s);
    if StableSorted(s, r) {
      forall c ensures OfConfidence(r, c) == OfConfidence(SortByConfidence(s), c) {
        assert OfConfidence(r, c) == OfConfidence(s, c);
      }
      StableUnique(r, SortByConfidence(s));
    }
  }

  // ----- greedy selection ----------------------------------------------------------------------

  predicate Clear(d: Detection, other: Detection) {
    Iou(d.box, other.box) <= THRESHOLD
  }

  /** The indices the greedy pass keeps. */
  function Picks(s: seq<Detection>): (picks: seq<nat>)
    ensures forall k :: 0 <= k < |picks| ==> picks[k] < |s|
  {
    if s == [] then []
    else
      var before := Picks(s[..|s| - 1]);
      if forall k :: 0 <= k < |before| ==> Clear(s[|s| - 1], s[before[k]]) then before + [|s| - 1] else before
  }

  function Select(s: seq<Detection>, picks: seq<nat>): (r: seq<Detection>)
    requires forall k :: 0 <= k < |picks| ==> picks[k] < |s|
    ensures |r| == |picks| && forall k :: 0 <= k < |r| ==> r[k] == s[picks[k]]
  {
    seq(|picks|, k requires 0 <= k < |picks| => s[picks[k]])
  }

  function Kept(s: seq<Detection>): seq<Detection> {
    Select(s, Picks(s))
  }

  function MaskOf(d: Detection): nat {
    d.mask
  }

  function Masks(s: seq<Detection>): seq<nat> {
    Map(MaskOf, s)
  }

  /** One more candidate: it is kept exactly when it is clear of everything kept so far. */
  lemma KeptSnoc(s: seq<Detection>, x: Detection)
    ensures Kept(s + [x]) ==
      if forall k :: 0 <= k < |Kept(s)| ==> Clear(x, Kept(s)[k]) then Kept(s) + [x] else Kept(s)
  {
    hide Clear;
    var t := s + [x];
    assert t[..|t| - 1] == s;
    var before := Picks(s);
    assert forall k :: 0 <= k < |before| ==> t[before[k]] == Kept(s)[k];
    assert Kept(t) == if Picks(t) == before then Kept(s) else Kept(s) + [x];
  }

  /** The greedy rule and nothing else decides which indices are kept. */
  lemma {:induction false} PicksGreedy(s: seq<Detection>, k: nat)
    requires k < |s|
    ensures k in Picks(s) <==> forall j :: j in Picks(s) && j < k ==> Clear(s[k], s[j])
  {
    hide Clear, Picks;
    var n := |s| - 1;
    PicksBefore(s);
    if k < n {
      PicksGreedy(s[..n], k);
    } else {
      LastPick(s);
    }
  }

  /** Indices before the last are picked as if the last were not there. */
  lemma PicksBefore(s: seq<Detection>)
    requires s != []
    ensures forall j: nat :: j < |s| - 1 ==> (j in Picks(s) <==> j in Picks(s[..|s| - 1]))
  {
    hide Clear;
  }

  lemma LastPick(s: seq<Detection>)
    requires s != []
    ensures
      var n := |s| - 1;
      n in Picks(s) <==> forall j :: j in Picks(s) && j < n ==> Clear(s[n], s[j])
  {
    hide Clear;
    var n := |s| - 1;
    var before := Picks(s[..n]);
    assert forall j :: j in before ==> j < n;
    if forall i :: 0 <= i < |before| ==> Clear(s[n], s[before[i]]) {
      assert Picks(s) == before + [n] && Picks(s)[|before|] == n;
      assert forall j :: j in Picks(s) && j < n ==> j in before;
    } else {
      var i :| 0 <= i < |before| && !Clear(s[n], s[before[i]]);
      assert Picks(s) == before && before[i] in Picks(s);
    }
  }

  lemma {:induction false} PicksIncreasing(s: seq<Detection>)
    ensures forall i, j :: 0 <= i < j < |Picks(s)| ==> Picks(s)[i] < Picks(s)[j]
  {
    hide Clear;
    if s != [] {
      PicksIncreasing(s[..|s| - 1]);
    }
  }

  /** Any set of indices that obeys the greedy rule is the set the loop keeps. */
  lemma {:induction false} GreedyUnique(s: seq<Detection>, chosen: set<nat>, k: nat)
    requires forall i :: i in chosen ==> i < |s|
    requires forall i :: 0 <= i < |s| ==> (i in chosen <==> forall j :: j in chosen && j < i ==> Clear(s[i], s[j]))
    ensures k in chosen <==> k in Picks(s)
    decreases k
  {
    hide Clear;
    if k < |s| {
      forall j: nat | j < k ensures j in chosen <==> j in Picks(s) {
        GreedyUnique(s, chosen, j);
      }
      PicksGreedy(s, k);
    }
  }

  // ----- the operation -------------------------------------------------------------------------

  /** After the candidates `done`: what is kept, and every mask either kept or freed, once. */
  ghost predicate Progress(done: seq<Detection>, out: seq<Detection>, freed: seq<nat>) {
    out == Kept(done) && multiset(Masks(out)) + multiset(freed) == multiset(Masks(done))
  }

  predicate ClearOf(d: Detection, out: seq<Detection>) {
    forall k :: 0 <= k < |out| ==> Clear(d, out[k])
  }

  lemma ProgressStep(done: seq<Detection>, out: seq<Detection>, freed: seq<nat>, d: Detection)
    requires Progress(done, out, freed)
    ensures Progress(done + [d], if ClearOf(d, out) then out + [d] else out,
                     if ClearOf(d, out) then freed else freed + [d.mask])
  {
    hide Clear, Picks, Kept, Map;
    KeptSnoc(done, d);
    MasksSnoc(done, d);
    MasksSnoc(out, d);
  }

  /** Sorts, keeps greedily, and frees the mask of every candidate it drops. */
  method NonMaximumSuppression(binfo: seq<Detection>) returns (out: seq<Detection>, freed: seq<nat>)
    ensures out == Kept(SortByConfidence(binfo))
    ensures multiset(Masks(out)) + multiset(freed) == multiset(Masks(binfo))
  {
    hide Progress, ClearOf, Picks, Kept, SortByConfidence, OfConfidence, Map;
    var sorted := SortByConfidence(binfo);
    out, freed := [], [];
    NothingKept();
    for i := 0 to |sorted|
      invariant Progress(sorted[..i], out, freed)
    {
      var keep := ClearOfAll(sorted[i], out);
      ProgressStep(sorted[..i], out, freed, sorted[i]);
      assert sorted[..i + 1] == sorted[..i] + [sorted[i]];
      if keep {
        out := out + [sorted[i]];
      } else {
        freed := freed + [sorted[i].mask];
      }
    }
    assert sorted[..|sorted|] == sorted;
    ProgressMeans(sorted, out, freed);
    SortMeans(binfo);
    MapPermuted(MaskOf, sorted, binfo);
  }

  lemma ProgressMeans(done: seq<Detection>, out: seq<Detection>, freed: seq<nat>)
    requires Progress(done, out, freed)
    ensures out == Kept(done) && multiset(Masks(out)) + multiset(freed) == multiset(Masks(done))
  {
  }

  lemma NothingKept()
    ensures Progress([], [], [])
  {
  }

  lemma MasksSnoc(s: seq<Detection>, d: Detection)
    ensures Masks(s + [d]) == Masks(s) + [d.mask]
  {
  }

  /** The inner loop: stops comparing at the first overlap above the threshold. */
  method ClearOfAll(candidate: Detection, out: seq<Detection>) returns (keep: bool)
    ensures keep <==> ClearOf(candidate, out)
  {
    keep := true;
    for j := 0 to |out|
      invariant keep <==> forall k :: 0 <= k < j ==> Clear(candidate, out[k])
    {
      if keep {
        var overlap := Iou(candidate.box, out[j].box);
        keep := overlap <= THRESHOLD;
        assert keep <==> Clear(candidate, out[j]);
      } else {
        break;
      }
    }
  }

  // ----- what the output means -----------------------------------------------------------------

  /** No two kept boxes overlap above the threshold, whichever is taken first. */
  lemma KeptApart(binfo: seq<Detection>, i: nat, j: nat)
    requires forall k :: 0 <= k < |binfo| ==> Proper(binfo[k].box)
    requires i < |Kept(SortByConfidence(binfo))| && j < |Kept(SortByConfidence(binfo))| && i != j
    ensures
      var out := Kept(SortByConfidence(binfo));
      Iou(out[i].box, out[j].box) <= THRESHOLD && Iou(out[j].box, out[i].box) <= THRESHOLD
  {
    hide Iou;
    var s := SortByConfidence(binfo);
    SortMeans(binfo);
    var early, late := if i < j then i else j, if i < j then j else i;
    PicksIncreasing(s);
    var p, q := Picks(s)[early], Picks(s)[late];
    PicksGreedy(s, q);
    assert p in Picks(s) && q in Picks(s) && p < q;
    assert Clear(s[q], s[p]);
    assert s[p] in multiset(s) && s[q] in multiset(s);
    assert s[p] in binfo && s[q] in binfo;
    IouSymmetric(s[p].box, s[q].box);
  }

  /** Every dropped candidate overlaps above the threshold with an earlier kept one of at least its confidence. */
  lemma DroppedOverlaps(binfo: seq<Detection>, k: nat)
    requires k < |SortByConfidence(binfo)| && k !in Picks(SortByConfidence(binfo))
    ensures
      var s := SortByConfidence(binfo);
      exists j :: 0 <= j < |Kept(s)| && Iou(s[k].box, Kept(s)[j].box) > THRESHOLD
                  && Kept(s)[j].confidence >= s[k].confidence
  {
    hide Iou;
    var s := SortByConfidence(binfo);
    SortMeans(binfo);
    PicksGreedy(s, k);
    var p :| p in Picks(s) && p < k && !Clear(s[k], s[p]);
    var j :| 0 <= j < |Picks(s)| && Picks(s)[j] == p;
    assert Kept(s)[j] == s[p];
  }

  /** The most confident candidate always survives. */
  lemma BestSurvives(binfo: seq<Detection>)
    requires binfo != []
    ensures
      var out := Kept(SortByConfidence(binfo));
      out != [] && out[0] in binfo && forall k :: 0 <= k < |binfo| ==> out[0].confidence >= binfo[k].confidence
  {
    hide Picks, SortByConfidence, OfConfidence, Clear;
    var s := SortByConfidence(binfo);
    SortMeans(binfo);
    assert |multiset(s)| == |multiset(binfo)|;
    assert s != [];
    FirstIsPicked(s);
    assert s[0] in multiset(binfo);
    forall k | 0 <= k < |binfo| ensures s[0].confidence >= binfo[k].confidence {
      assert binfo[k] in multiset(s);
      var i :| 0 <= i < |s| && s[i] == binfo[k];
    }
  }

  lemma FirstIsPicked(s: seq<Detection>)
    requires s != []
    ensures Picks(s) != [] && Picks(s)[0] == 0
  {
    hide Picks, Clear;
    PicksGreedy(s, 0);
    PicksIncreasing(s);
    var j :| 0 <= j < |Picks(s)| && Picks(s)[j] == 0;
    assert Picks(s)[0] <= Picks(s)[j];
  }

  lemma SelectDescending(s: seq<Detection>)
    requires Descending(s)
    ensures Descending(Kept(s))
  {
    PicksIncreasing(s);
    var out := Kept(s);
    forall i, j | 0 <= i < j < |out| ensures out[i].confidence >= out[j].confidence {
      assert Picks(s)[i] < Picks(s)[j];
    }
  }

  lemma {:induction false} KeptAgain(s: seq<Detection>)
    ensures Kept(Kept(s)) == Kept(s)
  {
    hide Clear;
    if s != [] {
      var front, x := s[..|s| - 1], s[|s| - 1];
      assert s == front + [x];
      KeptAgain(front);
      KeptSnoc(front, x);
      KeptSnoc(Kept(front), x);
    }
  }

  lemma SortOfSorted(s: seq<Detection>)
    requires Descending(s)
    ensures SortByConfidence(s) == s
  {
    SortUnique(s, s);
  }

  /** Suppressing a suppressed list changes nothing. */
  lemma Idempotent(binfo: seq<Detection>)
    ensures
      var out := Kept(SortByConfidence(binfo));
      Kept(SortByConfidence(out)) == out
  {
    var s := SortByConfidence(binfo);
    SortMeans(binfo);
    SelectDescending(s);
    SortOfSorted(Kept(s));
    KeptAgain(s);
  }

  // ----- order of the candidates ---------------------------------------------------------------

  ghost predicate DistinctConfidences(s: seq<Detection>) {
    forall i, j :: 0 <= i < j < |s| ==> s[i].confidence != s[j].confidence
  }

  /** With distinct confidences the order in which the network reports candidates does not matter. */
  lemma OrderIrrelevant(a: seq<Detection>, b: seq<Detection>)
    requires multiset(a) == multiset(b) && DistinctConfidences(a)
    ensures Kept(SortByConfidence(a)) == Kept(SortByConfidence(b))
  {
    var s, t := SortByConfidence(a), SortByConfidence(b);
    SortMeans(a);
    SortMeans(b);
    DescendingUnique(a, s, t);
  }

  lemma {:induction false} DescendingUnique(a: seq<Detection>, s: seq<Detection>, t: seq<Detection>)
    requires multiset(a) == multiset(s) == multiset(t) && DistinctConfidences(a)
    requires Descending(s) && Descending(t)
    ensures s == t
    decreases |s|
  {
    hide Descending, DistinctConfidences;
    SameLength(s, t);
    if s != [] {
      var rest := PeelLeast(a, s, t);
      DescendingUnique(rest, s[..|s| - 1], t[..|t| - 1]);
      assert s == s[..|s| - 1] + [s[|s| - 1]] && t == t[..|t| - 1] + [t[|t| - 1]];
    }
  }

  lemma SameLength(s: seq<Detection>, t: seq<Detection>)
    requires multiset(s) == multiset(t)
    ensures |s| == |t|
  {
    assert |multiset(s)| == |s| && |multiset(t)| == |t|;
  }

  /** The least confident candidate ends both lists; the rest of them is again the same candidates. */
  lemma PeelLeast(a: seq<Detection>, s: seq<Detection>, t: seq<Detection>) returns (rest: seq<Detection>)
    requires multiset(a) == multiset(s) == multiset(t) && DistinctConfidences(a) && s != [] && t != []
    requires Descending(s) && Descending(t)
    ensures s[|s| - 1] == t[|t| - 1] && Descending(s[..|s| - 1]) && Descending(t[..|t| - 1])
    ensures multiset(rest) == multiset(s[..|s| - 1]) == multiset(t[..|t| - 1]) && DistinctConfidences(rest)
  {
    hide Descending, DistinctConfidences;
    var i := SameLeast(a, s, t);
    RemoveAt(a, i);
    RestDistinct(a, i);
    Front(s);
    Front(t);
    rest := a[..i] + a[i + 1..];
  }

  lemma Front(s: seq<Detection>)
    requires s != [] && Descending(s)
    ensures Descending(s[..|s| - 1]) && multiset(s[..|s| - 1]) == multiset(s) - multiset{s[|s| - 1]}
  {
    assert s == s[..|s| - 1] + [s[|s| - 1]];
  }

  lemma RestDistinct(a: seq<Detection>, i: nat)
    requires i < |a| && DistinctConfidences(a)
    ensures DistinctConfidences(a[..i] + a[i + 1..])
  {
  }

  lemma SameLeast(a: seq<Detection>, s: seq<Detection>, t: seq<Detection>) returns (i: nat)
    requires multiset(a) == multiset(s) == multiset(t) && DistinctConfidences(a) && s != [] && t != []
    requires Descending(s) && Descending(t)
    ensures s[|s| - 1] == t[|t| - 1] && i < |a| && a[i] == s[|s| - 1]
  {
    var x, y := s[|s| - 1], t[|t| - 1];
    assert x in multiset(t) && y in multiset(s);
    assert x.confidence == y.confidence;
    assert x in multiset(a) && y in multiset(a);
    i :| 0 <= i < |a| && a[i] == x;
    var j :| 0 <= j < |a| && a[j] == y;
    assert i == j;
  }

  /** With a tie the first reported candidate wins, so the order can matter. */
  lemma TieKeepsTheFirst(p: Detection, q: Detection)
    requires p.confidence == q.confidence && Proper(p.box) && Proper(q.box) && Iou(p.box, q.box) > THRESHOLD
    ensures Kept(SortByConfidence([p, q])) == [p] && Kept(SortByConfidence([q, p])) == [q]
  {
    hide Iou;
    IouSymmetric(p.box, q.box);
    TwoTied(p, q);
    TwoTied(q, p);
  }

  lemma TwoTied(p: Detection, q: Detection)
    requires p.confidence == q.confidence && Iou(q.box, p.box) > THRESHOLD
    ensures Kept(SortByConfidence([p, q])) == [p]
  {
    hide Iou, SortByConfidence, Picks, Kept;
    SortOfSorted([p, q]);
    KeptOne(p);
    KeptSnoc([p], q);
    assert [p] + [q] == [p, q];
    assert !Clear(q, [p][0]);
  }

  lemma KeptOne(p: Detection)
    ensures Kept([p]) == [p]
  {
    hide Clear;
    KeptSnoc([], p);
    assert [] + [p] == [p];
  }
}
