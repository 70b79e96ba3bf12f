/** What the keys of the dedupe ledger stand for: the evidence files written so far. */
module EvidenceFiles {
  import opened TextOrder
  import opened FrameEvidenceCache
  import Ledger = RecentRefs

  /** The file `ref` as requested for one frame of one camera. */
  datatype Evidence = Evidence(route: Route, frameKey: string, ref: string)

  function EvidenceKey(e: Evidence): string {
    e.route.pipelineId + "|" + e.route.sourceName + "|" + IntText(e.route.sourceId) + "|" + e.frameKey + "|" + e.ref
  }

  /** No text before the ref contains the separator. */
  ghost predicate Separable(e: Evidence) {
    '|' !in e.route.pipelineId && '|' !in e.route.sourceName && '|' !in e.frameKey
  }

  lemma KeyParts(e: Evidence)
    ensures
      var frame := e.frameKey + ['|'] + e.ref;
      var camera := e.route.sourceName + ['|'] + (IntText(e.route.sourceId) + ['|'] + frame);
      EvidenceKey(e) == e.route.pipelineId + ['|'] + camera
  {
    hide IntText;
  }

  /** Within a frame the key always tells refs apart, and otherwise unless a text contains the separator. */
  lemma EvidenceKeyExact(a: Evidence, b: Evidence)
    ensures a.route == b.route && a.frameKey == b.frameKey ==> (EvidenceKey(a) == EvidenceKey(b) <==> a.ref == b.ref)
    ensures Separable(a) && Separable(b) ==> (EvidenceKey(a) == EvidenceKey(b) <==> a == b)
  {
    hide IntText, EvidenceKey;
    KeyParts(a);
    KeyParts(b);
    if EvidenceKey(a) == EvidenceKey(b) {
      if a.route == b.route && a.frameKey == b.frameKey {
        SameFrame(a, b);
      }
      if Separable(a) && Separable(b) {
        SeparableParts(a, b);
      }
    }
  }

  lemma SameFrame(a: Evidence, b: Evidence)
    requires EvidenceKey(a) == EvidenceKey(b) && a.route == b.route && a.frameKey == b.frameKey
    ensures a.ref == b.ref
  {
    hide IntText;
    var head := a.route.pipelineId + "|" + a.route.sourceName + "|" + IntText(a.route.sourceId) + "|" + a.frameKey
                + "|";
    assert EvidenceKey(a)[|head|..] == a.ref && EvidenceKey(b)[|head|..] == b.ref;
  }

  lemma SeparableParts(a: Evidence, b: Evidence)
    requires EvidenceKey(a) == EvidenceKey(b) && Separable(a) && Separable(b)
    ensures a == b
  {
    hide IntText, EvidenceKey;
    KeyParts(a);
    KeyParts(b);
    var frameA, frameB := a.frameKey + ['|'] + a.ref, b.frameKey + ['|'] + b.ref;
    var idA, idB := IntText(a.route.sourceId), IntText(b.route.sourceId);
    var cameraA := a.route.sourceName + ['|'] + (idA + ['|'] + frameA);
    var cameraB := b.route.sourceName + ['|'] + (idB + ['|'] + frameB);
    SplitFirst(a.route.pipelineId, cameraA, b.route.pipelineId, cameraB, '|');
    SplitFirst(a.route.sourceName, idA + ['|'] + frameA, b.route.sourceName, idB + ['|'] + frameB, '|');
    IntTextAvoids(a.route.sourceId, '|');
    IntTextAvoids(b.route.sourceId, '|');
    SplitFirst(idA, frameA, idB, frameB, '|');
    IntTextInjective(a.route.sourceId, b.route.sourceId);
    SplitFirst(a.frameKey, a.ref, b.frameKey, b.ref, '|');
  }

  /** With a separator in the frame key two different files can share a key. */
  lemma EvidenceKeyCollision(r: Route)
    ensures
      var a, b := Evidence(r, "f|g", "x.jpg"), Evidence(r, "f", "g|x.jpg");
      a != b && EvidenceKey(a) == EvidenceKey(b)
  {
    hide IntText;
    var a, b := Evidence(r, "f|g", "x.jpg"), Evidence(r, "f", "g|x.jpg");
    assert "f|g" + "|" + "x.jpg" == "f" + "|" + "g|x.jpg";
    var head := r.pipelineId + "|" + r.sourceName + "|" + IntText(r.sourceId) + "|";
    assert EvidenceKey(a) == head + ("f|g" + "|" + "x.jpg") && EvidenceKey(b) == head + ("f" + "|" + "g|x.jpg");
  }

  // ----- the ledger as a record of files -----------------------------------------------------------

  /** The marks of the ledger are the written files, in order. */
  ghost predicate Recorded(written: seq<Evidence>, trace: seq<Ledger.Op>) {
    |written| == |Ledger.Marks(trace)|
    && forall i :: 0 <= i < |written| ==> Ledger.Marks(trace)[i].key == EvidenceKey(written[i])
  }

  lemma RecordedTest(written: seq<Evidence>, trace: seq<Ledger.Op>, op: Ledger.Op)
    requires Recorded(written, trace) && op.TestOp?
    ensures Recorded(written, trace + [op])
  {
    hide EvidenceKey;
    assert (trace + [op])[..|trace|] == trace;
  }

  lemma RecordedMark(written: seq<Evidence>, trace: seq<Ledger.Op>, e: Evidence, at: int)
    requires Recorded(written, trace)
    ensures Recorded(written + [e], trace + [Ledger.MarkOp(Ledger.Mark(EvidenceKey(e), at))])
  {
    hide EvidenceKey;
    var op := Ledger.MarkOp(Ledger.Mark(EvidenceKey(e), at));
    assert (trace + [op])[..|trace|] == trace;
  }

  /** The file was written, or one was whose key is the same because a text contains the separator. */
  ghost predicate HasFile(written: seq<Evidence>, e: Evidence) {
    exists i :: 0 <= i < |written| && Stands(written[i], e)
  }

  ghost predicate Stands(file: Evidence, e: Evidence) {
    file == e || (EvidenceKey(file) == EvidenceKey(e) && !(Separable(file) && Separable(e)))
  }

  lemma StandsIff(file: Evidence, e: Evidence)
    ensures Stands(file, e) <==> EvidenceKey(file) == EvidenceKey(e)
  {
    hide EvidenceKey, Separable;
    EvidenceKeyExact(file, e);
  }

  lemma HasFileGrows(written: seq<Evidence>, longer: seq<Evidence>, e: Evidence)
    requires written <= longer && HasFile(written, e)
    ensures HasFile(longer, e)
  {
    hide Stands;
    var i :| 0 <= i < |written| && Stands(written[i], e);
    assert longer[i] == written[i];
  }

  lemma {:induction false} MarksPrefix(trace: seq<Ledger.Op>, n: nat)
    requires n <= |trace|
    ensures Ledger.Marks(trace[..n]) <= Ledger.Marks(trace)
    ensures n < |trace| && trace[n].MarkOp? ==> trace[n].mark in Ledger.Marks(trace)
    decreases |trace|
  {
    if n < |trace| {
      var front := trace[..|trace| - 1];
      assert front[..n] == trace[..n];
      if n < |front| {
        MarksPrefix(front, n);
      } else {
        assert front == trace[..n];
      }
    } else {
      assert trace[..n] == trace;
    }
  }

  lemma MarkedIsWritten(written: seq<Evidence>, trace: seq<Ledger.Op>, n: nat, e: Evidence)
    requires Recorded(written, trace) && n < |trace| && trace[n].MarkOp? && trace[n].mark.key == EvidenceKey(e)
    ensures HasFile(written, e)
  {
    hide EvidenceKey, Stands;
    MarksPrefix(trace, n);
    var i :| 0 <= i < |Ledger.Marks(trace)| && Ledger.Marks(trace)[i] == trace[n].mark;
    StandsIff(written[i], e);
  }

  /** A test that hits means that the file was written before. */
  lemma HitIsWritten(cfg: Ledger.Config, written: seq<Evidence>, trace: seq<Ledger.Op>, n: nat, e: Evidence)
    requires Recorded(written, trace) && Ledger.Monotone(trace) && Ledger.Disciplined(cfg, trace)
    requires n < |trace| && trace[n].TestOp? && trace[n].key == EvidenceKey(e)
    requires Ledger.TestsRecent(cfg, Ledger.Run(cfg, trace[..n]), trace[n].key, trace[n].now)
    ensures HasFile(written, e)
  {
    hide EvidenceKey, Stands, Ledger.Prune, Ledger.Run, Ledger.AfterMiss;
    var before := trace[..n];
    PrefixDisciplined(cfg, trace, n);
    Ledger.RecentIff(cfg, before, trace[n].key, trace[n].now);
    var i :| Ledger.IsLastMark(Ledger.Marks(before), trace[n].key, i);
    MarksPrefix(trace, n);
    StandsIff(written[i], e);
  }

  lemma PrefixDisciplined(cfg: Ledger.Config, trace: seq<Ledger.Op>, n: nat)
    requires n <= |trace| && Ledger.Monotone(trace) && Ledger.Disciplined(cfg, trace)
    ensures Ledger.Monotone(trace[..n]) && Ledger.Disciplined(cfg, trace[..n])
    ensures n > 0 && n < |trace| ==> Ledger.TimeOf(trace[n - 1]) <= Ledger.TimeOf(trace[n])
  {
    hide Ledger.TestsRecent, Ledger.Run;
    var before := trace[..n];
    forall j | 0 <= j < n && before[j].MarkOp? ensures Ledger.AfterMiss(cfg, before, j) {
      assert Ledger.AfterMiss(cfg, trace, j);
      assert before[..j - 1] == trace[..j - 1];
    }
  }

  /** File `i` is the last one written for `e`. */
  ghost predicate LastWritten(written: seq<Evidence>, e: Evidence, i: int) {
    0 <= i < |written| && written[i] == e && forall j :: i < j < |written| ==> written[j] != e
  }

  /**
   * When no text contains the separator, a file tests as recent exactly when this very file was written within the
   * time to live and among the last `limit` files.
   */
  lemma FileRecentIff(cfg: Ledger.Config, written: seq<Evidence>, trace: seq<Ledger.Op>, e: Evidence, now: int)
    requires cfg.ttl > 0 && Recorded(written, trace) && Ledger.Monotone(trace) && Ledger.Disciplined(cfg, trace)
    requires trace != [] ==> Ledger.TimeOf(trace[|trace| - 1]) <= now
    requires Separable(e) && forall i :: 0 <= i < |written| ==> Separable(written[i])
    ensures Ledger.TestsRecent(cfg, Ledger.Run(cfg, trace), EvidenceKey(e), now) <==>
      exists i :: LastWritten(written, e, i)
                  && (cfg.limit > 0 ==> |written| - i <= cfg.limit) && now - Ledger.Marks(trace)[i].at <= cfg.ttl
  {
    hide EvidenceKey, Separable, Ledger.TestsRecent, Ledger.Run, Ledger.Disciplined, Ledger.Monotone;
    var marks := Ledger.Marks(trace);
    Ledger.RecentIff(cfg, trace, EvidenceKey(e), now);
    forall i | 0 <= i < |written| ensures EvidenceKey(written[i]) == EvidenceKey(e) <==> written[i] == e {
      EvidenceKeyExact(written[i], e);
    }
    forall i: int ensures LastWritten(written, e, i) <==> Ledger.IsLastMark(marks, EvidenceKey(e), i) {
    }
  }

  /** No file is written twice within the time to live, unless at least `limit` other files came in between. */
  lemma NeverWrittenTwice(cfg: Ledger.Config, written: seq<Evidence>, trace: seq<Ledger.Op>, i: nat, j: nat)
    requires cfg.ttl > 0 && Recorded(written, trace) && Ledger.Monotone(trace) && Ledger.Disciplined(cfg, trace)
    requires i < j < |written| && written[i] == written[j]
    ensures Ledger.Marks(trace)[j].at - Ledger.Marks(trace)[i].at > cfg.ttl || (cfg.limit > 0 && j - i - 1 >= cfg.limit)
  {
    hide EvidenceKey, Ledger.Disciplined, Ledger.Monotone;
    Ledger.NeverEncodedTwice(cfg, trace, i, j);
  }
}
