/** Canonical object-set and label signatures of one frame (frame_events_probe_handler.cpp). */
module FrameSignature {
  import opened TextOrder
  import opened Boxes

  /** One tracked object of a frame, as the emit policy sees it. */
  datatype FrameObject = FrameObject(
    objectId: nat, classId: int, objectType: string, parentId: int,
    labels: seq<string>, labelSignature: string, box: Box)

  /** What the object-set signature is meant to identify about an object. */
  datatype Member = Member(objectId: nat, classId: int, objectType: string, parentId: int)

  function MemberOf(o: FrameObject): Member {
    Member(o.objectId, o.classId, o.objectType, o.parentId)
  }

  /** A member is the id, the class, the type and the parent of an object, and nothing else. */
  lemma MemberMeans(a: FrameObject, b: FrameObject)
    ensures MemberOf(a) == MemberOf(b) <==>
      a.objectId == b.objectId && a.classId == b.classId && a.objectType == b.objectType && a.parentId == b.parentId
  {
  }

  function Members(objects: seq<FrameObject>): seq<Member> {
    Map(MemberOf, objects)
  }

  function Part(m: Member): string {
    IntText(m.objectId) + ['|'] + (IntText(m.classId) + ['|'] + (m.objectType + ['|'] + IntText(m.parentId)))
  }

  function Parts(objects: seq<FrameObject>): seq<string> {
    Map(Part, Members(objects))
  }

  function Signature(objects: seq<FrameObject>): string {
    Join(Sort(Parts(objects)), ';')
  }

  method BuildSignature(objects: seq<FrameObject>) returns (joined: string)
    ensures joined == Signature(objects)
  {
    var parts: seq<string> := [];
    for i := 0 to |objects|
      invariant |parts| == i
      invariant forall k :: 0 <= k < i ==> parts[k] == Part(MemberOf(objects[k]))
    {
      var part := RenderPart(objects[i]);
      parts := parts + [part];
    }
    PartsFromPieces(objects, parts);
    joined := JoinLoop(Sort(parts), ';');
  }

  lemma PartsFromPieces(objects: seq<FrameObject>, parts: seq<string>)
    requires |parts| == |objects| && forall k :: 0 <= k < |parts| ==> parts[k] == Part(MemberOf(objects[k]))
    ensures parts == Parts(objects)
  {
  }

  method RenderPart(frameObject: FrameObject) returns (part: string)
    ensures part == Part(MemberOf(frameObject))
  {
    var left := IntText(frameObject.objectId) + "|" + IntText(frameObject.classId) + "|";
    part := left + frameObject.objectType + "|" + IntText(frameObject.parentId);
  }

  /** The separator-joining loop shared by both signatures. */
  method JoinLoop(parts: seq<string>, sep: char) returns (joined: string)
    ensures joined == Join(parts, sep)
  {
    joined := "";
    for i := 0 to |parts|
      invariant joined == Join(parts[..i], sep)
    {
      JoinSnoc(parts[..i], parts[i], sep);
      assert parts[..i + 1] == parts[..i] + [parts[i]];
      joined := (if i > 0 then joined + [sep] else joined) + parts[i];
    }
    assert parts[..|parts|] == parts;
  }

  lemma {:induction false} JoinSnoc(parts: seq<string>, last: string, sep: char)
    ensures Join(parts + [last], sep) == (if parts == [] then last else Join(parts, sep) + [sep] + last)
  {
    if |parts| > 1 {
      JoinSnoc(parts[1..], last, sep);
      assert (parts + [last])[1..] == parts[1..] + [last];
    } else if |parts| == 1 {
      assert (parts + [last])[1..] == [last];
    }
  }

  // ----- exactness of the object-set signature -------------------------------------------------

  ghost predicate SemicolonFree(objects: seq<FrameObject>) {
    forall k :: 0 <= k < |objects| ==> ';' !in objects[k].objectType
  }

  lemma PartInjective(m: Member, n: Member)
    requires Part(m) == Part(n)
    ensures m == n
  {
    IntTextAvoids(m.objectId, '|');
    IntTextAvoids(n.objectId, '|');
    IntTextAvoids(m.classId, '|');
    IntTextAvoids(n.classId, '|');
    IntTextAvoids(m.parentId, '|');
    IntTextAvoids(n.parentId, '|');
    var mr, nr := m.objectType + ['|'] + IntText(m.parentId), n.objectType + ['|'] + IntText(n.parentId);
    SplitFirst(IntText(m.objectId), IntText(m.classId) + ['|'] + mr,
               IntText(n.objectId), IntText(n.classId) + ['|'] + nr, '|');
    SplitFirst(IntText(m.classId), mr, IntText(n.classId), nr, '|');
    SplitLast(m.objectType, IntText(m.parentId), n.objectType, IntText(n.parentId), '|');
    IntTextInjective(m.objectId, n.objectId);
    IntTextInjective(m.classId, n.classId);
    IntTextInjective(m.parentId, n.parentId);
  }

  lemma PartSemicolonFree(m: Member)
    requires ';' !in m.objectType
    ensures ';' !in Part(m)
  {
    IntTextAvoids(m.objectId, ';');
    IntTextAvoids(m.classId, ';');
    IntTextAvoids(m.parentId, ';');
  }

  /** Equal signatures mean exactly the same multiset of (id, class, type, parent). */
  lemma SignatureExact(a: seq<FrameObject>, b: seq<FrameObject>)
    requires a != [] && b != [] && SemicolonFree(a) && SemicolonFree(b)
    ensures Signature(a) == Signature(b) <==> multiset(Members(a)) == multiset(Members(b))
  {
    forall k | 0 <= k < |a| ensures ';' !in Parts(a)[k] { PartSemicolonFree(MemberOf(a[k])); }
    forall k | 0 <= k < |b| ensures ';' !in Parts(b)[k] { PartSemicolonFree(MemberOf(b[k])); }
    SortedJoinExact(Parts(a), Parts(b), ';');
    forall m, n | Part(m) == Part(n) ensures m == n { PartInjective(m, n); }
    MapMultiset(Part, Members(a), Members(b));
  }

  /** A nonempty frame never has the empty signature that marks a reset source. */
  lemma SignatureNonempty(objects: seq<FrameObject>)
    requires objects != []
    ensures Signature(objects) != ""
  {
    var sorted := Sort(Parts(objects));
    assert |sorted| == |multiset(Parts(objects))| > 0;
    assert sorted[0] in multiset(Parts(objects));
    var k :| 0 <= k < |objects| && sorted[0] == Part(MemberOf(objects[k]));
  }

  /** Without the restriction on types the signature is not exact: two frames of different sizes collide. */
  lemma SignatureCollision(box: Box)
    ensures
      var one := [FrameObject(1, 0, "a|-1;2|0|b", -1, [], "", box)];
      var two := [FrameObject(1, 0, "a", -1, [], "", box), FrameObject(2, 0, "b", -1, [], "", box)];
      Signature(one) == Signature(two) && multiset(Members(one)) != multiset(Members(two))
  {
    var one := [FrameObject(1, 0, "a|-1;2|0|b", -1, [], "", box)];
    var two := [FrameObject(1, 0, "a", -1, [], "", box), FrameObject(2, 0, "b", -1, [], "", box)];
    CollidingParts();
    var p, q := Part(Member(1, 0, "a", -1)), Part(Member(2, 0, "b", -1));
    assert Members(two) == [Member(1, 0, "a", -1), Member(2, 0, "b", -1)];
    assert Parts(two) == [p, q];
    assert !Less([p, q][1], [p, q][0]);
    SortSorted([p, q]);
    SortedUnique(Sort([p, q]), [p, q]);
    assert [p, q][1..] == [q];
    assert Join([p, q], ';') == p + [';'] + q by { assert Join([q], ';') == q; }
    assert Members(one) == [Member(1, 0, "a|-1;2|0|b", -1)];
    assert Parts(one) == [Part(Member(1, 0, "a|-1;2|0|b", -1))];
    assert |multiset(Members(one))| == |Members(one)| == 1 && |multiset(Members(two))| == |Members(two)| == 2;
  }

  lemma CollidingParts()
    ensures
      var p, q := Part(Member(1, 0, "a", -1)), Part(Member(2, 0, "b", -1));
      p[0] < q[0] && Part(Member(1, 0, "a|-1;2|0|b", -1)) == p + [';'] + q
  {
    SmallNumbers();
    hide IntText;
    PartText("1", "a");
    PartText("2", "b");
    PartText("1", "a|-1;2|0|b");
    assert "1" + "|0|" + "a|-1;2|0|b" + "|-1" == ("1" + "|0|" + "a" + "|-1") + [';'] + ("2" + "|0|" + "b" + "|-1");
  }

  lemma SmallNumbers()
    ensures IntText(1) == "1" && IntText(0) == "0" && IntText(2) == "2" && IntText(-1) == "-1"
  {
  }

  lemma PartText(id: string, objectType: string)
    ensures id + ['|'] + ("0" + ['|'] + (objectType + ['|'] + "-1")) == id + "|0|" + objectType + "|-1"
  {
  }

  // ----- label signature -----------------------------------------------------------------------

  /** The label text before the first ':' (the whole label when there is none). */
  function LabelName(text: string): string {
    if text == "" || text[0] == ':' then "" else [text[0]] + LabelName(text[1..])
  }

  function LabelNames(labels: seq<string>): seq<string> {
    Map(LabelName, labels)
  }

  function LabelSignature(labels: seq<string>): string {
    Join(Sort(LabelNames(labels)), '|')
  }

  method BuildLabelSignature(labels: seq<string>) returns (joined: string)
    ensures joined == LabelSignature(labels)
  {
    if labels == [] {
      return "";
    }
    var parts := labels;
    for i := 0 to |parts|
      invariant |parts| == |labels|
      invariant forall k :: 0 <= k < i ==> parts[k] == LabelName(labels[k])
      invariant forall k :: i <= k < |parts| ==> parts[k] == labels[k]
    {
      var name := CutAtColon(parts[i]);
      parts := parts[i := name];
    }
    assert parts == LabelNames(labels);
    joined := JoinLoop(Sort(parts), '|');
  }

  method CutAtColon(text: string) returns (name: string)
    ensures name == LabelName(text)
  {
    var i := 0;
    while i < |text| && text[i] != ':'
      invariant 0 <= i <= |text|
      invariant LabelName(text) == text[..i] + LabelName(text[i..])
    {
      LabelNameStep(text, i);
      i := i + 1;
    }
    assert LabelName(text[i..]) == "";
    name := text[..i];
  }

  lemma LabelNameStep(text: string, i: nat)
    requires i < |text| && text[i] != ':'
    ensures text[..i] + LabelName(text[i..]) == text[..i + 1] + LabelName(text[i + 1..])
  {
    assert text[i..][1..] == text[i + 1..];
    assert LabelName(text[i..]) == [text[i]] + LabelName(text[i + 1..]);
  }

  /** LabelName is the longest colon-free prefix. */
  lemma {:induction false} LabelNameMeaning(text: string)
    ensures LabelName(text) <= text && ':' !in LabelName(text)
    ensures LabelName(text) == text || text[|LabelName(text)|] == ':'
  {
    if text != "" && text[0] != ':' {
      LabelNameMeaning(text[1..]);
      assert text == [text[0]] + text[1..];
    }
  }

  /** For nonempty label lists whose names avoid '|': equal signatures iff the same multiset of names. */
  lemma LabelSignatureExact(a: seq<string>, b: seq<string>)
    requires a != [] && b != []
    requires forall k :: 0 <= k < |a| ==> '|' !in LabelName(a[k])
    requires forall k :: 0 <= k < |b| ==> '|' !in LabelName(b[k])
    ensures LabelSignature(a) == LabelSignature(b) <==> multiset(LabelNames(a)) == multiset(LabelNames(b))
  {
    SortedJoinExact(LabelNames(a), LabelNames(b), '|');
  }
}
