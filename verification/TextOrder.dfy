/** String order, sorting and decimal text, as the handlers use them to build canonical signatures. */
module TextOrder {

  /** Strict lexicographic order, the order std::sort uses on std::string. */
  predicate Less(a: string, b: string) {
    if b == "" then false
    else if a == "" then true
    else a[0] < b[0] || (a[0] == b[0] && Less(a[1..], b[1..]))
  }

  lemma {:induction false} LessIrreflexive(a: string)
    ensures !Less(a, a)
  {
    if a != "" {
      LessIrreflexive(a[1..]);
    }
  }

  lemma {:induction false} LessTrichotomy(a: string, b: string)
    ensures a == b || Less(a, b) || Less(b, a)
  {
    if a != "" && b != "" && a[0] == b[0] {
      LessTrichotomy(a[1..], b[1..]);
      if a[1..] == b[1..] {
        assert a == [a[0]] + a[1..] == [b[0]] + b[1..] == b;
      }
    }
  }

  lemma {:induction false} LessTransitive(a: string, b: string, c: string)
    requires Less(a, b) && Less(b, c)
    ensures Less(a, c)
  {
    if a != "" && a[0] == b[0] == c[0] {
      LessTransitive(a[1..], b[1..], c[1..]);
    }
  }

  /** `not less` is transitive: the weak order behind sortedness. */
  lemma {:induction false} NotLessTransitive(a: string, b: string, c: string)
    requires !Less(b, a) && !Less(c, b)
    ensures !Less(c, a)
  {
    if Less(c, a) {
      LessTrichotomy(b, c);
      if b != c {
        LessTransitive(b, c, a);
      }
    }
  }

  /** A strict difference at position `k` after an equal prefix decides the order. */
  lemma {:induction false} LessAtFirstDifference(a: string, b: string, k: nat)
    requires k < |a| && k < |b| && a[..k] == b[..k] && a[k] < b[k]
    ensures Less(a, b)
  {
    if k > 0 {
      assert a[0] == a[..k][0] && b[0] == b[..k][0];
      assert a[1..][..k - 1] == a[..k][1..] && b[1..][..k - 1] == b[..k][1..];
      LessAtFirstDifference(a[1..], b[1..], k - 1);
    }
  }

  // ----- sorting ---------------------------------------------------------------------------

  ghost predicate IsSorted(s: seq<string>) {
    forall i, j :: 0 <= i < j < |s| ==> !Less(s[j], s[i])
  }

  function Insert(x: string, s: seq<string>): (r: seq<string>)
    ensures multiset(r) == multiset{x} + multiset(s)
  {
    if s == [] then [x]
    else if Less(s[0], x) then
      assert s == [s[0]] + s[1..];
      [s[0]] + Insert(x, s[1..])
    else [x] + s
  }

  function Sort(s: seq<string>): (r: seq<string>)
    ensures multiset(r) == multiset(s)
  {
    if s == [] then []
    else
      assert s == [s[0]] + s[1..];
      Insert(s[0], Sort(s[1..]))
  }

  lemma {:induction false} InsertSorted(x: string, s: seq<string>)
    requires IsSorted(s)
    ensures IsSorted(Insert(x, s))
  {
    if s != [] {
      if Less(s[0], x) {
        InsertSorted(x, s[1..]);
        var t := Insert(x, s[1..]);
        forall y | y in t
          ensures !Less(y, s[0])
        {
          assert y in multiset(t);
          if y == x {
            if Less(x, s[0]) {
              LessTransitive(s[0], x, s[0]);
              LessIrreflexive(s[0]);
            }
          } else {
            assert y in s[1..];
          }
        }
        forall k | 0 <= k < |t| ensures !Less(t[k], s[0]) { assert t[k] in t; }
      } else {
        forall k | 0 <= k < |s| ensures !Less(s[k], x) {
          if k > 0 {
            NotLessTransitive(x, s[0], s[k]);
          }
        }
      }
    }
  }

  lemma {:induction false} SortSorted(s: seq<string>)
    ensures IsSorted(Sort(s))
  {
    if s != [] {
      SortSorted(s[1..]);
      InsertSorted(s[0], Sort(s[1..]));
    }
  }

  /** Two sorted lists of the same strings are equal, so the sorting algorithm does not matter. */
  lemma {:induction false} SortedUnique(a: seq<string>, b: seq<string>)
    requires IsSorted(a) && IsSorted(b) && multiset(a) == multiset(b)
    ensures a == b
  {
    if a == [] {
      assert |multiset(b)| == 0;
    } else {
      FirstIsLeast(a, b);
      FirstIsLeast(b, a);
      LessTrichotomy(a[0], b[0]);
      SplitHead(a);
      SplitHead(b);
      SortedUnique(a[1..], b[1..]);
    }
  }

  lemma SplitHead<X>(s: seq<X>)
    requires s != []
    ensures s == [s[0]] + s[1..] && multiset(s[1..]) == multiset(s) - multiset{s[0]}
  {
    assert s == [s[0]] + s[1..];
  }

  lemma FirstIsLeast(a: seq<string>, b: seq<string>)
    requires IsSorted(a) && multiset(a) == multiset(b) && a != []
    ensures b != [] && !Less(b[0], a[0])
  {
    assert |multiset(b)| == |a|;
    assert b[0] in multiset(a);
    var i :| 0 <= i < |a| && a[i] == b[0];
    LessIrreflexive(a[0]);
  }

  lemma SortCanonical(a: seq<string>, b: seq<string>)
    ensures Sort(a) == Sort(b) <==> multiset(a) == multiset(b)
  {
    if multiset(a) == multiset(b) {
      SortSorted(a);
      SortSorted(b);
      SortedUnique(Sort(a), Sort(b));
    }
  }

  // ----- images of lists -----------------------------------------------------------------------

  function Map<X, Y>(f: X -> Y, s: seq<X>): (r: seq<Y>)
    ensures |r| == |s| && forall k :: 0 <= k < |r| ==> r[k] == f(s[k])
  {
    seq(|s|, i requires 0 <= i < |s| => f(s[i]))
  }

  lemma {:induction false} MapCount<X(!new), Y>(f: X -> Y, s: seq<X>, x: X)
    requires forall a, b :: f(a) == f(b) ==> a == b
    ensures multiset(Map(f, s))[f(x)] == multiset(s)[x]
  {
    if s != [] {
      MapCount(f, s[1..], x);
      assert s == [s[0]] + s[1..];
      assert Map(f, s) == [f(s[0])] + Map(f, s[1..]);
    }
  }

  /** An injective image loses no multiplicity. */
  lemma MapMultiset<X(!new), Y(!new)>(f: X -> Y, s: seq<X>, t: seq<X>)
    requires forall a, b :: f(a) == f(b) ==> a == b
    ensures multiset(Map(f, s)) == multiset(Map(f, t)) <==> multiset(s) == multiset(t)
  {
    if multiset(Map(f, s)) == multiset(Map(f, t)) {
      forall x ensures multiset(s)[x] == multiset(t)[x] {
        MapCount(f, s, x);
        MapCount(f, t, x);
      }
    }
    if multiset(s) == multiset(t) {
      MapPermuted(f, s, t);
    }
  }

  /** Any image of permuted lists is permuted. */
  lemma {:induction false} MapPermuted<X, Y>(f: X -> Y, s: seq<X>, t: seq<X>)
    requires multiset(s) == multiset(t)
    ensures multiset(Map(f, s)) == multiset(Map(f, t))
  {
    if s == [] {
      assert |multiset(t)| == 0;
    } else {
      var j := RemoveCommon(s, t);
      MapPermuted(f, s[..0] + s[1..], t[..j] + t[j + 1..]);
      MapRemoveAt(f, s, 0);
      MapRemoveAt(f, t, j);
    }
  }

  lemma RemoveCommon<X>(s: seq<X>, t: seq<X>) returns (j: nat)
    requires s != [] && multiset(s) == multiset(t)
    ensures j < |t| && t[j] == s[0]
    ensures multiset(s[..0] + s[1..]) == multiset(t[..j] + t[j + 1..])
  {
    assert s[0] in multiset(t);
    j :| 0 <= j < |t| && t[j] == s[0];
    RemoveAt(s, 0);
    RemoveAt(t, j);
  }

  lemma RemoveAt<X>(s: seq<X>, j: nat)
    requires j < |s|
    ensures multiset(s[..j] + s[j + 1..]) == multiset(s) - multiset{s[j]}
  {
    assert s == s[..j] + [s[j]] + s[j + 1..];
  }

  lemma MapCut<X, Y>(f: X -> Y, s: seq<X>, j: nat)
    requires j < |s|
    ensures Map(f, s[..j] + s[j + 1..]) == Map(f, s)[..j] + Map(f, s)[j + 1..]
  {
  }

  lemma MapRemoveAt<X, Y>(f: X -> Y, s: seq<X>, j: nat)
    requires j < |s|
    ensures multiset(Map(f, s)) == multiset{f(s[j])} + multiset(Map(f, s[..j] + s[j + 1..]))
  {
    RemoveAt(Map(f, s), j);
    MapCut(f, s, j);
  }

  // ----- joining and splitting ---------------------------------------------------------------

  /** Joins the parts with one separator character between neighbours. */
  function Join(parts: seq<string>, sep: char): string {
    if parts == [] then ""
    else if |parts| == 1 then parts[0]
    else parts[0] + [sep] + Join(parts[1..], sep)
  }

  /** The text before the first separator is determined by the whole. */
  lemma SplitFirst(a: string, b: string, c: string, d: string, sep: char)
    requires sep !in a && sep !in c
    requires a + [sep] + b == c + [sep] + d
    ensures a == c && b == d
  {
    var w, v := a + [sep] + b, c + [sep] + d;
    assert w[|a|] == sep && v[|c|] == sep;
    assert forall k :: 0 <= k < |a| ==> w[k] == a[k] && a[k] != sep;
    assert forall k :: 0 <= k < |c| ==> v[k] == c[k] && c[k] != sep;
    assert |a| == |c|;
    assert a == w[..|a|] && c == v[..|c|];
    assert b == w[|a| + 1..] && d == v[|c| + 1..];
  }

  /** The text after the last separator is determined by the whole. */
  lemma SplitLast(a: string, b: string, c: string, d: string, sep: char)
    requires sep !in b && sep !in d
    requires a + [sep] + b == c + [sep] + d
    ensures a == c && b == d
  {
    var w, v := a + [sep] + b, c + [sep] + d;
    assert w[|a|] == sep && v[|c|] == sep;
    assert forall k :: |a| < k < |w| ==> w[k] == b[k - |a| - 1] && w[k] != sep;
    assert forall k :: |c| < k < |v| ==> v[k] == d[k - |c| - 1] && v[k] != sep;
    assert |a| == |c|;
    assert a == w[..|a|] && c == v[..|c|];
    assert b == w[|a| + 1..] && d == v[|c| + 1..];
  }

  lemma {:induction false} JoinInjective(a: seq<string>, b: seq<string>, sep: char)
    requires a != [] && b != []
    requires forall k :: 0 <= k < |a| ==> sep !in a[k]
    requires forall k :: 0 <= k < |b| ==> sep !in b[k]
    requires Join(a, sep) == Join(b, sep)
    ensures a == b
  {
    assert |a| > 1 ==> Join(a, sep)[|a[0]|] == sep;
    assert |b| > 1 ==> Join(b, sep)[|b[0]|] == sep;
    if |a| > 1 && |b| > 1 {
      SplitFirst(a[0], Join(a[1..], sep), b[0], Join(b[1..], sep), sep);
      JoinInjective(a[1..], b[1..], sep);
      assert a == [a[0]] + a[1..] == [b[0]] + b[1..] == b;
    }
  }

  /** The joined text of the sorted parts is canonical: it identifies the multiset of the parts. */
  lemma SortedJoinExact(a: seq<string>, b: seq<string>, sep: char)
    requires a != [] && b != []
    requires forall k :: 0 <= k < |a| ==> sep !in a[k]
    requires forall k :: 0 <= k < |b| ==> sep !in b[k]
    ensures Join(Sort(a), sep) == Join(Sort(b), sep) <==> multiset(a) == multiset(b)
  {
    SortCanonical(a, b);
    SortKeeps(a, sep);
    SortKeeps(b, sep);
    if Join(Sort(a), sep) == Join(Sort(b), sep) {
      JoinInjective(Sort(a), Sort(b), sep);
    }
  }

  lemma SortKeeps(a: seq<string>, sep: char)
    requires forall k :: 0 <= k < |a| ==> sep !in a[k]
    ensures |Sort(a)| == |a| && forall k :: 0 <= k < |a| ==> sep !in Sort(a)[k]
  {
    var r := Sort(a);
    assert |multiset(r)| == |r| && |multiset(a)| == |a|;
    forall k | 0 <= k < |r| ensures sep !in r[k] {
      assert r[k] in multiset(a);
    }
  }

  // ----- decimal text ------------------------------------------------------------------------

  const DIGITS: string := "0123456789"

  function NatText(n: nat): (r: string)
    ensures r != ""
  {
    if n < 10 then [DIGITS[n]] else NatText(n / 10) + [DIGITS[n % 10]]
  }

  lemma {:induction false} NatTextDigits(n: nat)
    ensures forall k :: 0 <= k < |NatText(n)| ==> NatText(n)[k] in DIGITS
  {
    if n >= 10 {
      NatTextDigits(n / 10);
    }
  }

  function IntText(z: int): string {
    if z < 0 then "-" + NatText(-z) else NatText(z)
  }

  lemma {:induction false} NatTextInjective(a: nat, b: nat)
    requires NatText(a) == NatText(b)
    ensures a == b
  {
    assert NatText(a)[|NatText(a)| - 1] == DIGITS[a % 10];
    assert NatText(b)[|NatText(b)| - 1] == DIGITS[b % 10];
    assert a % 10 == b % 10 by { DigitInjective(a % 10, b % 10); }
    if a >= 10 && b >= 10 {
      assert NatText(a / 10) == NatText(a)[..|NatText(a)| - 1];
      assert NatText(b / 10) == NatText(b)[..|NatText(b)| - 1];
      NatTextInjective(a / 10, b / 10);
    }
  }

  lemma DigitInjective(a: nat, b: nat)
    requires a < 10 && b < 10 && DIGITS[a] == DIGITS[b]
    ensures a == b
  {
  }

  lemma IntTextInjective(a: int, b: int)
    requires IntText(a) == IntText(b)
    ensures a == b
  {
    NatTextDigits(if a < 0 then -a else a);
    NatTextDigits(if b < 0 then -b else b);
    assert (a < 0 <==> IntText(a)[0] == '-') && (b < 0 <==> IntText(b)[0] == '-');
    if a < 0 {
      assert IntText(a)[1..] == NatText(-a) && IntText(b)[1..] == NatText(-b);
      NatTextInjective(-a, -b);
    } else {
      NatTextInjective(a, b);
    }
  }

  /** Decimal text never contains a character outside digits and the minus sign. */
  lemma IntTextAvoids(z: int, c: char)
    requires c !in DIGITS && c != '-'
    ensures c !in IntText(z)
  {
    NatTextDigits(if z < 0 then -z else z);
    var n := NatText(if z < 0 then -z else z);
    forall k | 0 <= k < |n| ensures n[k] != c { assert n[k] in DIGITS; }
  }
}
