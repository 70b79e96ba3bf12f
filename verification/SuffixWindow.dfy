/**
 * The window both evidence structures keep: the longest suffix of a history that is short enough
 * and in which nothing is too old. `at` gives the time stamp of a history element.
 */
module SuffixWindow {

  ghost predicate Live<T>(at: T -> int, h: seq<T>, now: int, ttl: int, limit: int) {
    && (limit > 0 ==> |h| <= limit)
    && forall k :: 0 <= k < |h| ==> now - at(h[k]) <= ttl
  }

  ghost predicate Sorted<T>(at: T -> int, h: seq<T>) {
    forall i, j :: 0 <= i < j < |h| ==> at(h[i]) <= at(h[j])
  }

  /** Drops from the front until the rest is live. */
  ghost function LiveSuffix<T>(at: T -> int, h: seq<T>, now: int, ttl: int, limit: int): (r: seq<T>)
    ensures |r| <= |h|
  {
    if h == [] || Live(at, h, now, ttl, limit) then h else LiveSuffix(at, h[1..], now, ttl, limit)
  }

  lemma {:induction false} LiveSuffixIsSuffix<T>(at: T -> int, h: seq<T>, now: int, ttl: int, limit: int)
    ensures var r := LiveSuffix(at, h, now, ttl, limit); r == h[|h| - |r|..]
  {
    if h != [] && !Live(at, h, now, ttl, limit) {
      LiveSuffixIsSuffix(at, h[1..], now, ttl, limit);
    }
  }

  /** LiveSuffix is live, and every longer suffix is not. */
  lemma {:induction false} LiveSuffixLongest<T>(at: T -> int, h: seq<T>, now: int, ttl: int, limit: int)
    ensures
      var r := LiveSuffix(at, h, now, ttl, limit);
      && r == h[|h| - |r|..]
      && Live(at, r, now, ttl, limit)
      && forall c :: 0 <= c < |h| - |r| ==> !Live(at, h[c..], now, ttl, limit)
  {
    LiveSuffixIsSuffix(at, h, now, ttl, limit);
    if h != [] && !Live(at, h, now, ttl, limit) {
      LiveSuffixLongest(at, h[1..], now, ttl, limit);
      var r := LiveSuffix(at, h, now, ttl, limit);
      forall c | 0 <= c < |h| - |r| ensures !Live(at, h[c..], now, ttl, limit) {
        if c == 0 {
          assert h[0..] == h;
        } else {
          assert h[1..][c - 1..] == h[c..];
        }
      }
    }
  }

  /** Forgetting the dead prefix early changes no later window: pruning may be lazy. */
  lemma {:induction false} LiveSuffixIncremental<T>(
    at: T -> int, h: seq<T>, more: seq<T>, now: int, later: int, ttl: int, limit: int)
    requires now <= later
    ensures LiveSuffix(at, h + more, later, ttl, limit)
         == LiveSuffix(at, LiveSuffix(at, h, now, ttl, limit) + more, later, ttl, limit)
  {
    if h != [] && !Live(at, h, now, ttl, limit) {
      LiveSuffixIncremental(at, h[1..], more, now, later, ttl, limit);
      StaysDead(at, h, more, now, later, ttl, limit);
      assert (h + more)[1..] == h[1..] + more;
    }
  }

  lemma StaysDead<T>(at: T -> int, h: seq<T>, more: seq<T>, now: int, later: int, ttl: int, limit: int)
    requires now <= later && !Live(at, h, now, ttl, limit)
    ensures !Live(at, h + more, later, ttl, limit)
  {
    if k :| 0 <= k < |h| && now - at(h[k]) > ttl {
      assert (h + more)[k] == h[k];
    }
  }

  /** With sorted stamps the front decides: this is the test of the pruning loops. */
  lemma FrontDecides<T>(at: T -> int, h: seq<T>, now: int, ttl: int, limit: int)
    requires h != [] && Sorted(at, h)
    ensures Live(at, h, now, ttl, limit) <==> (limit > 0 ==> |h| <= limit) && now - at(h[0]) <= ttl
  {
  }

  /** Which elements a sorted history keeps: the last `limit` ones that are no older than `ttl`. */
  lemma KeptIff<T>(at: T -> int, h: seq<T>, now: int, ttl: int, limit: int, k: nat)
    requires Sorted(at, h) && k < |h|
    ensures |h| - |LiveSuffix(at, h, now, ttl, limit)| <= k
       <==> (limit > 0 ==> |h| - k <= limit) && now - at(h[k]) <= ttl
  {
    LiveSuffixLongest(at, h, now, ttl, limit);
    var r := LiveSuffix(at, h, now, ttl, limit);
    var c := |h| - |r|;
    FrontDecides(at, h[k..], now, ttl, limit);
    if c <= k {
      assert r[k - c] == h[k];
    }
  }
}
