/**
 * The UUIDv7 generator (uuid_v7_generator.cpp): layout of section 5.7 of RFC 9562, with the counter method
 * of its section 6.2 in the 12 bits of rand_a.
 */
module UuidV7 {
  import opened TextOrder

  newtype byte = x: int | 0 <= x < 256

  const COUNTER_LIMIT := 0x1000
  const TIME_LIMIT := 0x1_0000_0000_0000

  // ----- layout ----------------------------------------------------------------------------------

  /** The low byte of `x` after dropping the digits below `unit`. */
  function Octet(x: nat, unit: nat): byte
    requires unit > 0
  {
    (x / unit % 256) as byte
  }

  /** The 16 bytes for a timestamp, a counter and the two 64-bit random draws. */
  function Layout(ts: nat, counter: nat, r1: nat, r2: nat): (b: seq<byte>)
    ensures |b| == 16
  {
    [Octet(ts, 0x100_0000_0000), Octet(ts, 0x1_0000_0000), Octet(ts, 0x100_0000),
     Octet(ts, 0x1_0000), Octet(ts, 0x100), Octet(ts, 1),
     VersionByte(counter), Octet(counter, 1), VariantByte(r1), Octet(r1, 1),
     Octet(r1, 0x1_0000), Octet(r1, 0x100_0000), Octet(r1, 0x1_0000_0000), Octet(r1, 0x100_0000_0000),
     Octet(r2, 1), Octet(r2, 0x100)]
  }

  /** Version 7 above the top four counter bits. */
  function VersionByte(counter: nat): byte {
    (0x70 + counter / 0x100 % 0x10) as byte
  }

  /** Variant binary 10 above six random bits. */
  function VariantByte(r1: nat): byte {
    (0x80 + r1 / 0x100 % 0x40) as byte
  }

  /** The version field is 7 and the variant field is binary 10 (sections 4.1 and 4.2 of RFC 9562). */
  lemma VersionAndVariant(ts: nat, counter: nat, r1: nat, r2: nat)
    ensures
      var b := Layout(ts, counter, r1, r2);
      b[6] / 16 == 7 && b[8] / 64 == 2
  {
  }

  /** Bytes read as one big-endian number. */
  function Value(b: seq<byte>): nat {
    if b == [] then 0 else Value(b[..|b| - 1]) * 256 + b[|b| - 1] as nat
  }

  lemma ValueTake(b: seq<byte>, n: nat)
    requires n < |b|
    ensures Value(b[..n + 1]) == Value(b[..n]) * 256 + b[n] as nat
  {
    assert b[..n + 1][..n] == b[..n];
  }

  /** The first 64 bits hold the timestamp, the version and the counter, most significant first. */
  lemma HeadValue(ts: nat, counter: nat, r1: nat, r2: nat)
    requires ts < TIME_LIMIT && counter < COUNTER_LIMIT
    ensures Value(Layout(ts, counter, r1, r2)[..8]) == ts * 0x1_0000 + 0x7000 + counter
  {
    hide Value, Octet;
    var b := Layout(ts, counter, r1, r2);
    ValueEmpty(b[..0]);
    ValueTake(b, 0);
    ValueTake(b, 1);
    ValueTake(b, 2);
    ValueTake(b, 3);
    ValueTake(b, 4);
    ValueTake(b, 5);
    ValueTake(b, 6);
    ValueTake(b, 7);
    TimeOctets(ts);
    CounterOctets(counter);
  }

  lemma TimeOctets(ts: nat)
    requires ts < TIME_LIMIT
    ensures
      ((((Octet(ts, 0x100_0000_0000) as nat * 256 + Octet(ts, 0x1_0000_0000) as nat) * 256
         + Octet(ts, 0x100_0000) as nat) * 256 + Octet(ts, 0x1_0000) as nat) * 256
       + Octet(ts, 0x100) as nat) * 256 + Octet(ts, 1) as nat == ts
  {
    DropOctets(ts);
    assert Octet(ts, 0x100_0000_0000) as nat == ts / 0x100_0000_0000;
    hide Octet;
  }

  /** Dropping one more octet is dividing once more by 256. */
  lemma DropOctets(x: nat)
    ensures x / 0x100_0000_0000 * 256 + Octet(x, 0x1_0000_0000) as nat == x / 0x1_0000_0000
    ensures x / 0x1_0000_0000 * 256 + Octet(x, 0x100_0000) as nat == x / 0x100_0000
    ensures x / 0x100_0000 * 256 + Octet(x, 0x1_0000) as nat == x / 0x1_0000
    ensures x / 0x1_0000 * 256 + Octet(x, 0x100) as nat == x / 0x100
    ensures x / 0x100 * 256 + Octet(x, 1) as nat == x
  {
    assert x / 0x1_0000_0000 / 256 == x / 0x100_0000_0000;
    assert x / 0x100_0000 / 256 == x / 0x1_0000_0000;
    assert x / 0x1_0000 / 256 == x / 0x100_0000;
    assert x / 0x100 / 256 == x / 0x1_0000;
  }

  lemma CounterOctets(counter: nat)
    requires counter < COUNTER_LIMIT
    ensures VersionByte(counter) as nat * 256 + Octet(counter, 1) as nat == 0x7000 + counter
  {
  }

  lemma ValueEmpty(b: seq<byte>)
    requires b == []
    ensures Value(b) == 0
  {
  }

  /**
   * The 62 bits after the variant are random: they are the low 14 bits and the 32 bits above bit 16 of the first
   * draw and the low 16 bits of the second, and every change of those bits shows.
   */
  lemma RandomTail(ts: nat, counter: nat, r1: nat, r2: nat)
    ensures
      var b := Layout(ts, counter, r1, r2);
      && (b[8] as nat - 0x80) * 256 + b[9] as nat == r1 % 0x4000
      && ((b[13] as nat * 256 + b[12] as nat) * 256 + b[11] as nat) * 256 + b[10] as nat
         == r1 / 0x1_0000 % 0x1_0000_0000
      && b[15] as nat * 256 + b[14] as nat == r2 % 0x1_0000
  {
    var b := Layout(ts, counter, r1, r2);
    assert b[8] == VariantByte(r1) && b[9] == Octet(r1, 1) && b[14] == Octet(r2, 1) && b[15] == Octet(r2, 0x100);
    assert b[10] == Octet(r1, 0x1_0000) && b[11] == Octet(r1, 0x100_0000);
    assert b[12] == Octet(r1, 0x1_0000_0000) && b[13] == Octet(r1, 0x100_0000_0000);
    hide Layout;
    LowBits(r1);
    MiddleBits(r1);
    SecondDraw(r2);
    hide Octet, VariantByte;
  }

  lemma LowBits(r1: nat)
    ensures (VariantByte(r1) as nat - 0x80) * 256 + Octet(r1, 1) as nat == r1 % 0x4000
  {
    FourteenBits(r1);
  }

  lemma MiddleBits(r1: nat)
    ensures
      ((Octet(r1, 0x100_0000_0000) as nat * 256 + Octet(r1, 0x1_0000_0000) as nat) * 256
       + Octet(r1, 0x100_0000) as nat) * 256 + Octet(r1, 0x1_0000) as nat == r1 / 0x1_0000 % 0x1_0000_0000
  {
    FourOctets(r1 / 0x1_0000);
    NestedOctets(r1);
  }

  lemma SecondDraw(r2: nat)
    ensures Octet(r2, 0x100) as nat * 256 + Octet(r2, 1) as nat == r2 % 0x1_0000
  {
    var a, b := r2 / 0x100, r2 / 0x1_0000;
    assert b == a / 256;
    TwoOctets(r2, a, b);
  }

  lemma TwoOctets(x: nat, a: nat, b: nat)
    requires a == x / 256 && b == a / 256 && b == x / 0x1_0000
    ensures a % 256 * 256 + x % 256 == x % 0x1_0000
  {
    assert x == a * 256 + x % 256 && a == b * 256 + a % 256;
    assert x == b * 0x1_0000 + x % 0x1_0000;
  }

  lemma FourOctets(x: nat)
    ensures
      ((x / 0x100_0000 % 256 * 256 + x / 0x1_0000 % 256) * 256 + x / 0x100 % 256) * 256 + x % 256 == x % 0x1_0000_0000
  {
    var a, b, c, d := x / 0x100, x / 0x1_0000, x / 0x100_0000, x / 0x1_0000_0000;
    assert b == a / 256 && c == b / 256 && d == c / 256;
    FoldOctets(x, a, b, c, d);
  }

  lemma FoldOctets(x: nat, a: nat, b: nat, c: nat, d: nat)
    requires a == x / 256 && b == a / 256 && c == b / 256 && d == c / 256 && d == x / 0x1_0000_0000
    ensures ((c % 256 * 256 + b % 256) * 256 + a % 256) * 256 + x % 256 == x % 0x1_0000_0000
  {
    assert x == a * 256 + x % 256 && a == b * 256 + a % 256 && b == c * 256 + b % 256 && c == d * 256 + c % 256;
    assert x == d * 0x1_0000_0000 + x % 0x1_0000_0000;
  }

  lemma NestedOctets(x: nat)
    ensures x / 0x1_0000 / 0x100 == x / 0x100_0000 && x / 0x1_0000 / 0x1_0000 == x / 0x1_0000_0000
    ensures x / 0x1_0000 / 0x100_0000 == x / 0x100_0000_0000
  {
  }

  /** Different leading bytes decide the comparison whatever follows. */
  lemma {:induction false} HeadDecides(a: seq<byte>, b: seq<byte>, n: nat)
    requires n <= |a| == |b| && Value(a[..n]) < Value(b[..n])
    ensures Value(a) < Value(b)
  {
    if n == |a| {
      assert a[..n] == a && b[..n] == b;
    } else {
      var m := |a| - 1;
      assert a[..m][..n] == a[..n] && b[..m][..n] == b[..n];
      HeadDecides(a[..m], b[..m], n);
    }
  }

  // ----- the generator ---------------------------------------------------------------------------

  /**
   * The clock readings one call takes: one, unless the counter is used up within the millisecond; then it
   * waits, reading until the clock shows something else than `last`.
   */
  ghost predicate Readings(last: nat, counter: nat, clock: seq<nat>) {
    clock != [] &&
    if clock[0] == last && counter + 1 >= COUNTER_LIMIT then
      |clock| >= 2 && clock[|clock| - 1] != last && forall k :: 0 <= k < |clock| - 1 ==> clock[k] == last
    else |clock| == 1
  }

  datatype Stamp = Stamp(ts: nat, counter: nat)

  /** The counter goes up within a millisecond and restarts at zero on a new one. */
  function NextStamp(s: Stamp, ts: nat): Stamp {
    Stamp(ts, if ts == s.ts then s.counter + 1 else 0)
  }

  datatype Call = Call(clock: seq<nat>, r1: nat, r2: nat)

  function LastReading(c: Call): nat {
    if c.clock == [] then 0 else c.clock[|c.clock| - 1]
  }

  /** The generator's two fields after `n` calls. */
  function StampAfter(calls: seq<Call>, n: nat): (s: Stamp)
    requires n <= |calls|
  {
    if n == 0 then Stamp(0, 0)
    else
      var before := StampAfter(calls, n - 1);
      var ts := LastReading(calls[n - 1]);
      NextStamp(before, ts)
  }

  ghost predicate ValidCalls(calls: seq<Call>) {
    forall k :: 0 <= k < |calls| ==> ReadsProperly(calls, k)
  }

  /** Call `k` takes exactly the clock readings that the state before it asks for. */
  ghost predicate ReadsProperly(calls: seq<Call>, k: nat)
    requires k < |calls|
  {
    var s := StampAfter(calls, k);
    Readings(s.ts, s.counter, calls[k].clock)
  }

  /** Every timestamp used fits the 48-bit field. */
  ghost predicate ClockInRange(calls: seq<Call>) {
    forall k :: 0 <= k < |calls| ==> LastReading(calls[k]) < TIME_LIMIT
  }

  /** The identifier that call `k` returns. */
  function Issued(calls: seq<Call>, k: nat): (b: seq<byte>)
    requires k < |calls|
    ensures |b| == 16
  {
    var s := StampAfter(calls, k + 1);
    Layout(s.ts, s.counter, calls[k].r1, calls[k].r2)
  }

  lemma {:induction false} EarlierStamps(calls: seq<Call>, c: Call, n: nat)
    requires n <= |calls|
    ensures StampAfter(calls + [c], n) == StampAfter(calls, n)
  {
    if n > 0 {
      EarlierStamps(calls, c, n - 1);
    }
  }

  lemma EarlierCalls(calls: seq<Call>, c: Call, k: nat)
    requires k < |calls|
    ensures ReadsProperly(calls + [c], k) <==> ReadsProperly(calls, k)
  {
    hide Readings, StampAfter;
    EarlierStamps(calls, c, k);
    assert (calls + [c])[k] == calls[k];
  }

  lemma OneMoreCall(calls: seq<Call>, c: Call)
    requires ValidCalls(calls)
    requires Readings(StampAfter(calls, |calls|).ts, StampAfter(calls, |calls|).counter, c.clock)
    ensures ValidCalls(calls + [c])
    ensures StampAfter(calls + [c], |calls| + 1) == NextStamp(StampAfter(calls, |calls|), LastReading(c))
  {
    hide Readings, ReadsProperly, StampAfter;
    var all := calls + [c];
    forall k: nat | k < |all| ensures ReadsProperly(all, k) {
      if k < |calls| {
        EarlierCalls(calls, c, k);
      } else {
        LastCall(calls, c);
      }
    }
    LastCall(calls, c);
  }

  lemma LastCall(calls: seq<Call>, c: Call)
    requires Readings(StampAfter(calls, |calls|).ts, StampAfter(calls, |calls|).counter, c.clock)
    ensures ReadsProperly(calls + [c], |calls|)
    ensures StampAfter(calls + [c], |calls| + 1) == NextStamp(StampAfter(calls, |calls|), LastReading(c))
  {
    hide Readings;
    EarlierStamps(calls, c, |calls|);
    assert (calls + [c])[|calls|] == c;
  }

  class Generator {
    var lastTimestampMs: nat
    var sequenceCounter: nat
    /** The calls made so far. */
    ghost var calls: seq<Call>

    ghost predicate Valid()
      reads this
    {
      ValidCalls(calls) && sequenceCounter < COUNTER_LIMIT
      && Stamp(lastTimestampMs, sequenceCounter) == StampAfter(calls, |calls|)
    }

    constructor ()
      ensures Valid() && calls == []
    {
      lastTimestampMs, sequenceCounter := 0, 0;
      calls := [];
    }

    method GenerateBytes(clock: seq<nat>, r1: nat, r2: nat) returns (b: array<byte>)
      requires Valid() && Readings(lastTimestampMs, sequenceCounter, clock)
      modifies this
      ensures Valid() && calls == old(calls) + [Call(clock, r1, r2)]
      ensures fresh(b) && b[..] == Issued(calls, |calls| - 1)
    {
      assert clock != [];
      hide ValidCalls, StampAfter, Readings, Layout;
      var ts := TakeStamp(clock);
      b := Fill(ts, sequenceCounter, r1, r2);
      OneMoreCall(calls, Call(clock, r1, r2));
      calls := calls + [Call(clock, r1, r2)];
    }

    /** The locked update of the timestamp and the counter, waiting out an exhausted millisecond. */
    method TakeStamp(clock: seq<nat>) returns (ts: nat)
      requires sequenceCounter < COUNTER_LIMIT && Readings(lastTimestampMs, sequenceCounter, clock)
      modifies this`lastTimestampMs, this`sequenceCounter
      ensures ts == lastTimestampMs == clock[|clock| - 1] && sequenceCounter < COUNTER_LIMIT
      ensures Stamp(lastTimestampMs, sequenceCounter)
           == NextStamp(old(Stamp(lastTimestampMs, sequenceCounter)), clock[|clock| - 1])
    {
      ts := clock[0];
      if ts == lastTimestampMs {
        sequenceCounter := (sequenceCounter + 1) % COUNTER_LIMIT;
        if sequenceCounter == 0 {
          var next := 1;
          ts := clock[next];
          while ts == lastTimestampMs
            invariant 1 <= next < |clock| && ts == clock[next]
            decreases |clock| - next
          {
            next := next + 1;
            ts := clock[next];
          }
          sequenceCounter := 0;
          lastTimestampMs := ts;
        }
      } else {
        lastTimestampMs := ts;
        sequenceCounter := 0;
      }
    }
  }

  method Fill(ts: nat, counter: nat, r1: nat, r2: nat) returns (b: array<byte>)
    requires counter < COUNTER_LIMIT
    ensures fresh(b) && b[..] == Layout(ts, counter, r1, r2)
  {
    hide Octet, VersionByte, VariantByte;
    b := new byte[16];
    b[0] := Octet(ts, 0x100_0000_0000);
    b[1] := Octet(ts, 0x1_0000_0000);
    b[2] := Octet(ts, 0x100_0000);
    b[3] := Octet(ts, 0x1_0000);
    b[4] := Octet(ts, 0x100);
    b[5] := Octet(ts, 1);
    var versionAndCounter := 0x7 * 0x1000 + counter % 0x1000;
    VersionField(counter);
    b[6] := Octet(versionAndCounter, 0x100);
    b[7] := Octet(versionAndCounter, 1);
    var variantAndRandom := 0x2 * 0x4000 + r1 % 0x4000;
    VariantField(r1);
    b[8] := Octet(variantAndRandom, 0x100);
    b[9] := Octet(variantAndRandom, 1);
    b[10] := Octet(r1, 0x1_0000);
    b[11] := Octet(r1, 0x100_0000);
    b[12] := Octet(r1, 0x1_0000_0000);
    b[13] := Octet(r1, 0x100_0000_0000);
    b[14] := Octet(r2, 1);
    b[15] := Octet(r2, 0x100);
  }

  lemma VersionField(counter: nat)
    ensures Octet(0x7 * 0x1000 + counter % 0x1000, 0x100) == VersionByte(counter)
    ensures Octet(0x7 * 0x1000 + counter % 0x1000, 1) == Octet(counter, 1)
  {
    TwelveBits(counter);
    TwelveBitOctets(counter % 0x1000);
  }

  lemma VariantField(r1: nat)
    ensures Octet(0x2 * 0x4000 + r1 % 0x4000, 0x100) == VariantByte(r1)
    ensures Octet(0x2 * 0x4000 + r1 % 0x4000, 1) == Octet(r1, 1)
  {
    FourteenBits(r1);
    FourteenBitOctets(r1 % 0x4000);
  }

  lemma TwelveBits(x: nat)
    ensures x % 0x1000 / 0x100 == x / 0x100 % 0x10 && x % 0x1000 % 256 == x % 256
  {
  }

  lemma FourteenBits(x: nat)
    ensures x % 0x4000 / 0x100 == x / 0x100 % 0x40 && x % 0x4000 % 256 == x % 256
  {
  }

  lemma TwelveBitOctets(m: nat)
    requires m < 0x1000
    ensures (0x7000 + m) / 0x100 % 256 == 0x70 + m / 0x100 && (0x7000 + m) % 256 == m % 256
  {
  }

  lemma FourteenBitOctets(m: nat)
    requires m < 0x4000
    ensures (0x8000 + m) / 0x100 % 256 == 0x80 + m / 0x100 && (0x8000 + m) % 256 == m % 256
  {
  }

  // ----- runs ------------------------------------------------------------------------------------

  lemma {:induction false} CounterBound(calls: seq<Call>, n: nat)
    requires ValidCalls(calls) && n <= |calls|
    ensures StampAfter(calls, n).counter < COUNTER_LIMIT
  {
    if n > 0 {
      CounterBound(calls, n - 1);
      var s := StampAfter(calls, n - 1);
      assert ReadsProperly(calls, n - 1);
    }
  }

  /** One identifier is greater than the one before it exactly when the clock was not set back. */
  lemma StepIncreasesIff(calls: seq<Call>, k: nat)
    requires ValidCalls(calls) && ClockInRange(calls) && k + 1 < |calls|
    ensures Value(Issued(calls, k)) < Value(Issued(calls, k + 1))
      <==> LastReading(calls[k]) <= LastReading(calls[k + 1])
  {
    hide Value, Layout, Readings;
    var s, t := StampAfter(calls, k + 1), StampAfter(calls, k + 2);
    CounterBound(calls, k + 1);
    CounterBound(calls, k + 2);
    assert s.ts == LastReading(calls[k]) < TIME_LIMIT && t.ts == LastReading(calls[k + 1]) < TIME_LIMIT;
    HeadValue(s.ts, s.counter, calls[k].r1, calls[k].r2);
    HeadValue(t.ts, t.counter, calls[k + 1].r1, calls[k + 1].r2);
    if s.ts <= t.ts {
      HeadDecides(Issued(calls, k), Issued(calls, k + 1), 8);
    } else {
      HeadDecides(Issued(calls, k + 1), Issued(calls, k), 8);
    }
  }

  ghost predicate ClockNeverSetBack(calls: seq<Call>) {
    forall k :: 0 <= k && k + 1 < |calls| ==> LastReading(calls[k]) <= LastReading(calls[k + 1])
  }

  lemma {:induction false} RunIncreases(calls: seq<Call>, i: nat, j: nat)
    requires ValidCalls(calls) && ClockInRange(calls) && ClockNeverSetBack(calls) && i < j < |calls|
    ensures Value(Issued(calls, i)) < Value(Issued(calls, j))
    decreases j
  {
    hide Value, Issued, ValidCalls, ClockInRange;
    StepIncreasesIff(calls, j - 1);
    assert LastReading(calls[j - 1]) <= LastReading(calls[j - 1 + 1]);
    if i < j - 1 {
      RunIncreases(calls, i, j - 1);
    }
  }

  /**
   * A run issues strictly increasing identifiers, as big-endian numbers, exactly when the clock is never
   * set back between calls; counter rollover does not break the order.
   */
  lemma IncreasingIff(calls: seq<Call>)
    requires ValidCalls(calls) && ClockInRange(calls)
    ensures ClockNeverSetBack(calls)
      <==> forall i, j :: 0 <= i < j < |calls| ==> Value(Issued(calls, i)) < Value(Issued(calls, j))
  {
    hide Value, Issued, ValidCalls, ClockInRange, LastReading;
    if ClockNeverSetBack(calls) {
      forall i, j | 0 <= i < j < |calls| ensures Value(Issued(calls, i)) < Value(Issued(calls, j)) {
        RunIncreases(calls, i, j);
      }
    }
    if forall i, j :: 0 <= i < j < |calls| ==> Value(Issued(calls, i)) < Value(Issued(calls, j)) {
      forall k | 0 <= k && k + 1 < |calls| ensures LastReading(calls[k]) <= LastReading(calls[k + 1]) {
        StepIncreasesIff(calls, k);
      }
    }
  }

  /** The same as text: the identifiers of such a run are issued in string order. */
  lemma TextsIncrease(calls: seq<Call>, i: nat, j: nat)
    requires ValidCalls(calls) && ClockInRange(calls) && ClockNeverSetBack(calls) && i < j < |calls|
    ensures Less(Text(Issued(calls, i)), Text(Issued(calls, j)))
  {
    hide Issued, Value, ValidCalls, ClockInRange, ClockNeverSetBack;
    RunIncreases(calls, i, j);
    TextOrderIsNumeric(Issued(calls, i), Issued(calls, j));
  }

  // ----- text form -------------------------------------------------------------------------------

  const HEX: string := "0123456789abcdef"

  function DashBefore(i: nat): string {
    if i == 4 || i == 6 || i == 8 || i == 10 then "-" else ""
  }

  function Hex(d: byte): char
    requires d < 16
  {
    HEX[d as int]
  }

  /** The text of the first `n` bytes. */
  function TextOf(b: seq<byte>, n: nat): string
    requires n <= |b|
  {
    if n == 0 then ""
    else TextOf(b, n - 1) + DashBefore(n - 1) + [Hex(b[n - 1] / 16)] + [Hex(b[n - 1] % 16)]
  }

  function Text(b: seq<byte>): string {
    TextOf(b, |b|)
  }

  method BytesToString(bytes: array<byte>) returns (result: string)
    requires bytes.Length == 16
    ensures result == Text(bytes[..])
  {
    result := "";
    for i := 0 to 16
      invariant result == TextOf(bytes[..], i)
    {
      if i == 4 || i == 6 || i == 8 || i == 10 {
        result := result + "-";
      }
      result := result + [HEX[(bytes[i] / 16) as int]];
      result := result + [HEX[(bytes[i] % 16) as int]];
    }
  }

  /** Where the two digits of byte `i` stand in the text. */
  function Offset(i: nat): nat {
    2 * i + (if i > 4 then 1 else 0) + (if i > 6 then 1 else 0) + (if i > 8 then 1 else 0) + (if i > 10 then 1 else 0)
      + |DashBefore(i)|
  }

  lemma {:induction false} DigitsAt(b: seq<byte>, n: nat, i: nat)
    requires i < n <= |b|
    ensures |TextOf(b, n)| == Offset(n) - |DashBefore(n)| && Offset(i) + 1 < |TextOf(b, n)|
    ensures TextOf(b, n)[Offset(i)] == Hex(b[i] / 16) && TextOf(b, n)[Offset(i) + 1] == Hex(b[i] % 16)
    ensures DashBefore(i) == "-" ==> TextOf(b, n)[Offset(i) - 1] == '-'
  {
    if n > 1 && i < n - 1 {
      DigitsAt(b, n - 1, i);
    } else if n > 1 {
      DigitsAt(b, n - 1, 0);
    } else {
      assert TextOf(b, 0) == "";
    }
  }

  function HexValue(c: char): int {
    if '0' <= c <= '9' then c as int - '0' as int
    else if 'a' <= c <= 'f' then c as int - 'a' as int + 10
    else -1
  }

  lemma HexValueOfHex(d: byte)
    requires d < 16
    ensures HexValue(Hex(d)) == d as int
  {
  }

  lemma HexOfHexValue(c: char)
    requires HexValue(c) >= 0
    ensures HexValue(c) < 16 && Hex(HexValue(c) as byte) == c
  {
  }

  datatype Parsed = Malformed | Bytes(bytes: seq<byte>)

  predicate WellFormed(text: string) {
    |text| == 36 && text[8] == '-' && text[13] == '-' && text[18] == '-' && text[23] == '-'
    && forall i :: 0 <= i < 16 ==>
      Offset(i) + 1 < 36 && HexValue(text[Offset(i)]) >= 0 && HexValue(text[Offset(i) + 1]) >= 0
  }

  /** Reads the lower-case 8-4-4-4-12 form. */
  function Parse(text: string): Parsed {
    if WellFormed(text) then Bytes(seq(16, i requires 0 <= i < 16 => ByteAt(text, i))) else Malformed
  }

  function ByteAt(text: string, i: nat): byte
    requires WellFormed(text) && i < 16
  {
    HexOfHexValue(text[Offset(i)]);
    HexOfHexValue(text[Offset(i) + 1]);
    (HexValue(text[Offset(i)]) * 16 + HexValue(text[Offset(i) + 1])) as byte
  }

  /** Parsing the text of any 16 bytes gives the bytes back. */
  lemma RoundTrip(b: seq<byte>)
    requires |b| == 16
    ensures Parse(Text(b)) == Bytes(b)
  {
    hide TextOf, Hex, HexValue;
    var text := Text(b);
    forall i: nat | i < 16
      ensures Offset(i) + 1 < |text| == 36 && HexValue(text[Offset(i)]) == (b[i] / 16) as int
      ensures HexValue(text[Offset(i) + 1]) == (b[i] % 16) as int
    {
      DigitsAt(b, 16, i);
      HexValueOfHex(b[i] / 16);
      HexValueOfHex(b[i] % 16);
    }
    DigitsAt(b, 16, 4);
    DigitsAt(b, 16, 6);
    DigitsAt(b, 16, 8);
    DigitsAt(b, 16, 10);
    assert WellFormed(text);
    forall i: nat | i < 16 ensures ByteAt(text, i) == b[i] {
    }
  }

  /** Conversely a text that parses is the text of its bytes: the two forms are in bijection. */
  lemma ParseExact(text: string)
    requires Parse(text).Bytes?
    ensures Text(Parse(text).bytes) == text
  {
    hide TextOf, Hex, HexValue;
    var b := Parse(text).bytes;
    var again := Text(b);
    forall i: nat | i < 16
      ensures Offset(i) + 1 < |again| == 36
      ensures again[Offset(i)] == text[Offset(i)] && again[Offset(i) + 1] == text[Offset(i) + 1]
    {
      DigitsAt(b, 16, i);
      HexOfHexValue(text[Offset(i)]);
      HexOfHexValue(text[Offset(i) + 1]);
      assert b[i] == ByteAt(text, i);
    }
    DigitsAt(b, 16, 4);
    DigitsAt(b, 16, 6);
    DigitsAt(b, 16, 8);
    DigitsAt(b, 16, 10);
    forall p: nat | p < 36 ensures again[p] == text[p] {
      var i := ByteOfPosition(p);
    }
  }

  /** The text has the form 8-4-4-4-12, with dashes there and lower-case hexadecimal digits everywhere else. */
  lemma TextShape(b: seq<byte>)
    requires |b| == 16
    ensures |Text(b)| == 36
    ensures forall p :: 0 <= p < 36 ==>
      if p in {8, 13, 18, 23} then Text(b)[p] == '-' else '0' <= Text(b)[p] <= '9' || 'a' <= Text(b)[p] <= 'f'
  {
    hide TextOf, Hex;
    RoundTrip(b);
    var text := Text(b);
    forall p: nat | p < 36
      ensures if p in {8, 13, 18, 23} then text[p] == '-' else '0' <= text[p] <= '9' || 'a' <= text[p] <= 'f'
    {
      var i := ByteOfPosition(p);
      assert HexValue(text[Offset(i)]) >= 0 && HexValue(text[Offset(i) + 1]) >= 0;
    }
  }

  /** Every position of the text is a dash or a digit of some byte. */
  lemma ByteOfPosition(p: nat) returns (i: nat)
    requires p < 36
    ensures i < 16 && (p == Offset(i) || p == Offset(i) + 1 || p == 8 || p == 13 || p == 18 || p == 23)
  {
    i := if p <= 8 then (if p == 8 then 0 else p / 2)
         else if p <= 13 then (if p == 13 then 0 else (p - 1) / 2)
         else if p <= 18 then (if p == 18 then 0 else (p - 2) / 2)
         else if p <= 23 then (if p == 23 then 0 else (p - 3) / 2)
         else (p - 4) / 2;
  }

  lemma HexMonotone(d: byte, e: byte)
    requires d < e < 16
    ensures Hex(d) < Hex(e)
  {
  }

  lemma {:induction false} SamePrefix(a: seq<byte>, b: seq<byte>, k: nat)
    requires k <= |a| && k <= |b| && a[..k] == b[..k]
    ensures TextOf(a, k) == TextOf(b, k)
  {
    if k > 0 {
      assert a[..k - 1] == a[..k][..k - 1] && b[..k - 1] == b[..k][..k - 1];
      assert a[k - 1] == a[..k][k - 1] && b[k - 1] == b[..k][k - 1];
      SamePrefix(a, b, k - 1);
    }
  }

  lemma {:induction false} TextPrefix(b: seq<byte>, k: nat, n: nat)
    requires k <= n <= |b|
    ensures TextOf(b, k) <= TextOf(b, n)
    decreases n
  {
    if k < n {
      TextPrefix(b, k, n - 1);
    }
  }

  lemma NextDigits(b: seq<byte>, k: nat)
    requires k < |b|
    ensures TextOf(b, k + 1) == TextOf(b, k) + DashBefore(k) + [Hex(b[k] / 16), Hex(b[k] % 16)]
  {
  }

  /** A smaller byte after equal ones makes the text smaller and the number smaller. */
  lemma SmallerByte(a: seq<byte>, b: seq<byte>, k: nat)
    requires k < |a| == |b| && a[..k] == b[..k] && a[k] < b[k]
    ensures Less(Text(a), Text(b)) && Value(a) < Value(b)
  {
    hide Value, Hex, Less, TextOf;
    assert Value(a[..k + 1]) < Value(b[..k + 1]) by {
      ValueTake(a, k);
      ValueTake(b, k);
    }
    HeadDecides(a, b, k + 1);
    SamePrefix(a, b, k);
    TextPrefix(a, k + 1, |a|);
    TextPrefix(b, k + 1, |b|);
    var head := TextOf(a, k) + DashBefore(k);
    NextDigits(a, k);
    NextDigits(b, k);
    FirstDigitDiffers(head, a[k], b[k], Text(a), Text(b));
  }

  lemma FirstDigitDiffers(head: string, x: byte, y: byte, s: string, t: string)
    requires x < y
    requires head + [Hex(x / 16), Hex(x % 16)] <= s && head + [Hex(y / 16), Hex(y % 16)] <= t
    ensures Less(s, t)
  {
    hide Hex, Less;
    var n := |head|;
    assert s[..n] == head == t[..n];
    assert s[n] == Hex(x / 16) && t[n] == Hex(y / 16) && s[n + 1] == Hex(x % 16) && t[n + 1] == Hex(y % 16);
    if x / 16 < y / 16 {
      HexMonotone(x / 16, y / 16);
      LessAtFirstDifference(s, t, n);
    } else {
      HexMonotone(x % 16, y % 16);
      assert s[..n + 1] == head + [s[n]] == t[..n + 1];
      LessAtFirstDifference(s, t, n + 1);
    }
  }

  lemma {:induction false} FirstDifference(a: seq<byte>, b: seq<byte>) returns (k: nat)
    requires |a| == |b| && a != b
    ensures k < |a| && a[..k] == b[..k] && a[k] != b[k]
  {
    if a[..|a| - 1] == b[..|a| - 1] {
      k := |a| - 1;
      assert a == a[..k] + [a[k]] && b == b[..k] + [b[k]];
    } else {
      k := FirstDifference(a[..|a| - 1], b[..|a| - 1]);
      assert a[..k] == a[..|a| - 1][..k] && b[..k] == b[..|a| - 1][..k];
    }
  }

  /** String order of the texts is numeric order of the bytes, for any two identifiers. */
  lemma TextOrderIsNumeric(a: seq<byte>, b: seq<byte>)
    requires |a| == |b|
    ensures Less(Text(a), Text(b)) <==> Value(a) < Value(b)
  {
    hide Value, Text, Less;
    if a == b {
      LessIrreflexive(Text(a));
    } else {
      var k := FirstDifference(a, b);
      if a[k] < b[k] {
        SmallerByte(a, b, k);
      } else {
        SmallerByte(b, a, k);
        if Less(Text(a), Text(b)) {
          LessTransitive(Text(a), Text(b), Text(a));
          LessIrreflexive(Text(a));
        }
      }
    }
  }
}
