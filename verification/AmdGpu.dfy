/** AMD SMI: firmware-support latches, and xGMI link counters turned into bytes per gather. */
module AmdGpu {
  import opened Text
  import opened Reals
  import opened Clock

  // ---------- support latches ----------

  datatype ReadStatus = Ok | Unsupported | Error

  /** One feature of the firmware: on from the start, off for good once the firmware refuses it. */
  class FirmwareSupport {
    var supported: bool
    ghost var logs: nat

    ghost predicate Valid()
      reads this
    {
      logs == if supported then 0 else 1
    }

    constructor ()
      ensures Valid() && supported
    {
      supported, logs := true, 0;
    }

    method Unsupported()
      requires Valid()
      modifies this
      ensures Valid() && !supported
    {
      if supported {
        logs := logs + 1;
        supported := false;
      }
    }
  }

  /** One call guarded by its latch; `read` says whether it was made, `ok` whether its answer is used. */
  method Gather(support: FirmwareSupport, reply: ReadStatus) returns (read: bool, ok: bool)
    requires support.Valid()
    modifies support
    ensures support.Valid()
    ensures read == old(support.supported)
    ensures ok <==> read && reply == Ok
    ensures support.supported == SupportedAfter(old(support.supported), reply)
  {
    read, ok := false, false;
    if !support.supported {
      return;
    }
    read := true;
    match reply {
      case Ok => ok := true;
      case Unsupported => support.Unsupported();
      case Error =>
    }
  }

  function SupportedAfter(supported: bool, reply: ReadStatus): bool {
    supported && reply != Unsupported
  }

  /** The latch after the first n gathers. */
  function LatchAfter(replies: seq<ReadStatus>, n: nat): bool
    requires n <= |replies|
  {
    n == 0 || SupportedAfter(LatchAfter(replies, n - 1), replies[n - 1])
  }

  /** How often the call was really made in the first n gathers. */
  function CallsMade(replies: seq<ReadStatus>, n: nat): nat
    requires n <= |replies|
  {
    if n == 0 then 0 else CallsMade(replies, n - 1) + if LatchAfter(replies, n - 1) then 1 else 0
  }

  /** The first reply that said Unsupported, or n. */
  function FirstUnsupported(replies: seq<ReadStatus>, n: nat): (f: nat)
    requires n <= |replies|
    ensures f <= n && (f < n ==> replies[f] == Unsupported)
    ensures forall i :: 0 <= i < f ==> replies[i] != Unsupported
  {
    if n == 0 then 0
    else
      var f := FirstUnsupported(replies, n - 1);
      if f < n - 1 || replies[n - 1] == Unsupported then f else n
  }

  /** Over any replies: off exactly when some reply said Unsupported, so an error never latches; and no
      call is made after the first such reply. */
  lemma {:induction false} LatchesOnceForGood(replies: seq<ReadStatus>, n: nat)
    requires n <= |replies|
    ensures var f := FirstUnsupported(replies, n);
            && (LatchAfter(replies, n) <==> f == n)
            && CallsMade(replies, n) == if f == n then n else f + 1
  {
    if n > 0 {
      LatchesOnceForGood(replies, n - 1);
    }
  }

  // ---------- link sums ----------

  /** The links that are populated, added up modulo 2^64. */
  function LinkSum(arr: seq<u64>): u64 {
    if arr == [] then 0
    else
      var last := arr[|arr| - 1];
      if last == U64 - 1 then LinkSum(arr[..|arr| - 1]) else (LinkSum(arr[..|arr| - 1]) + last) % U64
  }

  lemma LinkSumAppend(arr: seq<u64>, x: u64)
    ensures LinkSum(arr + [x])
            == if x == 0xFFFF_FFFF_FFFF_FFFF then LinkSum(arr) else (LinkSum(arr) + x) % U64
  {
    assert (arr + [x])[..|arr|] == arr;
  }

  /** A populated link alone sums to itself, an unpopulated one (all ones) to nothing. */
  lemma OneLink(x: u64)
    ensures LinkSum([]) == 0
    ensures LinkSum([x]) == if x == 0xFFFF_FFFF_FFFF_FFFF then 0 else x
  {
    LinkSumAppend([], x);
    assert [] + [x] == [x];
  }

  /** The sum of a table of links is the wrapped sum of its parts: with the sums of single links, every
      populated link counts exactly once. */
  lemma {:induction false} LinksAddUp(a: seq<u64>, b: seq<u64>)
    ensures LinkSum(a + b) == (LinkSum(a) + LinkSum(b)) % U64
  {
    hide LinkSum;
    if b == [] {
      OneLink(0);
      assert a + b == a;
    } else {
      var init, x := b[..|b| - 1], b[|b| - 1];
      LinksAddUp(a, init);
      LinkSumAppend(a + init, x);
      LinkSumAppend(init, x);
      assert a + b == a + init + [x] && b == init + [x];
      WrappedTwice(LinkSum(a), LinkSum(init), x);
    }
  }

  lemma WrappedTwice(p: u64, q: u64, x: u64)
    ensures ((p + q) % U64 + x) % U64 == (p + (q + x) % U64) % U64
  {
  }

  method SumXgmiKb(support: FirmwareSupport, arr: seq<u64>) returns (total: u64)
    requires support.Valid()
    modifies support
    ensures support.Valid() && total == LinkSum(arr)
    ensures support.supported == (old(support.supported) && U64 - 1 !in arr)
  {
    total := 0;
    for i := 0 to |arr|
      invariant support.Valid() && total == LinkSum(arr[..i])
      invariant support.supported == (old(support.supported) && U64 - 1 !in arr[..i])
    {
      assert arr[..i + 1][..i] == arr[..i] && arr[..i + 1] == arr[..i] + [arr[i]];
      if arr[i] == U64 - 1 {
        support.Unsupported();
        continue;
      }
      total := (total + arr[i]) % U64;
    }
    assert arr[..|arr|] == arr;
  }

  // ---------- rates ----------

  const BYTES_CONVERSION := 60

  /** Steady clock in nanoseconds, and the two link sums in KB. */
  datatype XgmiSample = XgmiSample(timestamp: int, readKb: u64, writeKb: u64)

  /** floor(delta * 1024 / dt), times the gather interval; the sums stay below 2^64 here. */
  function Bytes(prevKb: u64, curKb: u64, elapsed: int): (b: int)
    requires elapsed > 0
  {
    var delta := if curKb >= prevKb then curKb - prevKb else 0;
    (delta as real * 1024.0 / (elapsed as real / SECOND as real)).Floor * BYTES_CONVERSION
  }

  /** What one metrics table adds to the in and out counters. */
  datatype Xgmi = Xgmi(bytesIn: int, bytesOut: int)

  function Published(slot: Option<XgmiSample>, cur: XgmiSample): Option<Xgmi> {
    if slot.None? || cur.timestamp <= slot.value.timestamp then None
    else
      var elapsed := cur.timestamp - slot.value.timestamp;
      Some(Xgmi(Bytes(slot.value.readKb, cur.readKb, elapsed), Bytes(slot.value.writeKb, cur.writeKb, elapsed)))
  }

  /** The slot moves on, unless no time has passed since it was taken. */
  function NextSlot(slot: Option<XgmiSample>, cur: XgmiSample): Option<XgmiSample> {
    if slot.Some? && cur.timestamp <= slot.value.timestamp then slot else Some(cur)
  }

  function BytesIn(p: Option<Xgmi>): int {
    if p.None? then 0 else p.value.bytesIn
  }

  function BytesOut(p: Option<Xgmi>): int {
    if p.None? then 0 else p.value.bytesOut
  }

  /** The latch of the metrics call, the last sample, and the two counters. */
  datatype XgmiState = XgmiState(supported: bool, slot: Option<XgmiSample>, bytesIn: int, bytesOut: int)

  const INITIAL := XgmiState(true, None, 0, 0)

  function RecordStep(s: XgmiState, cur: XgmiSample): XgmiState {
    var p := Published(s.slot, cur);
    s.(slot := NextSlot(s.slot, cur), bytesIn := s.bytesIn + BytesIn(p), bytesOut := s.bytesOut + BytesOut(p))
  }

  /** What the metrics call answers in one gather, and the sample its table holds if it is Ok. */
  datatype Answer = Answer(reply: ReadStatus, sample: XgmiSample)

  function CollectStep(s: XgmiState, a: Answer): XgmiState {
    var next := if s.supported && a.reply == Ok then RecordStep(s, a.sample) else s;
    next.(supported := SupportedAfter(s.supported, a.reply))
  }

  class GpuMetrics {
    const metricsCall: FirmwareSupport
    const xgmi: FirmwareSupport
    var lastXgmi: Option<XgmiSample>
    var xgmiIn: int
    var xgmiOut: int

    ghost predicate Valid()
      reads this, metricsCall, xgmi
    {
      metricsCall.Valid() && xgmi.Valid() && metricsCall != xgmi
    }

    ghost function State(): XgmiState
      reads this, metricsCall
    {
      XgmiState(metricsCall.supported, lastXgmi, xgmiIn, xgmiOut)
    }

    constructor ()
      ensures Valid() && fresh(metricsCall) && fresh(xgmi) && State() == INITIAL && xgmi.supported
    {
      metricsCall := new FirmwareSupport();
      xgmi := new FirmwareSupport();
      lastXgmi, xgmiIn, xgmiOut := None, 0, 0;
    }

    method RecordXgmi(readAcc: seq<u64>, writeAcc: seq<u64>, now: int)
      requires Valid()
      modifies this, xgmi
      ensures Valid()
      ensures State() == RecordStep(old(State()), XgmiSample(now, LinkSum(readAcc), LinkSum(writeAcc)))
      ensures xgmi.supported == (old(xgmi.supported) && U64 - 1 !in readAcc && U64 - 1 !in writeAcc)
    {
      hide Bytes;
      var currRead := SumXgmiKb(xgmi, readAcc);
      var currWrite := SumXgmiKb(xgmi, writeAcc);
      if lastXgmi.None? {
        lastXgmi := Some(XgmiSample(now, currRead, currWrite));
        return;
      }
      var slot := lastXgmi.value;
      var elapsed := now - slot.timestamp;
      if elapsed <= 0 {
        return;
      }
      xgmiIn := xgmiIn + Bytes(slot.readKb, currRead, elapsed);
      xgmiOut := xgmiOut + Bytes(slot.writeKb, currWrite, elapsed);
      lastXgmi := Some(XgmiSample(now, currRead, currWrite));
    }

    /** One gather of the metrics table: recorded only when the call was made and succeeded. */
    method Collect(reply: ReadStatus, readAcc: seq<u64>, writeAcc: seq<u64>, now: int)
      requires Valid()
      modifies this, metricsCall, xgmi
      ensures Valid()
      ensures State()
              == CollectStep(old(State()), Answer(reply, XgmiSample(now, LinkSum(readAcc), LinkSum(writeAcc))))
    {
      hide Bytes;
      var read, ok := Gather(metricsCall, reply);
      if ok {
        RecordXgmi(readAcc, writeAcc, now);
      }
    }
  }

  // ---------- how much is published ----------

  /** The bytes of a growth of d KB, as a rate over `elapsed` times the gather interval. */
  function Scaled(d: nat, elapsed: int): real
    requires elapsed > 0
  {
    d as real * 1024.0 / (elapsed as real / SECOND as real) * 60.0
  }

  /** One publication of a gap of `elapsed` nanoseconds: 60 / elapsed of the bytes that went by, short of
      it by less than 60. */
  lemma BytesBounds(prevKb: u64, curKb: u64, elapsed: int)
    requires elapsed > 0 && prevKb <= curKb
    ensures Scaled(curKb - prevKb, elapsed) - 60.0 < Bytes(prevKb, curKb, elapsed) as real
            <= Scaled(curKb - prevKb, elapsed)
    ensures Bytes(prevKb, curKb, elapsed) % 60 == 0
  {
  }

  /** A counter that dropped adds nothing, and neither does a sample taken at no later time than the last,
      which leaves the slot as it is. */
  lemma NothingToPublish(prev: XgmiSample, cur: XgmiSample)
    ensures Published(None, cur) == None && NextSlot(None, cur) == Some(cur)
    ensures cur.timestamp <= prev.timestamp ==>
        Published(Some(prev), cur) == None && NextSlot(Some(prev), cur) == Some(prev)
    ensures cur.timestamp > prev.timestamp ==>
        && Published(Some(prev), cur).Some? && NextSlot(Some(prev), cur) == Some(cur)
        && (cur.readKb <= prev.readKb ==> Published(Some(prev), cur).value.bytesIn == 0)
        && (cur.writeKb <= prev.writeKb ==> Published(Some(prev), cur).value.bytesOut == 0)
  {
  }

  lemma ScaledTimes(d: nat, elapsed: int)
    requires elapsed > 0
    ensures Scaled(d, elapsed) * elapsed as real == (1024 * d * 60 * SECOND) as real
  {
    var e, x := elapsed as real, d as real * 1024.0;
    var dt := e / SECOND as real;
    QuotientTimes(e, SECOND as real);
    QuotientNonZero(e, SECOND as real);
    QuotientTimes(x, dt);
    var q := x / dt;
    assert q * 60.0 * (dt * SECOND as real) == q * dt * (60 * SECOND) as real;
  }

  /** How far the scaled bytes are from being b bytes. */
  lemma ScaledAgainst(d: nat, elapsed: int, b: int)
    requires elapsed > 0
    ensures Scaled(d, elapsed) <= b as real <==> 1024 * d * 60 * SECOND <= b * elapsed
    ensures Scaled(d, elapsed) < b as real <==> 1024 * d * 60 * SECOND < b * elapsed
  {
    ScaledTimes(d, elapsed);
    assert (b * elapsed) as real == b as real * elapsed as real;
    assert (Scaled(d, elapsed) - b as real) * elapsed as real == (1024 * d * 60 * SECOND - b * elapsed) as real;
    SignOfProduct(Scaled(d, elapsed) - b as real, elapsed as real);
  }

  /** Publications that fit 64 bits never exceed the bytes that went by ... */
  ghost predicate NeverMore(elapsed: int)
    requires elapsed > 0
  {
    forall p: u64, c: u64 :: p <= c && Bytes(p, c, elapsed) < U64 ==> Bytes(p, c, elapsed) <= 1024 * (c - p)
  }

  /** ... or fall short of them by 60 or more. */
  ghost predicate NeverLess(elapsed: int)
    requires elapsed > 0
  {
    forall p: u64, c: u64 :: p <= c && Bytes(p, c, elapsed) < U64 ==> Bytes(p, c, elapsed) > 1024 * (c - p) - 60
  }

  /** A growth that tells any other gap from a minute, in KB. */
  const TELLING := 4_000_000_000

  lemma NeverMoreIff(elapsed: int)
    requires elapsed > 0
    ensures NeverMore(elapsed) <==> elapsed >= 60 * SECOND
  {
    hide Bytes, Scaled;
    if elapsed >= 60 * SECOND {
      forall p: u64, c: u64 | p <= c ensures Bytes(p, c, elapsed) <= 1024 * (c - p) {
        BytesBounds(p, c, elapsed);
        ScaledAgainst(c - p, elapsed, 1024 * (c - p));
        LongerTimes(1024 * (c - p), 60 * SECOND, elapsed);
      }
    } else {
      var d := if elapsed <= 30 * SECOND then 1 else TELLING;
      BytesBounds(0, d, elapsed);
      ScaledAgainst(d, elapsed, 1024 * d + 60);
      ScaledAgainst(d, elapsed, U64 - 1);
      assert 1024 * d < Bytes(0, d, elapsed) < U64;
    }
  }

  lemma NeverLessIff(elapsed: int)
    requires elapsed > 0
    ensures NeverLess(elapsed) <==> elapsed <= 60 * SECOND
  {
    hide Bytes, Scaled;
    if elapsed <= 60 * SECOND {
      forall p: u64, c: u64 | p <= c ensures Bytes(p, c, elapsed) > 1024 * (c - p) - 60 {
        BytesBounds(p, c, elapsed);
        ScaledAgainst(c - p, elapsed, 1024 * (c - p));
        LongerTimes(1024 * (c - p), elapsed, 60 * SECOND);
      }
    } else {
      BytesBounds(0, TELLING, elapsed);
      ScaledAgainst(TELLING, elapsed, 1024 * TELLING - 60);
      assert Bytes(0, TELLING, elapsed) <= 1024 * TELLING - 60;
    }
  }

  lemma LongerTimes(a: nat, x: int, y: int)
    requires x <= y
    ensures a * x <= a * y
  {
  }

  /** So gathers conserve the bytes, up to the roundings, if and only if they are exactly 60 s apart. */
  lemma OnlyAMinuteConserves(elapsed: int)
    requires elapsed > 0
    ensures NeverMore(elapsed) && NeverLess(elapsed) <==> elapsed == 60 * SECOND
  {
    hide NeverMore, NeverLess;
    NeverMoreIff(elapsed);
    NeverLessIff(elapsed);
  }

  lemma MinuteBytes(prevKb: u64, curKb: u64)
    requires prevKb <= curKb
    ensures 1024 * (curKb - prevKb) - 60 < Bytes(prevKb, curKb, 60 * SECOND) <= 1024 * (curKb - prevKb)
  {
    hide Bytes, Scaled;
    BytesBounds(prevKb, curKb, 60 * SECOND);
    ScaledAgainst(curKb - prevKb, 60 * SECOND, 1024 * (curKb - prevKb));
  }

  /** A gather 1 s after the last, as when the loop catches up, publishes sixty times the bytes. */
  lemma CatchUpBytes(prevKb: u64, curKb: u64)
    requires prevKb <= curKb
    ensures Bytes(prevKb, curKb, SECOND) == 60 * 1024 * (curKb - prevKb)
  {
  }

  // ---------- whole runs ----------

  function After(run: seq<Answer>, n: nat): XgmiState
    requires n <= |run|
  {
    if n == 0 then INITIAL else CollectStep(After(run, n - 1), run[n - 1])
  }

  /** Answer m is the first success; from there on gathers succeed one minute apart and no sum drops. */
  ghost predicate MinuteRun(run: seq<Answer>, m: nat) {
    && m < |run| && (forall i :: 0 <= i < m ==> run[i].reply == Error)
    && (forall i :: m <= i < |run| ==> run[i].reply == Ok)
    && forall i :: m < i < |run| ==>
        var a, b := run[i - 1].sample, run[i].sample;
        b.timestamp == a.timestamp + 60 * SECOND && a.readKb <= b.readKb && a.writeKb <= b.writeKb
  }

  lemma {:induction false} ErrorsLeaveNoTrace(run: seq<Answer>, n: nat)
    requires n <= |run| && forall i :: 0 <= i < n ==> run[i].reply == Error
    ensures After(run, n) == INITIAL
  {
    if n > 0 {
      ErrorsLeaveNoTrace(run, n - 1);
    }
  }

  /** n publications total more than 1024 D - 60 n and at most 1024 D bytes for a growth of D KB. */
  lemma {:induction false} MinutesConserveBytes(run: seq<Answer>, m: nat, n: nat)
    requires MinuteRun(run, m) && m + n < |run|
    ensures var s, first, last := After(run, m + n + 1), run[m].sample, run[m + n].sample;
            && s.supported && s.slot == Some(last)
            && (n == 0 ==> s.bytesIn == 0 && s.bytesOut == 0)
            && (n > 0 ==> 1024 * (last.readKb - first.readKb) - 60 * n < s.bytesIn)
            && (n > 0 ==> 1024 * (last.writeKb - first.writeKb) - 60 * n < s.bytesOut)
            && s.bytesIn <= 1024 * (last.readKb - first.readKb)
            && s.bytesOut <= 1024 * (last.writeKb - first.writeKb)
  {
    hide Bytes;
    if n == 0 {
      ErrorsLeaveNoTrace(run, m);
    } else {
      MinutesConserveBytes(run, m, n - 1);
      MinuteBytes(run[m + n - 1].sample.readKb, run[m + n].sample.readKb);
      MinuteBytes(run[m + n - 1].sample.writeKb, run[m + n].sample.writeKb);
    }
  }
}
