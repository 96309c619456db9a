/**
 The playback jitter buffer of the client: a bounded ring of PCM samples plus a
 histogram of how full the ring was after each append. About every twelve
 seconds the histogram decides how many of the oldest samples may be dropped.

 `Snapshot` and `Apply` give the operations as functions on values; the class
 `AudioBuffer` performs them in place and each method is proved equal to its
 function. The laws over whole runs are lemmas about `Apply`.
 */
module AudioJitterBuffer {
  import opened Strings

  const BUCKETS: nat := 30
  const AUDIO_BUFFER_MS: nat := 3000
  const DECISION_MS: int := 12000
  const N: nat := 4

  /** One occupancy recorded in the histogram, with the samples-per-second rate in force then. */
  datatype Reading = Reading(occupancy: nat, rate: nat)

  datatype Snapshot = Snapshot(ring: seq<real>, cap: nat, rate: nat, readings: seq<Reading>, tms: int)

  datatype Op =
    | Resize(sampleRate: nat, channels: nat)
    | Append(samples: seq<real>)
    | Play(wanted: nat)
    | Shrink(having: nat, dt: int)

  // ---------------------------------------------------------------- histogram

  /** The tenth-of-a-second bucket of an occupancy. */
  function Bucket(occupancy: nat, rate: nat): (b: nat)
    requires rate > 0
    ensures b < BUCKETS
  {
    var i := occupancy * 10 / rate;
    if i > 29 then 29 else i
  }

  ghost predicate Dated(readings: seq<Reading>) {
    forall i :: 0 <= i < |readings| ==> readings[i].rate > 0
  }

  /** How many readings fall into bucket `b`. */
  ghost function Tally(readings: seq<Reading>, b: nat): nat
    requires Dated(readings)
  {
    if readings == [] then 0
    else
      var last := readings[|readings| - 1];
      Tally(readings[..|readings| - 1], b) + (if Bucket(last.occupancy, last.rate) == b then 1 else 0)
  }

  ghost function Histogram(readings: seq<Reading>): (h: seq<nat>)
    requires Dated(readings)
    ensures |h| == BUCKETS
  {
    seq(BUCKETS, b requires 0 <= b < BUCKETS => Tally(readings, b))
  }

  lemma TallyCounts(readings: seq<Reading>, i: nat)
    requires Dated(readings) && i < |readings|
    ensures Tally(readings, Bucket(readings[i].occupancy, readings[i].rate)) > 0
  {
    if i < |readings| - 1 {
      TallyCounts(readings[..|readings| - 1], i);
    }
  }

  /** Number of empty buckets before the first used one. */
  function LeadingEmpty(h: seq<nat>): (z: nat)
    ensures z <= |h|
    ensures forall i :: 0 <= i < z ==> h[i] == 0
    ensures z < |h| ==> h[z] > 0
  {
    if h == [] || h[0] != 0 then 0
    else
      var z := LeadingEmpty(h[1..]);
      assert forall i :: 1 <= i < z + 1 ==> h[i] == h[1..][i - 1];
      z + 1
  }

  /** `w` is the first most frequent bucket among 1..n-1; it is 0 when all of these are empty. */
  ghost predicate IsFirstPeak(h: seq<nat>, n: nat, w: nat)
    requires n <= |h|
  {
    if w == 0 then forall j :: 1 <= j < n ==> h[j] == 0
    else
      && w < n && h[w] > 0
      && (forall j :: 1 <= j < n ==> h[j] <= h[w])
      && (forall j :: 1 <= j < w ==> h[j] < h[w])
  }

  ghost function FirstPeak(h: seq<nat>, n: nat): (w: nat)
    requires n <= |h|
    ensures IsFirstPeak(h, n, w)
  {
    if n <= 1 then 0
    else
      var w := FirstPeak(h, n - 1);
      if h[n - 1] > (if w == 0 then 0 else h[w]) then n - 1 else w
  }

  lemma FirstPeakUnique(h: seq<nat>, n: nat, v: nat, w: nat)
    requires n <= |h| && IsFirstPeak(h, n, v) && IsFirstPeak(h, n, w)
    ensures v == w
  {
    if v != 0 && w != 0 {
      assert h[v] <= h[w] && h[w] <= h[v];
    }
  }

  /** Where the pass over the histogram `h` stands before bucket `i`; `c` are the counters by now. */
  ghost predicate Scanned(h: seq<nat>, c: seq<nat>, i: nat, zero: nat, max: nat) {
    && |h| == |c| == BUCKETS && i <= BUCKETS && max < BUCKETS && (max == 0 || max < i)
    && (forall j :: i <= j < BUCKETS ==> c[j] == h[j])
    && (forall j :: 0 <= j < i && j != max ==> c[j] == 0)
    && (i > 0 ==> c[max] == if max == 0 then 0 else h[max])
    && IsFirstPeak(h, i, max)
    && zero <= i && (forall j :: 0 <= j < zero ==> h[j] == 0) && (zero < i ==> h[zero] > 0)
  }

  /** One bucket more: either it becomes the peak and the old peak is cleared, or it is cleared itself. */
  lemma ScanStep(h: seq<nat>, c: seq<nat>, i: nat, zero: nat, max: nat)
    requires Scanned(h, c, i, zero, max) && i < BUCKETS
    ensures var zero' := if c[i] == 0 && zero == i then zero + 1 else zero;
            if c[i] > c[max] then Scanned(h, c[max := 0], i + 1, zero', i)
            else Scanned(h, c[i := 0], i + 1, zero', max)
  {
  }

  // ------------------------------------------------------------ the decision

  /** (x + 1) & !1 : the even number at or just above `x`. */
  function EvenUp(x: nat): (e: nat)
    ensures e % 2 == 0 && x <= e <= x + 1
  {
    (x + 1) - (x + 1) % 2
  }

  /** The water mark the drop is measured by: the peak, but no more than the leading empty buckets allow. */
  function Mark(leading: nat, peak: nat): (m: nat)
    ensures m <= peak && 3 * m <= 8 * leading
    ensures peak >= 6 && leading >= 2 ==> m >= 4
  {
    var zero := leading * 2 / 3;
    if peak > zero * N then zero * N else peak
  }

  /**
   Samples dropped from a ring of capacity `cap` holding `occupied`, when
   `leading` buckets are empty at the bottom and `peak` is the fullest one.
   */
  function DropFor(leading: nat, peak: nat, cap: nat, occupied: nat): (d: nat)
    ensures d % 2 == 0
    ensures d > 0 ==> 3 * d < occupied && peak >= 6 && leading >= 2
  {
    if peak < 6 then 0
    else
      var skip := EvenUp(cap * Mark(leading, peak) / (30 * N));
      if occupied > skip * 3 && skip > 0 then skip else 0
  }

  ghost function PlannedDrop(h: seq<nat>, cap: nat, occupied: nat): nat
    requires |h| == BUCKETS
  {
    DropFor(LeadingEmpty(h), FirstPeak(h, BUCKETS), cap, occupied)
  }

  lemma BucketLowerBound(occupancy: nat, rate: nat, z: nat)
    requires rate > 0 && z <= Bucket(occupancy, rate)
    ensures z * rate <= occupancy * 10
  {
    var q := occupancy * 10 / rate;
    assert q * rate <= occupancy * 10;
    assert z <= q;
    assert z * rate <= q * rate;
  }

  lemma MarkArithmetic(rate: nat, mark: nat, zero: nat, L: nat)
    requires mark <= 4 * zero && 3 * zero <= 2 * L
    ensures 30 * (3 * rate * mark / 120) <= 2 * L * rate
  {
    MulMonotone(mark, 4 * zero, rate);
    MulMonotone(3 * zero, 2 * L, rate);
    var x := rate * mark;
    var y := rate * zero;
    assert x <= 4 * y;
    assert 3 * y <= 2 * L * rate;
    assert 3 * rate * mark == 3 * x;
  }

  lemma MulMonotone(a: int, b: int, k: nat)
    requires a <= b
    ensures a * k <= b * k
  {
    assert (b - a) * k >= 0;
  }

  /** The planned drop against the number of leading empty buckets alone. */
  lemma DropAgainstLeadingEmpty(h: seq<nat>, rate: nat, occupied: nat)
    requires |h| == BUCKETS
    ensures var d := PlannedDrop(h, 3 * rate, occupied);
            d > 0 ==> 30 * (d - 1) <= 2 * LeadingEmpty(h) * rate
  {
    var zero := LeadingEmpty(h) * 2 / 3;
    MarkArithmetic(rate, Mark(LeadingEmpty(h), FirstPeak(h, BUCKETS)), zero, LeadingEmpty(h));
  }

  lemma ScaledBound(d: int, rate: nat, L: nat, occ: nat, r: nat)
    requires 30 * (d - 1) <= 2 * L * rate
    requires L * r <= occ * 10
    ensures 3 * d * r <= 2 * occ * rate + 3 * r
  {
    MulMonotone(30 * (d - 1), 2 * L * rate, r);
    MulMonotone(L * r, occ * 10, 2 * rate);
    assert 2 * L * rate * r == (L * r) * (2 * rate);
    assert 30 * (d - 1) * r == 10 * (3 * d * r - 3 * r);
    assert (occ * 10) * (2 * rate) == 10 * (2 * occ * rate);
  }

  /**
   Whatever was recorded, the drop is even, leaves more than two thirds of the
   ring, and stays within two thirds of every recorded occupancy, scaled to the
   rate now in force, plus one sample of rounding.
   */
  lemma DropIsSafe(readings: seq<Reading>, rate: nat, occupied: nat, i: nat)
    requires Dated(readings) && rate > 0 && i < |readings|
    ensures var d := PlannedDrop(Histogram(readings), 3 * rate, occupied);
            && d % 2 == 0
            && (d > 0 ==> 3 * d < occupied)
            && 3 * d * readings[i].rate <= 2 * readings[i].occupancy * rate + 3 * readings[i].rate
  {
    var h := Histogram(readings);
    var d := PlannedDrop(h, 3 * rate, occupied);
    var L := LeadingEmpty(h);
    var (occ, r) := (readings[i].occupancy, readings[i].rate);
    if d > 0 {
      TallyCounts(readings, i);
      var b := Bucket(occ, r);
      assert h[b] > 0;
      assert L <= b;
      BucketLowerBound(occ, r, L);
      DropAgainstLeadingEmpty(h, rate, occupied);
      ScaledBound(d, rate, L, occ, r);
    }
  }

  /** With no resize since the histogram was cleared: three drops fit in twice the smallest occupancy. */
  lemma DropBelowSmallestOccupancy(readings: seq<Reading>, rate: nat, occupied: nat, i: nat)
    requires rate > 0 && i < |readings|
    requires forall j :: 0 <= j < |readings| ==> readings[j].rate == rate
    ensures 3 * PlannedDrop(Histogram(readings), 3 * rate, occupied) <= 2 * readings[i].occupancy + 3
  {
    DropIsSafe(readings, rate, occupied, i);
    CancelRate(PlannedDrop(Histogram(readings), 3 * rate, occupied), readings[i].occupancy, rate);
  }

  lemma CancelRate(d: int, occ: int, rate: nat)
    requires rate > 0 && 3 * d * rate <= 2 * occ * rate + 3 * rate
    ensures 3 * d <= 2 * occ + 3
  {
    if 3 * d > 2 * occ + 3 {
      MulMonotone(2 * occ + 4, 3 * d, rate);
    }
  }

  // ------------------------------------------------------- the drop in numbers

  /** A bucket holds a tenth of a second, and the last one everything beyond. */
  lemma BucketIsTenth(occupancy: nat, rate: nat, b: nat)
    requires rate > 0
    ensures Bucket(occupancy, rate) == b <==>
            if b < 29 then b * rate <= 10 * occupancy < (b + 1) * rate else b == 29 && 29 * rate <= 10 * occupancy
  {
    QuotientIs(occupancy * 10, rate, b);
    QuotientAtLeast(occupancy * 10, rate, 29);
  }

  lemma QuotientAtLeast(x: nat, r: nat, b: nat)
    requires r > 0
    ensures x / r >= b <==> b * r <= x
  {
    var q := x / r;
    assert q * r <= x < q * r + r;
    if b <= q {
      MulMonotone(b, q, r);
    } else {
      MulMonotone(q + 1, b, r);
      assert (q + 1) * r == q * r + r;
    }
  }

  lemma QuotientIs(x: nat, r: nat, b: nat)
    requires r > 0
    ensures x / r == b <==> b * r <= x < (b + 1) * r
  {
    QuotientAtLeast(x, r, b);
    QuotientAtLeast(x, r, b + 1);
  }

  /** `z` empty buckets stand before the first used one. */
  ghost predicate IsLeading(h: seq<nat>, z: nat) {
    z <= |h| && (forall i :: 0 <= i < z ==> h[i] == 0) && (z < |h| ==> h[z] > 0)
  }

  function Lesser(a: nat, b: nat): nat {
    if a < b then a else b
  }

  /** `k` is the even one of `x` and `x + 1`, for the share of the capacity the two marks allow. */
  ghost predicate IsShare(leading: nat, peak: nat, cap: nat, k: nat) {
    var x := cap * Lesser(peak, 4 * (2 * leading / 3)) / 120;
    k % 2 == 0 && (k == x || k == x + 1)
  }

  /**
   The exact amount: with `leading` empty buckets at the bottom and the first
   most frequent bucket `peak`, a decision drops the share `k` when the peak is
   at least 600 ms, `k` is positive and more than three times `k` is held, and
   nothing otherwise.
   */
  lemma PlannedExactly(h: seq<nat>, cap: nat, occupied: nat, leading: nat, peak: nat, k: nat)
    requires |h| == 30 && IsLeading(h, leading) && IsFirstPeak(h, 30, peak) && IsShare(leading, peak, cap, k)
    ensures PlannedDrop(h, cap, occupied) == if peak >= 6 && k > 0 && occupied > 3 * k then k else 0
  {
    FirstPeakUnique(h, 30, peak, FirstPeak(h, 30));
    LeadingUnique(h, leading);
    ShareUnique(leading, peak, cap, k);
  }

  lemma LeadingUnique(h: seq<nat>, z: nat)
    requires IsLeading(h, z)
    ensures LeadingEmpty(h) == z
  {
  }

  lemma ShareUnique(leading: nat, peak: nat, cap: nat, k: nat)
    requires IsShare(leading, peak, cap, k)
    ensures EvenUp(cap * Mark(leading, peak) / 120) == k
  {
    assert Mark(leading, peak) == Lesser(peak, 4 * (2 * leading / 3));
  }

  lemma FullSkipFits(rate: nat, peak: nat, m: nat, occupied: nat)
    requires rate > 20 && peak >= 6 && m <= peak && peak * rate <= 10 * occupied
    ensures 3 * Skip(rate, m) < occupied
  {
    SkipGrows(rate, m, peak);
    PeakIsLarge(rate, peak);
    SkipOfProduct(rate, peak);
    ShareFits(peak * rate, 3 * (peak * rate) / 120, occupied);
  }

  lemma SkipOfProduct(rate: nat, peak: nat)
    ensures Skip(rate, peak) == EvenUp(3 * (peak * rate) / 120)
  {
    assert 3 * rate * peak == 3 * (peak * rate);
  }

  lemma PeakIsLarge(rate: nat, peak: nat)
    requires rate > 20 && peak >= 6
    ensures peak * rate >= 126
  {
    MulMonotone(6, peak, rate);
  }

  lemma ShareFits(x: nat, q: nat, occupied: nat)
    requires x >= 126 && q == 3 * x / 120 && x <= 10 * occupied
    ensures 3 * EvenUp(q) < occupied
  {
  }

  /**
   When a drop must happen: if the buffer is as full as it mostly was, or
   fuller, samples are dropped if and only if that was 600 ms or more and it was
   never seen with less than 200 ms. (At 20 samples a second or fewer the share
   may round down to nothing.)
   */
  lemma DropsWhenFull(h: seq<nat>, rate: nat, occupied: nat, leading: nat, peak: nat)
    requires |h| == 30 && rate > 20 && IsLeading(h, leading) && IsFirstPeak(h, 30, peak)
    requires peak * rate <= 10 * occupied
    ensures PlannedDrop(h, 3 * rate, occupied) > 0 <==> peak >= 6 && leading >= 2
  {
    FirstPeakUnique(h, 30, peak, FirstPeak(h, 30));
    LeadingUnique(h, leading);
    if peak >= 6 && leading >= 2 {
      FullSkipFits(rate, peak, Mark(leading, peak), occupied);
      SkipAtFour(rate);
      SkipGrows(rate, 4, Mark(leading, peak));
    }
  }

  // ------------------------------------------------ drops below 600 ms of data

  /** Less than 600 ms of data: fewer than six tenths of a second's samples. */
  predicate Below600(occupied: nat, rate: nat) {
    10 * occupied < 6 * rate
  }

  /** The drop a water mark stands for, at three seconds of capacity. */
  function Skip(rate: nat, mark: nat): nat {
    EvenUp(3 * rate * mark / 120)
  }

  predicate Exceeds(occupied: nat, skip: nat) {
    0 < skip && 3 * skip < occupied
  }

  lemma SkipGrows(rate: nat, m: nat, n: nat)
    requires m <= n
    ensures Skip(rate, m) <= Skip(rate, n)
  {
    MulMonotone(m, n, 3 * rate);
    var x := 3 * rate * m;
    var y := 3 * rate * n;
    assert x <= y;
    assert x / 120 <= y / 120;
  }

  lemma SkipAtFour(rate: nat)
    ensures 3 * rate * 4 / 120 == rate / 10 && 3 * rate * 8 / 120 == rate / 5
  {
  }

  /** Nothing is ever dropped unless more than 300 ms of data, rounded down to the tenth, are buffered. */
  lemma DropFloor(leading: nat, peak: nat, rate: nat, occupied: nat)
    ensures DropFor(leading, peak, 3 * rate, occupied) > 0 ==> occupied > 3 * (rate / 10)
  {
    if peak >= 6 && leading >= 2 {
      SkipGrows(rate, 4, Mark(leading, peak));
      SkipAtFour(rate);
    }
  }

  /**
   Two buckets are empty, the peak is at 600 ms or more, and more than 300 ms
   are buffered; or more buckets are empty, the peak is at 600 or 700 ms, and
   more than 450 or 525 ms are buffered. At higher peaks rounding leaves room
   for at most two samples.
   */
  predicate LowDrop(leading: nat, peak: nat, rate: nat, occupied: nat) {
    && Below600(occupied, rate)
    && (|| (leading == 2 && peak >= 6 && Exceeds(occupied, Skip(rate, 4)))
        || (leading >= 3 && 6 <= peak <= 7 && Exceeds(occupied, Skip(rate, peak)))
        || (leading >= 3 && peak >= 8 && RoundingRoom(leading, peak, rate, occupied)))
  }

  /** Below 40 samples a second, which no device has, rounding has the last word. */
  predicate RoundingRoom(leading: nat, peak: nat, rate: nat, occupied: nat) {
    if rate >= 40 then
      && (if leading <= 4 then peak >= 8 else peak == 8)
      && rate / 5 % 2 == 0 && 3 * (rate / 5) < occupied <= 3 * (rate / 5) + 2
    else rate % 5 != 0 && Exceeds(occupied, Skip(rate, Mark(leading, peak)))
  }

  lemma SkipAtNine(rate: nat)
    requires rate >= 40
    ensures 10 * (3 * Skip(rate, 9)) >= 6 * rate
  {
    var q := 3 * rate * 9 / 120;
    assert 3 * rate * 9 == 27 * rate;
    assert 120 * q >= 27 * rate - 119;
  }

  /** With a mark of eight the drop just fits under 600 ms, or misses by rounding. */
  lemma SkipAtEight(rate: nat, occupied: nat)
    requires rate >= 40 && Below600(occupied, rate)
    ensures Exceeds(occupied, Skip(rate, 8)) <==>
            rate / 5 % 2 == 0 && 3 * (rate / 5) < occupied <= 3 * (rate / 5) + 2
  {
    SkipAtFour(rate);
    var f := rate / 5;
    assert 5 * f <= rate < 5 * f + 5;
    assert Skip(rate, 8) == if f % 2 == 0 then f else f + 1;
  }

  lemma HighPeakDrops(leading: nat, peak: nat, rate: nat, occupied: nat)
    requires leading >= 3 && peak >= 8 && Below600(occupied, rate)
    ensures Exceeds(occupied, Skip(rate, Mark(leading, peak))) <==> RoundingRoom(leading, peak, rate, occupied)
  {
    var m := Mark(leading, peak);
    assert m >= 8 && (m == 8 <==> if leading <= 4 then peak >= 8 else peak == 8);
    if rate < 40 {
      SkipAtFour(rate);
      SkipGrows(rate, 8, m);
    } else if m == 8 {
      SkipAtEight(rate, occupied);
    } else {
      SkipAtNine(rate);
      SkipGrows(rate, 9, m);
    }
  }

  /** Exactly when samples are dropped although less than 600 ms are buffered. */
  lemma DropsBelow600Iff(leading: nat, peak: nat, rate: nat, occupied: nat)
    ensures DropFor(leading, peak, 3 * rate, occupied) > 0 && Below600(occupied, rate) <==>
            LowDrop(leading, peak, rate, occupied)
  {
    var m := Mark(leading, peak);
    SkipAtFour(rate);
    assert leading == 2 && peak >= 6 ==> m == 4;
    assert leading >= 3 && 6 <= peak <= 7 ==> m == peak;
    if leading >= 3 && peak >= 8 && Below600(occupied, rate) {
      HighPeakDrops(leading, peak, rate, occupied);
    }
  }

  // --------------------------------------------------- operations on values

  /** Three seconds of samples. */
  function CapacityFor(rate: nat): (cap: nat)
    ensures cap == 3 * rate
  {
    rate * AUDIO_BUFFER_MS / 1000
  }

  /** The newest `n` samples of `s`, or all of it. */
  function Newest(s: seq<real>, n: nat): seq<real> {
    if |s| <= n then s else s[|s| - n..]
  }

  ghost predicate Valid(s: Snapshot) {
    s.rate > 0 && s.cap == 3 * s.rate && |s.ring| <= s.cap && Dated(s.readings)
  }

  /** What the caller owes: a resize names a positive sample rate and channel count. */
  ghost predicate Allowed(op: Op) {
    op.Resize? ==> op.sampleRate * op.channels > 0
  }

  ghost predicate Decides(s: Snapshot, op: Op) {
    op.Shrink? && s.tms != 0 && op.dt >= s.tms + DECISION_MS
  }

  /** The samples a `Shrink` step removes from the front of the ring. */
  ghost function Dropped(s: Snapshot, op: Op): (d: nat)
    requires Valid(s)
    ensures d <= |s.ring| && d % 2 == 0
  {
    if Decides(s, op)
    then PlannedDrop(Histogram(s.readings + [Reading(op.having, s.rate)]), s.cap, |s.ring|)
    else 0
  }

  ghost function Resized(s: Snapshot, sampleRate: nat, channels: nat): (t: Snapshot)
    requires Valid(s) && sampleRate * channels > 0
    ensures Valid(t) && t.cap == 3 * (sampleRate * channels)
  {
    var cap := CapacityFor(sampleRate * channels);
    if cap != s.cap then s.(ring := [], cap := cap, rate := sampleRate * channels) else s
  }

  ghost function Shrunk(s: Snapshot, op: Op): (t: Snapshot)
    requires Valid(s) && op.Shrink?
    ensures Valid(t)
  {
    if Decides(s, op) then s.(ring := s.ring[Dropped(s, op)..], readings := [], tms := op.dt)
    else s.(readings := s.readings + [Reading(op.having, s.rate)], tms := if s.tms == 0 then op.dt else s.tms)
  }

  ghost function Apply(s: Snapshot, op: Op): (t: Snapshot)
    requires Valid(s) && Allowed(op)
    ensures Valid(t)
  {
    match op
    case Resize(sampleRate, channels) => Resized(s, sampleRate, channels)
    case Append(samples) => s.(ring := Newest(s.ring + samples, s.cap))
    case Play(wanted) => s.(ring := s.ring[if wanted < |s.ring| then wanted else |s.ring|..])
    case Shrink(_, _) => Shrunk(s, op)
  }

  ghost predicate AllAllowed(ops: seq<Op>) {
    forall i :: 0 <= i < |ops| ==> Allowed(ops[i])
  }

  ghost function Run(s: Snapshot, ops: seq<Op>): (t: Snapshot)
    requires Valid(s) && AllAllowed(ops)
    ensures Valid(t)
    decreases |ops|
  {
    if ops == [] then s
    else
      assert Allowed(ops[0]);
      Run(Apply(s, ops[0]), ops[1..])
  }

  // ------------------------------------------------------ laws of whole runs

  ghost predicate OneRate(s: Snapshot) {
    forall i :: 0 <= i < |s.readings| ==> s.readings[i].rate == s.rate
  }

  lemma {:induction false} OneRateWithoutResize(s: Snapshot, ops: seq<Op>)
    requires Valid(s) && AllAllowed(ops) && OneRate(s)
    requires forall i :: 0 <= i < |ops| ==> !ops[i].Resize?
    ensures OneRate(Run(s, ops))
    decreases |ops|
  {
    if ops != [] {
      assert Allowed(ops[0]) && !ops[0].Resize?;
      OneRateWithoutResize(Apply(s, ops[0]), ops[1..]);
    }
  }

  /**
   Every run that starts with a cleared histogram and is not resized: whenever
   a further shrink step drops samples, it drops an even number, under a third
   of the ring and within two thirds of every occupancy seen since the clear.
   */
  lemma RunDropIsSafe(s: Snapshot, ops: seq<Op>, op: Op, i: nat)
    requires Valid(s) && AllAllowed(ops) && s.readings == [] && op.Shrink?
    requires forall j :: 0 <= j < |ops| ==> !ops[j].Resize?
    requires i <= |Run(s, ops).readings|
    ensures var t := Run(s, ops);
            var d := Dropped(t, op);
            && d % 2 == 0
            && (d > 0 ==> 3 * d < |t.ring|)
            && 3 * d <= 2 * (t.readings + [Reading(op.having, t.rate)])[i].occupancy + 3
            && Apply(t, op).ring == t.ring[d..]
  {
    OneRateWithoutResize(s, ops);
    var t := Run(s, ops);
    var readings := t.readings + [Reading(op.having, t.rate)];
    if Decides(t, op) {
      DropBelowSmallestOccupancy(readings, t.rate, |t.ring|, i);
    }
  }

  ghost function MarksAt(s: Snapshot, having: nat): (nat, nat)
    requires Valid(s)
  {
    var h := Histogram(s.readings + [Reading(having, s.rate)]);
    (LeadingEmpty(h), FirstPeak(h, BUCKETS))
  }

  /**
   In every run: a shrink step drops nothing from about 300 ms of data or less,
   and it drops from less than 600 ms exactly when it decides and its marks are low.
   */
  lemma RunDropsBelow600Iff(s: Snapshot, ops: seq<Op>, op: Op)
    requires Valid(s) && AllAllowed(ops) && op.Shrink?
    ensures var t := Run(s, ops);
            var (leading, peak) := MarksAt(t, op.having);
            && (Dropped(t, op) > 0 ==> |t.ring| > 3 * (t.rate / 10))
            && (Dropped(t, op) > 0 && Below600(|t.ring|, t.rate) <==>
                Decides(t, op) && LowDrop(leading, peak, t.rate, |t.ring|))
  {
    var t := Run(s, ops);
    var (leading, peak) := MarksAt(t, op.having);
    DropFloor(leading, peak, t.rate, |t.ring|);
    DropsBelow600Iff(leading, peak, t.rate, |t.ring|);
  }

  /** A stereo buffer at 48 kHz just after a decision, with 590 ms of data. */
  ghost predicate JustDecided(s: Snapshot) {
    s.cap == 288000 && s.rate == 96000 && |s.ring| == 56640 && s.readings == [] && s.tms > 0
  }

  /** Packets and callbacks of 10 ms: two appends reach 600 ms, and playback then gets one callback ahead. */
  ghost function LowRun(a: seq<real>, b: seq<real>, c: seq<real>, t: int): seq<Op> {
    [Append(a), Shrink(57600, t + 10), Play(960), Append(b), Shrink(57600, t + 20), Play(960), Play(960), Append(c)]
  }

  lemma {:induction false} RunStep(s: Snapshot, op: Op, rest: seq<Op>)
    requires Valid(s) && Allowed(op) && AllAllowed(rest)
    ensures AllAllowed([op] + rest) && Run(s, [op] + rest) == Run(Apply(s, op), rest)
  {
    assert ([op] + rest)[1..] == rest;
  }

  lemma LowRunStates(s: Snapshot, a: seq<real>, b: seq<real>, c: seq<real>)
    requires JustDecided(s) && |a| == |b| == |c| == 960
    ensures AllAllowed(LowRun(a, b, c, s.tms))
    ensures var t := Run(s, LowRun(a, b, c, s.tms));
            && |t.ring| == 56640 && t.cap == 288000 && t.rate == 96000 && t.tms == s.tms
            && t.readings == [Reading(57600, 96000), Reading(57600, 96000)]
  {
    var s1 := Apply(s, Append(a));
    var s2 := Apply(s1, Shrink(57600, s.tms + 10));
    assert s2.readings == [Reading(57600, 96000)];
    var s3 := Apply(s2, Play(960));
    var s4 := Apply(s3, Append(b));
    var s5 := Apply(s4, Shrink(57600, s.tms + 20));
    assert s5.readings == [Reading(57600, 96000), Reading(57600, 96000)];
    var s6 := Apply(s5, Play(960));
    var s7 := Apply(s6, Play(960));
    var r7 := [Append(c)];
    var r6 := [Play(960)] + r7;
    var r5 := [Play(960)] + r6;
    var r4 := [Shrink(57600, s.tms + 20)] + r5;
    var r3 := [Append(b)] + r4;
    var r2 := [Play(960)] + r3;
    var r1 := [Shrink(57600, s.tms + 10)] + r2;
    assert [Append(c)] + [] == r7;
    RunStep(s7, Append(c), []);
    RunStep(s6, Play(960), r7);
    RunStep(s5, Play(960), r6);
    RunStep(s4, Shrink(57600, s.tms + 20), r5);
    RunStep(s3, Append(b), r4);
    RunStep(s2, Play(960), r3);
    RunStep(s1, Shrink(57600, s.tms + 10), r2);
    RunStep(s, Append(a), r1);
    assert LowRun(a, b, c, s.tms) == [Append(a)] + r1;
  }

  lemma LowHistogram(h: seq<nat>)
    requires |h| == BUCKETS && forall b :: 0 <= b < BUCKETS ==> h[b] == if b == 5 then 1 else if b == 6 then 2 else 0
    ensures LeadingEmpty(h) == 5 && FirstPeak(h, BUCKETS) == 6
  {
    var z := LeadingEmpty(h);
    assert h[5] == 1 && h[6] == 2;
    if z < BUCKETS { assert h[z] > 0; }
    assert IsFirstPeak(h, BUCKETS, 6);
    FirstPeakUnique(h, BUCKETS, 6, FirstPeak(h, BUCKETS));
  }

  lemma LowReadings(r: seq<Reading>)
    requires r == [Reading(57600, 96000), Reading(57600, 96000), Reading(56640, 96000)]
    ensures LeadingEmpty(Histogram(r)) == 5 && FirstPeak(Histogram(r), BUCKETS) == 6
  {
    assert r[..2] == [Reading(57600, 96000), Reading(57600, 96000)];
    assert r[..2][..1] == [Reading(57600, 96000)];
    assert r[..2][..1][..0] == [];
    forall b: nat
      ensures Tally(r, b) == if b == 5 then 1 else if b == 6 then 2 else 0
    {
      assert Tally(r[..2][..1], b) == if b == 6 then 1 else 0;
      assert Tally(r[..2], b) == if b == 6 then 2 else 0;
    }
    var h := Histogram(r);
    forall b | 0 <= b < BUCKETS
      ensures h[b] == if b == 5 then 1 else if b == 6 then 2 else 0
    {
      assert h[b] == Tally(r, b);
    }
    LowHistogram(h);
  }

  /**
   The promise that nothing is dropped below 600 ms fails: twelve seconds after
   the last decision, 14400 samples are dropped from 56640, which are 590 ms.
   */
  lemma DropsBelow600(s: Snapshot, a: seq<real>, b: seq<real>, c: seq<real>)
    requires JustDecided(s) && |a| == |b| == |c| == 960
    ensures Valid(s) && AllAllowed(LowRun(a, b, c, s.tms))
    ensures var t := Run(s, LowRun(a, b, c, s.tms));
            |t.ring| == 56640 && Below600(|t.ring|, t.rate) && Dropped(t, Shrink(56640, s.tms + 12000)) == 14400
  {
    LowRunStates(s, a, b, c);
    LowReadings(Run(s, LowRun(a, b, c, s.tms)).readings + [Reading(56640, 96000)]);
  }

  /** The counters tally the readings by tenths of a second. */
  ghost predicate Tallies(h: seq<nat>, readings: seq<Reading>)
    requires Dated(readings)
  {
    |h| == 30 && forall b :: 0 <= b < 30 ==> h[b] == Tally(readings, b)
  }

  /**
   The shrink step after any run, in numbers. It decides exactly when the clock
   was started and 12000 ms have passed since. A decision removes exactly the
   share from the front, clears the histogram and restarts the clock; any other
   step leaves the ring alone and adds its reading.
   */
  lemma RunDropsExactly(s: Snapshot, ops: seq<Op>, having: nat, dt: int, h: seq<nat>, leading: nat, peak: nat, k: nat)
    requires Valid(s) && AllAllowed(ops)
    requires var t := Run(s, ops);
             && Tallies(h, t.readings + [Reading(having, t.rate)])
             && IsLeading(h, leading) && IsFirstPeak(h, 30, peak) && IsShare(leading, peak, 3 * t.rate, k)
    ensures var t := Run(s, ops);
            var u := Apply(t, Shrink(having, dt));
            && u.cap == t.cap == 3 * t.rate && u.rate == t.rate
            && if t.tms != 0 && dt >= t.tms + 12000 then
                 && u.readings == [] && u.tms == dt
                 && u.ring == if peak >= 6 && k > 0 && |t.ring| > 3 * k then t.ring[k..] else t.ring
               else
                 && u.readings == t.readings + [Reading(having, t.rate)] && u.ring == t.ring
                 && u.tms == if t.tms == 0 then dt else t.tms
  {
    var t := Run(s, ops);
    assert Histogram(t.readings + [Reading(having, t.rate)]) == h;
    PlannedExactly(h, 3 * t.rate, |t.ring|, leading, peak, k);
  }

  /** A resize to a new size empties the ring; to the same size it changes nothing. The histogram stays either way. */
  lemma ResizeExactly(s: Snapshot, sampleRate: nat, channels: nat)
    requires Valid(s) && sampleRate * channels > 0
    ensures var (t, rate) := (Apply(s, Resize(sampleRate, channels)), sampleRate * channels);
            t == if rate == s.rate then s else Snapshot([], 3 * rate, rate, s.readings, s.tms)
  {
  }

  /** An append keeps everything while it fits, and otherwise exactly the newest three seconds. */
  lemma AppendKeepsNewest(s: Snapshot, samples: seq<real>)
    requires Valid(s)
    ensures var t := Apply(s, Append(samples));
            && t == s.(ring := t.ring)
            && |t.ring| == Lesser(|s.ring| + |samples|, 3 * s.rate) && IsSuffix(t.ring, s.ring + samples)
  {
  }

  /** Everything that was in the ring at the start or appended since, in order. */
  ghost function Fed(s: Snapshot, ops: seq<Op>): seq<real> {
    s.ring + Appended(ops)
  }

  ghost function Appended(ops: seq<Op>): seq<real> {
    if ops == [] then []
    else (if ops[0].Append? then ops[0].samples else []) + Appended(ops[1..])
  }

  ghost predicate IsSuffix(r: seq<real>, h: seq<real>) {
    |r| <= |h| && r == h[|h| - |r|..]
  }

  lemma SuffixThenMore(r: seq<real>, h: seq<real>, more: seq<real>)
    requires IsSuffix(r, h)
    ensures IsSuffix(r + more, h + more)
  {
  }

  lemma SuffixTrans(q: seq<real>, r: seq<real>, h: seq<real>)
    requires IsSuffix(q, r) && IsSuffix(r, h)
    ensures IsSuffix(q, h)
  {
  }

  lemma SuffixChain(q: seq<real>, r: seq<real>, was: seq<real>, more: seq<real>, rest: seq<real>)
    requires IsSuffix(r, was + more) && IsSuffix(q, r + rest)
    ensures IsSuffix(q, was + (more + rest))
  {
    assert was + (more + rest) == (was + more) + rest;
    SuffixThenMore(r, was + more, rest);
    SuffixTrans(q, r + rest, (was + more) + rest);
  }

  /** What a tail of the stream says about single places, and about the next `n` samples. */
  lemma TailPlaces(ring: seq<real>, fed: seq<real>, n: nat)
    requires IsSuffix(ring, fed) && n <= |ring|
    ensures var offset := |fed| - |ring|;
            && (forall i :: 0 <= i < |ring| ==> ring[i] == fed[offset + i])
            && ring[..n] == fed[offset..offset + n] && ring[n..] == fed[offset + n..]
  {
  }

  /** One step leaves a suffix of the old ring and what the step appended. */
  lemma StepLeavesSuffix(s: Snapshot, op: Op)
    requires Valid(s) && Allowed(op)
    ensures IsSuffix(Apply(s, op).ring, s.ring + (if op.Append? then op.samples else []))
  {
    assert s.ring + [] == s.ring;
  }

  /** In every run, with any channels: the ring is the tail end of everything fed to it. */
  lemma {:induction false} RingIsTailOfFed(s: Snapshot, ops: seq<Op>)
    requires Valid(s) && AllAllowed(ops)
    ensures IsSuffix(Run(s, ops).ring, Fed(s, ops))
    decreases |ops|
  {
    if ops != [] {
      assert Allowed(ops[0]);
      var t := Apply(s, ops[0]);
      var more := if ops[0].Append? then ops[0].samples else [];
      StepLeavesSuffix(s, ops[0]);
      RingIsTailOfFed(t, ops[1..]);
      SuffixChain(Run(t, ops[1..]).ring, t.ring, s.ring, more, Appended(ops[1..]));
    }
  }

  /** A step of two-channel playback: whole frames come in and go out. */
  predicate StereoStep(op: Op) {
    match op
    case Resize(_, channels) => channels == 2
    case Append(samples) => |samples| % 2 == 0
    case Play(wanted) => wanted % 2 == 0
    case Shrink(_, _) => true
  }

  ghost predicate WholeFrames(s: Snapshot) {
    |s.ring| % 2 == 0 && s.cap % 2 == 0
  }

  lemma EvenArithmetic(a: nat, b: nat)
    requires a % 2 == 0 && b % 2 == 0
    ensures (a + b) % 2 == 0 && (b <= a ==> (a - b) % 2 == 0)
  {
    var (h, k) := (a / 2, b / 2);
    assert a == 2 * h && b == 2 * k;
  }

  lemma StereoResize(s: Snapshot, sampleRate: nat)
    requires Valid(s) && sampleRate * 2 > 0 && WholeFrames(s)
    ensures WholeFrames(Resized(s, sampleRate, 2))
  {
    var t := Resized(s, sampleRate, 2);
    assert t.ring == [] || t.ring == s.ring;
    assert t.cap == 2 * (3 * sampleRate);
    DoubleIsEven(3 * sampleRate);
  }

  lemma DoubleIsEven(k: nat)
    ensures 2 * k % 2 == 0
  {
  }

  lemma StereoShrink(s: Snapshot, op: Op)
    requires Valid(s) && op.Shrink? && WholeFrames(s)
    ensures WholeFrames(Shrunk(s, op))
  {
    EvenArithmetic(|s.ring|, Dropped(s, op));
  }

  lemma StereoStepKeepsFrames(s: Snapshot, op: Op)
    requires Valid(s) && Allowed(op) && StereoStep(op) && WholeFrames(s)
    ensures WholeFrames(Apply(s, op))
  {
    match op
    case Resize(sampleRate, _) => StereoResize(s, sampleRate);
    case Append(samples) => EvenArithmetic(|s.ring|, |samples|);
    case Play(wanted) => EvenArithmetic(|s.ring|, wanted);
    case Shrink(_, _) => StereoShrink(s, op);
  }

  lemma {:induction false} StereoRunKeepsFrames(s: Snapshot, ops: seq<Op>)
    requires Valid(s) && AllAllowed(ops) && WholeFrames(s)
    requires forall i :: 0 <= i < |ops| ==> StereoStep(ops[i])
    ensures WholeFrames(Run(s, ops)) && |Appended(ops)| % 2 == 0
    decreases |ops|
  {
    if ops != [] {
      assert Allowed(ops[0]) && StereoStep(ops[0]);
      StereoStepKeepsFrames(s, ops[0]);
      StereoRunKeepsFrames(Apply(s, ops[0]), ops[1..]);
      if ops[0].Append? { EvenArithmetic(|ops[0].samples|, |Appended(ops[1..])|); }
    }
  }

  /** `ring` is the stream from an even place on. */
  ghost predicate InPhase(ring: seq<real>, fed: seq<real>) {
    && |ring| <= |fed| && (|fed| - |ring|) % 2 == 0
    && forall i :: 0 <= i < |ring| ==> ring[i] == fed[|fed| - |ring| + i]
  }

  lemma EvenTailInPhase(ring: seq<real>, fed: seq<real>)
    requires IsSuffix(ring, fed) && |ring| % 2 == 0 && |fed| % 2 == 0
    ensures InPhase(ring, fed)
  {
    EvenArithmetic(|fed|, |ring|);
    TailPlaces(ring, fed, 0);
  }

  /**
   Left and right never swap, whatever the samples are: in every run that feeds
   and plays whole stereo frames, the ring is the fed stream from an even place
   on, so every sample sits at a place of its own channel.
   */
  lemma StereoNeverSwaps(s: Snapshot, ops: seq<Op>)
    requires Valid(s) && AllAllowed(ops) && WholeFrames(s)
    requires forall i :: 0 <= i < |ops| ==> StereoStep(ops[i])
    ensures InPhase(Run(s, ops).ring, Fed(s, ops)) && |Run(s, ops).ring| % 2 == 0
  {
    RingIsTailOfFed(s, ops);
    StereoRunKeepsFrames(s, ops);
    EvenArithmetic(|s.ring|, |Appended(ops)|);
    EvenTailInPhase(Run(s, ops).ring, Fed(s, ops));
  }

  /** A play step hands out the next samples of the stream and moves on just past them. */
  ghost predicate PlaysNext(t: Snapshot, fed: seq<real>, wanted: nat)
    requires Valid(t)
  {
    var n := if wanted < |t.ring| then wanted else |t.ring|;
    var offset := |fed| - |t.ring|;
    && offset >= 0 && t.ring[..n] == fed[offset..offset + n]
    && Apply(t, Play(wanted)).ring == fed[offset + n..]
  }

  lemma TailPlaysNext(t: Snapshot, fed: seq<real>, wanted: nat)
    requires Valid(t) && IsSuffix(t.ring, fed)
    ensures PlaysNext(t, fed, wanted)
  {
    TailPlaces(t.ring, fed, if wanted < |t.ring| then wanted else |t.ring|);
  }

  /** In every run, what is played is the fed stream in order, and nothing is played twice. */
  lemma PlaysInOrder(s: Snapshot, ops: seq<Op>, wanted: nat)
    requires Valid(s) && AllAllowed(ops)
    ensures PlaysNext(Run(s, ops), Fed(s, ops), wanted)
  {
    RingIsTailOfFed(s, ops);
    TailPlaysNext(Run(s, ops), Fed(s, ops), wanted);
  }

  /** The clock readings at which a run takes a drop decision. */
  ghost function DecisionTimes(s: Snapshot, ops: seq<Op>): seq<int>
    requires Valid(s) && AllAllowed(ops)
    decreases |ops|
  {
    if ops == [] then []
    else
      assert Allowed(ops[0]);
      var rest := DecisionTimes(Apply(s, ops[0]), ops[1..]);
      if Decides(s, ops[0]) then [ops[0].dt] + rest else rest
  }

  /** Decisions are at least twelve seconds apart, even when the wall clock jumps back. */
  lemma {:induction false} DecisionsTwelveSecondsApart(s: Snapshot, ops: seq<Op>)
    requires Valid(s) && AllAllowed(ops) && s.tms >= 0
    requires forall i :: 0 <= i < |ops| && ops[i].Shrink? ==> ops[i].dt > 0
    ensures var times := DecisionTimes(s, ops);
            && (times != [] && s.tms > 0 ==> times[0] >= s.tms + 12000)
            && (forall k :: 0 < k < |times| ==> times[k] >= times[k - 1] + 12000)
    decreases |ops|
  {
    if ops != [] {
      assert Allowed(ops[0]);
      DecisionsTwelveSecondsApart(Apply(s, ops[0]), ops[1..]);
    }
  }

  // ------------------------------------------------------- in-place versions

  /** The process-wide time of the last decision, shared by all buffers. */
  class DropClock {
    var tms: int
    constructor ()
      ensures tms == 0
    {
      tms := 0;
    }
  }

  class AudioBuffer {
    var ring: seq<real>
    var cap: nat
    var rate: nat
    const counts: array<nat>
    ghost var readings: seq<Reading>

    ghost predicate Ok()
      reads this, counts
    {
      && rate > 0 && cap == 3 * rate && |ring| <= cap && Dated(readings)
      && counts[..] == Histogram(readings)
    }

    ghost function View(clock: DropClock): Snapshot
      reads this, clock
    {
      Snapshot(ring, cap, rate, readings, clock.tms)
    }

    constructor ()
      ensures Ok() && fresh(counts)
      ensures ring == [] && rate == 96000 && cap == 288000 && readings == []
    {
      ring := [];
      cap := CapacityFor(48000 * 2);
      rate := 48000 * 2;
      counts := new nat[BUCKETS](_ => 0);
      readings := [];
    }

    method DoResize(sampleRate: nat, channels: nat, ghost clock: DropClock)
      requires Ok() && sampleRate * channels > 0
      modifies this
      ensures Ok()
      ensures View(clock) == Apply(old(View(clock)), Resize(sampleRate, channels))
    {
      var capacity := CapacityFor(sampleRate * channels);
      if capacity != cap {
        ring := [];
        cap := capacity;
        rate := sampleRate * channels;
      }
    }

    /** The ring's own overwriting push: the oldest samples give way. */
    method PushOverwrite(samples: seq<real>)
      modifies this`ring
      ensures ring == Newest(old(ring) + samples, cap)
    {
      var all := ring + samples;
      ring := if |all| <= cap then all else all[|all| - cap..];
    }

    method AppendPcm2(samples: seq<real>, ghost clock: DropClock) returns (having: nat)
      requires Ok()
      modifies this`ring
      ensures Ok()
      ensures View(clock) == Apply(old(View(clock)), Append(samples))
      ensures having == |ring|
    {
      if |samples| > cap {
        PushOverwrite(samples);
        return cap;
      }
      var total := |ring| + |samples|;
      ghost var before := ring;
      if total > cap {
        ring := ring[total - cap..];
      }
      PushOverwrite(samples);
      assert ring == Newest(before + samples, cap);
      having := |ring|;
    }

    /** One pass over the histogram: finds both water marks and clears every bucket. */
    method ScanAndClear() returns (zero: nat, max: nat)
      requires counts.Length == BUCKETS
      modifies counts
      ensures zero == LeadingEmpty(old(counts[..]))
      ensures max == FirstPeak(old(counts[..]), BUCKETS)
      ensures forall b :: 0 <= b < BUCKETS ==> counts[b] == 0
    {
      ghost var h := counts[..];
      zero, max := 0, 0;
      var i := 0;
      while i < BUCKETS
        invariant 0 <= i <= BUCKETS && max < BUCKETS
        invariant Scanned(h, counts[..], i, zero, max)
      {
        ghost var c := counts[..];
        ScanStep(h, c, i, zero, max);
        if counts[i] == 0 && zero == i {
          zero := zero + 1;
        }
        if counts[i] > counts[max] {
          counts[max] := 0;
          max := i;
        } else {
          counts[i] := 0;
        }
        i := i + 1;
      }
      counts[max] := 0;
      FirstPeakUnique(h, BUCKETS, max, FirstPeak(h, BUCKETS));
    }

    method Record(having: nat)
      requires Ok()
      modifies counts, this`readings
      ensures Ok() && readings == old(readings) + [Reading(having, rate)]
    {
      var i := having * 10 / rate;
      if i > 29 {
        i := 29;
      }
      assert i == Bucket(having, rate);
      counts[i] := counts[i] + 1;
      readings := readings + [Reading(having, rate)];
      assert readings[..|readings| - 1] == old(readings);
      assert forall b :: 0 <= b < BUCKETS ==> counts[b] == Tally(readings, b);
    }

    /** `having` is the occupancy seen by the append; playback may have run since. */
    method TryShrink(having: nat, dt: int, clock: DropClock)
      requires Ok()
      modifies this`ring, this`readings, counts, clock
      ensures Ok()
      ensures View(clock) == Apply(old(View(clock)), Shrink(having, dt))
    {
      Record(having);
      if clock.tms == 0 {
        clock.tms := dt;
        return;
      } else if dt < clock.tms + 12000 {
        return;
      }
      clock.tms := dt;

      var zero, max := ScanAndClear();
      readings := [];
      assert counts[..] == Histogram(readings);
      DropOldest(zero, max);
    }

    method DropOldest(leading: nat, peak: nat)
      modifies this`ring
      ensures ring == old(ring)[DropFor(leading, peak, cap, |old(ring)|)..]
    {
      var zero := leading * 2 / 3;
      var max := peak;
      if max < 6 {
        return;
      } else if max > zero * N {
        max := zero * N;
      }
      var skip := EvenUp(cap * max / (30 * N));
      if |ring| > skip * 3 && skip > 0 {
        ring := ring[skip..];
      }
    }

    method AppendPcm(samples: seq<real>, dt: int, clock: DropClock)
      requires Ok()
      modifies this`ring, this`readings, counts, clock
      ensures Ok()
      ensures var mid := Apply(old(View(clock)), Append(samples));
              View(clock) == Apply(mid, Shrink(|mid.ring|, dt))
    {
      var having := AppendPcm2(samples, clock);
      TryShrink(having, dt, clock);
    }

    /** One operation of the receiving side. */
    method Perform(op: Op, clock: DropClock)
      requires Ok() && Allowed(op) && !op.Play?
      modifies this, counts, clock
      ensures Ok()
      ensures View(clock) == Apply(old(View(clock)), op)
    {
      match op {
        case Resize(sampleRate, channels) => DoResize(sampleRate, channels, clock);
        case Append(samples) => var _ := AppendPcm2(samples, clock);
        case Shrink(having, dt) => TryShrink(having, dt, clock);
      }
    }

    /** The callback sleeps without the lock, and the receiving side goes on. */
    method Sleep(meanwhile: seq<Op>, clock: DropClock)
      requires Ok() && AllAllowed(meanwhile) && forall i :: 0 <= i < |meanwhile| ==> !meanwhile[i].Play?
      modifies this, counts, clock
      ensures Ok()
      ensures View(clock) == Run(old(View(clock)), meanwhile)
    {
      var i := 0;
      while i < |meanwhile|
        invariant 0 <= i <= |meanwhile| && Ok()
        invariant AllAllowed(meanwhile[i..])
        invariant Run(View(clock), meanwhile[i..]) == Run(old(View(clock)), meanwhile)
      {
        assert meanwhile[i..][0] == meanwhile[i] && meanwhile[i..][1..] == meanwhile[i + 1..];
        Perform(meanwhile[i], clock);
        i := i + 1;
      }
    }

    /** Hands out the oldest samples, padded with silence. */
    method Pop(data: array<real>, ghost clock: DropClock)
      requires Ok()
      modifies data, this`ring
      ensures Ok()
      ensures View(clock) == Apply(old(View(clock)), Play(data.Length))
      ensures Filled(data[..], old(ring))
    {
      var n := data.Length;
      if |ring| < n {
        n := |ring|;
      }
      var elems := ring[..n];
      ring := ring[n..];
      var i := 0;
      while i < data.Length
        modifies data
        invariant 0 <= i <= data.Length
        invariant forall j :: 0 <= j < i ==> data[j] == if j < n then elems[j] else 0.0
      {
        data[i] := if i < |elems| then elems[i] else 0.0;
        i := i + 1;
      }
    }

    /**
     The output callback. With too few samples it may sleep once, while the
     receiving side does `meanwhile`, and then takes what there is. `howLong` is
     the time to playback in milliseconds, where the system tells.
     */
    method Output(data: array<real>, howLong: Option<real>, meanwhile: seq<Op>, clock: DropClock)
      requires Ok() && AllAllowed(meanwhile) && forall i :: 0 <= i < |meanwhile| ==> !meanwhile[i].Play?
      modifies data, this, counts, clock
      ensures Ok()
      ensures var s := Awaited(old(View(clock)), data.Length, howLong, meanwhile);
              View(clock) == Apply(s, Play(data.Length)) && Filled(data[..], s.ring)
    {
      if |ring| < data.Length && howLong.Some? && 6.0 < howLong.value < 3000.0 {
        Sleep(meanwhile, clock);
      }
      Pop(data, clock);
    }
  }

  /** What the callback finds after its wait, if it waits. */
  ghost function Awaited(s: Snapshot, wanted: nat, howLong: Option<real>, meanwhile: seq<Op>): (t: Snapshot)
    requires Valid(s) && AllAllowed(meanwhile)
    ensures Valid(t)
  {
    if |s.ring| < wanted && howLong.Some? && 6.0 < howLong.value < 3000.0 then Run(s, meanwhile) else s
  }

  /** The callback waits exactly when it has too few samples and playback is more than 6 and less than 3000 ms off. */
  lemma WaitsIff(s: Snapshot, wanted: nat, howLong: Option<real>, meanwhile: seq<Op>)
    requires Valid(s) && AllAllowed(meanwhile)
    ensures Awaited(s, wanted, howLong, meanwhile) ==
            match howLong
            case Some(ms) => if |s.ring| < wanted && ms > 6.0 && ms < 3000.0 then Run(s, meanwhile) else s
            case None => s
  {
  }

  /** `data` is the front of the ring, and silence where the ring was too short. */
  ghost predicate Filled(data: seq<real>, ring: seq<real>) {
    forall i :: 0 <= i < |data| ==> data[i] == if i < |ring| then ring[i] else 0.0
  }
}
