/** The standard summary-statistics collector: the callbacks that turn the
    engine's reports into per-path timelines, sums and a histogram.

    The three timelines are arrays of bin counts indexed by integer time from
    -timelineshift to npers-1: logical bin b is stored at physical index
    b + timelineshift.  Times are reals; the C conversions of a time to a bin
    index are written out (Floor for floor(), Trunc for an (int) cast, Ceil
    for ceil()).  Bin counts are unbounded naturals. */
module SummaryStats {
  import opened Individuals

  const UINT32_MAX: int := 0xFFFF_FFFF
  const INT32_MAX: int := 0x7FFF_FFFF
  const INT32_MIN: int := -0x8000_0000

  predicate IsInt32(x: int) { INT32_MIN <= x <= INT32_MAX }

  function Floor(x: real): int { x.Floor }

  /** The C (int) cast of a real: rounds toward zero. */
  function Trunc(x: real): int
  {
    if x >= 0.0 then x.Floor else -((-x).Floor)
  }

  function Ceil(x: real): int { -((-x).Floor) }

  /** Truncating toward zero is monotone: an event time no later than tmax
      never has a later truncated bin than tmax. */
  lemma TruncMonotone(x: real, y: real)
    requires x <= y
    ensures Trunc(x) <= Trunc(y)
  {
    if x >= 0.0 {
    } else if y >= 0.0 {
      assert Trunc(x) <= 0;
    } else {
      assert -y <= -x;
      assert (-y).Floor <= (-x).Floor;
    }
  }

  /** The C comparison `i < n` between a 32-bit signed i and an unsigned n:
      i is first converted to unsigned (two's complement, modulo 2^32). */
  predicate SignedBelowUnsigned(i: int, n: nat)
  {
    i % 0x1_0000_0000 < n
  }

  /** For an unsigned bound below 2^31, the mixed comparison holds exactly for
      the non-negative i below the bound: a negative i never passes. */
  lemma SignedBelowUnsignedMeaning(i: int, n: nat)
    requires IsInt32(i) && n <= INT32_MAX
    ensures SignedBelowUnsigned(i, n) <==> 0 <= i < n
  {
    if i < 0 {
      assert i % 0x1_0000_0000 == i + 0x1_0000_0000;
    } else {
      assert i % 0x1_0000_0000 == i;
    }
  }

  /** A 32-bit unsigned value stored into a 32-bit signed variable, on a
      two's-complement machine. */
  function Int32OfUint32(x: int): int
    requires 0 <= x <= UINT32_MAX
  {
    if x <= INT32_MAX then x else x - 0x1_0000_0000
  }

  /** The 64-bit little-endian read of the 32-bit infection counter (lo) and
      of the 4 bytes after it (hi), plus one, stored back into 32 bits. */
  function WideCountPlusOne(lo: nat, hi: nat): nat
  {
    (lo + hi * 0x1_0000_0000 + 1) % 0x1_0000_0000
  }

  /** On a little-endian host the bytes after the counter drop out of the
      result: the histogram length becomes exactly counter + 1. */
  lemma WideCountIsCounterPlusOne(lo: nat, hi: nat)
    requires lo < UINT32_MAX
    ensures WideCountPlusOne(lo, hi) == lo + 1
  {
    assert lo + hi * 0x1_0000_0000 + 1 == (lo + 1) + hi * 0x1_0000_0000;
  }

  /** Keeps the smallest maxed-out time index seen: the update done when a
      bin over nimax is met. */
  function MinIndexUpdate(current: int, eti: int): int
  {
    if eti < current then eti else current
  }

  /** The reset value as written: UINT32_MAX stored into the signed 32-bit
      index, which becomes -1. */
  function NimaxResetAsWritten(): (r: int)
    ensures r == -1
  {
    Int32OfUint32(UINT32_MAX)
  }

  /** As written, the first maxed-out bin of a path, at any time index >= 0,
      is not recorded: the index stays at -1. */
  lemma AsWrittenResetHidesMaxedOutBin(eti: int)
    requires eti >= 0
    ensures MinIndexUpdate(NimaxResetAsWritten(), eti) == -1
  {
  }

  /** The sentinel the path index is meant to start from (the output writers
      treat INT32_MAX as "no bin maxed out"). */
  const NimaxReset: int := INT32_MAX

  /** Applying the updates for a sequence of maxed-out bins from a start value. */
  function MinIndexOver(start: int, bins: seq<int>): int
  {
    if bins == [] then start else MinIndexUpdate(MinIndexOver(start, bins[..|bins|-1]), bins[|bins|-1])
  }

  /** From the corrected reset, the recorded index is the smallest maxed-out
      bin of the path, or the sentinel when none maxed out. */
  lemma {:induction false} CorrectedResetRecordsMinimum(bins: seq<int>)
    requires forall k :: 0 <= k < |bins| ==> bins[k] <= INT32_MAX
    ensures bins == [] ==> MinIndexOver(NimaxReset, bins) == INT32_MAX
    ensures bins != [] ==> MinIndexOver(NimaxReset, bins) in bins
    ensures forall k :: 0 <= k < |bins| ==> MinIndexOver(NimaxReset, bins) <= bins[k]
  {
    if bins != [] {
      var init := bins[..|bins|-1];
      CorrectedResetRecordsMinimum(init);
      assert forall k :: 0 <= k < |init| ==> init[k] == bins[k];
    }
  }

  /** The bins, in logical time, that an individual counts as infectious in:
      from the floor of its infection time (end of communicable period minus
      communicable and latent periods), taken as 0 when that is before the
      first allocated bin, up to the floor of its end of communicable period,
      capped at the last bin. */
  function InfLow(ii: Individual, shift: nat): int
  {
    var i := Floor(ii.endCommPeriod - ii.commPeriod - ii.latentPeriod);
    if -i > shift then 0 else i
  }

  function InfHigh(ii: Individual, npers: nat): int
  {
    if ii.endCommPeriod >= npers as real then npers - 1 else Floor(ii.endCommPeriod)
  }

  /** The C computes both ends of the infectious range as `int`s: the floor
      of the infection time must fit, with its negation, and so must the floor
      of the end of the communicable period whenever it is not capped. */
  predicate InfRangeFits(ii: Individual, npers: nat)
  {
    && INT32_MIN < Floor(ii.endCommPeriod - ii.commPeriod - ii.latentPeriod) <= INT32_MAX
    && (ii.endCommPeriod < npers as real ==> IsInt32(Floor(ii.endCommPeriod)))
  }

  /** Under that bound, every value the range computation handles, the
      negated lower end included, is a 32-bit signed integer. */
  lemma InfRangeInt32(ii: Individual, shift: nat, npers: nat)
    requires InfRangeFits(ii, npers) && 1 <= npers <= INT32_MAX
    ensures IsInt32(InfLow(ii, shift)) && IsInt32(InfHigh(ii, npers))
    ensures IsInt32(-Floor(ii.endCommPeriod - ii.commPeriod - ii.latentPeriod))
  {
  }

  /** The infectious range never leaves the allocated timeline. */
  lemma InfRangeAllocated(ii: Individual, shift: nat, npers: nat)
    requires npers >= 1
    ensures InfLow(ii, shift) + shift >= 0
    ensures InfHigh(ii, npers) <= npers - 1
  {
  }

  /** The bin that receives an individual's positive test. */
  function TestBin(ii: Individual, tdeltat: real): int
  {
    Floor(ii.endCommPeriod + tdeltat)
  }

  /** The whole new-event condition on the bin: some infections, the truncated
      event time not past the truncated tmax, and a layer within lmax. */
  predicate EventBinCounted(ii: Individual, layer: nat, lmax: nat, tmax: real)
  {
    ii.ninfections != 0 && Trunc(ii.eventTime) <= Trunc(tmax) && layer <= lmax
  }

  /** An event no later than tmax always passes the looser bin condition: the
      new-event callback accepts exactly the events with infections, within
      lmax and no later than tmax. */
  lemma AcceptedEventsAreCounted(ii: Individual, layer: nat, lmax: nat, tmax: real)
    ensures (EventBinCounted(ii, layer, lmax, tmax) && ii.eventTime <= tmax)
            <==> (ii.ninfections != 0 && layer <= lmax && ii.eventTime <= tmax)
  {
    if ii.eventTime <= tmax {
      TruncMonotone(ii.eventTime, tmax);
    }
  }

  function Zeros(n: nat): seq<nat>
    ensures |Zeros(n)| == n && forall k :: 0 <= k < n ==> Zeros(n)[k] == 0
  {
    seq(n, _ => 0)
  }

  /** A timeline re-based to a larger shift: d new zero bins in front. */
  function Rebased(s: seq<nat>, d: nat): seq<nat>
  {
    Zeros(d) + s
  }

  /** Re-basing by d keeps every bin at its logical index (its physical
      index moves up by d) and makes the d new bins empty. */
  lemma RebasedKeepsLogicalBins(s: seq<nat>, d: nat)
    ensures |Rebased(s, d)| == |s| + d
    ensures forall k :: d <= k < |s| + d ==> Rebased(s, d)[k] == s[k - d]
    ensures forall k :: 0 <= k < d ==> Rebased(s, d)[k] == 0
  {
  }

  class StdSummaryStats {
    var extinctionTime: real
    var commperSum: real
    var inf: array<nat>          // individuals infectious during each bin
    var newinf: array<nat>       // individuals newly infected during each bin
    var newpostest: array<nat>   // positive test results during each bin
    var ngeninfs: seq<nat>       // histogram of the infections per individual
    var ninfbins: nat            // its length
    var npers: nat               // number of non-negative bins
    var timelineshift: nat       // number of negative bins
    var tnpersa: nat             // total number of bins
    var rsum: nat
    var lmax: nat
    var nimax: nat
    var nimaxedoutmintimeindex: int
    var extinction: bool

    ghost predicate Valid()
      reads this, inf, newinf, newpostest
    {
      && inf != newinf && inf != newpostest && newinf != newpostest
      && tnpersa == timelineshift + npers
      && inf.Length == tnpersa && newinf.Length == tnpersa && newpostest.Length == tnpersa
      && 1 <= npers <= INT32_MAX && timelineshift <= INT32_MAX
      && ninfbins == |ngeninfs|
    }

    /** Allocation of the collector, with no negative bins yet and every
        bin empty. */
    constructor Init(npers0: nat, lmax0: nat, nimax0: nat, ninfAlloc: nat)
      requires 1 <= npers0 <= INT32_MAX
      ensures Valid() && fresh(inf) && fresh(newinf) && fresh(newpostest)
      ensures npers == npers0 && timelineshift == 0 && lmax == lmax0 && nimax == nimax0
      ensures inf[..] == Zeros(npers0) && newinf[..] == Zeros(npers0) && newpostest[..] == Zeros(npers0)
      ensures ngeninfs == Zeros(ninfAlloc)
    {
      inf := new nat[npers0](_ => 0);
      newinf := new nat[npers0](_ => 0);
      newpostest := new nat[npers0](_ => 0);
      ngeninfs := Zeros(ninfAlloc);
      ninfbins := ninfAlloc;
      npers := npers0;
      timelineshift := 0;
      tnpersa := npers0;
      lmax := lmax0;
      nimax := nimax0;
      extinctionTime := 0.0;
      commperSum := 0.0;
      rsum := 0;
      nimaxedoutmintimeindex := NimaxReset;
      extinction := true;
    }

    /** Prepares a path: every bin of the three timelines, negative ones
        included, is emptied, the sums and the extinction time are 0 and the
        path is extinct until shown otherwise.  The maxed-out index is reset,
        as written, to UINT32_MAX stored into the signed field: -1. */
    method PathInit()
      requires Valid()
      modifies this, inf, newinf, newpostest
      ensures Valid() && unchanged(this`inf, this`newinf, this`newpostest)
      ensures npers == old(npers) && timelineshift == old(timelineshift) && lmax == old(lmax)
      ensures nimax == old(nimax) && ngeninfs == old(ngeninfs)
      ensures inf[..] == Zeros(tnpersa) && newinf[..] == Zeros(tnpersa) && newpostest[..] == Zeros(tnpersa)
      ensures extinctionTime == 0.0 && commperSum == 0.0 && rsum == 0
      ensures extinction && nimaxedoutmintimeindex == NimaxResetAsWritten()
    {
      extinctionTime := 0.0;
      commperSum := 0.0;
      forall k | 0 <= k < inf.Length {
        inf[k] := 0;
      }
      forall k | 0 <= k < newinf.Length {
        newinf[k] := 0;
      }
      forall k | 0 <= k < newpostest.Length {
        newpostest[k] := 0;
      }
      rsum := 0;
      extinction := true;
      nimaxedoutmintimeindex := NimaxResetAsWritten();
    }

    /** The path preparation with the evidently intended reset of the
        maxed-out index to the INT32_MAX sentinel, "no bin maxed out". */
    method PathInitCorrected()
      requires Valid()
      modifies this, inf, newinf, newpostest
      ensures Valid() && unchanged(this`inf, this`newinf, this`newpostest)
      ensures npers == old(npers) && timelineshift == old(timelineshift) && lmax == old(lmax)
      ensures nimax == old(nimax) && ngeninfs == old(ngeninfs)
      ensures inf[..] == Zeros(tnpersa) && newinf[..] == Zeros(tnpersa) && newpostest[..] == Zeros(tnpersa)
      ensures extinctionTime == 0.0 && commperSum == 0.0 && rsum == 0
      ensures extinction && nimaxedoutmintimeindex == NimaxReset
    {
      PathInit();
      nimaxedoutmintimeindex := NimaxReset;
    }

    /** New-event callback: adds the event's infections to the individual's
        counter and, when the event's bin is counted, to that bin of the
        new-infection timeline; accepts the event when, in addition, it is no
        later than tmax. */
    method NewEvent(ii: Individual, layer: nat, counter: nat, tmax: real)
      returns (accepted: bool, counter': nat)
      requires Valid()
      requires EventBinCounted(ii, layer, lmax, tmax) ==> 0 <= Floor(ii.eventTime) + timelineshift && Floor(ii.eventTime) < npers
      modifies newinf
      ensures counter' == counter + ii.ninfections
      ensures accepted <==> EventBinCounted(ii, layer, lmax, tmax) && ii.eventTime <= tmax
      ensures EventBinCounted(ii, layer, lmax, tmax) ==>
                var k := Floor(ii.eventTime) + timelineshift;
                newinf[..] == old(newinf[..])[k := old(newinf[k]) + ii.ninfections]
      ensures !EventBinCounted(ii, layer, lmax, tmax) ==> newinf[..] == old(newinf[..])
    {
      counter' := counter;
      accepted := false;
      if ii.ninfections != 0 {
        counter' := counter + ii.ninfections;
        if Trunc(ii.eventTime) <= Trunc(tmax) && layer <= lmax {
          var k := Floor(ii.eventTime) + timelineshift;
          newinf[k] := newinf[k] + ii.ninfections;
          accepted := ii.eventTime <= tmax;
        }
      }
    }

    /** New-event callback with a cap: a counted bin already above nimax is
        left as it is, the path is marked as not extinct, the smallest
        maxed-out index is kept, and the event is refused. */
    method NewEventNimax(ii: Individual, layer: nat, counter: nat, tmax: real)
      returns (accepted: bool, counter': nat)
      requires Valid()
      requires EventBinCounted(ii, layer, lmax, tmax) ==> 0 <= Floor(ii.eventTime) + timelineshift && Floor(ii.eventTime) < npers
      modifies this`extinction, this`nimaxedoutmintimeindex, newinf
      ensures counter' == counter + ii.ninfections
      ensures var k := Floor(ii.eventTime) + timelineshift;
              var over := EventBinCounted(ii, layer, lmax, tmax) && old(newinf[k]) > nimax;
              && (accepted <==> EventBinCounted(ii, layer, lmax, tmax) && !over && ii.eventTime <= tmax)
              && (EventBinCounted(ii, layer, lmax, tmax) && !over ==>
                    newinf[..] == old(newinf[..])[k := old(newinf[k]) + ii.ninfections])
              && (!EventBinCounted(ii, layer, lmax, tmax) || over ==> newinf[..] == old(newinf[..]))
              && (over ==> (!extinction
                    && nimaxedoutmintimeindex == MinIndexUpdate(old(nimaxedoutmintimeindex), Floor(ii.eventTime))))
              && (!over ==> (extinction == old(extinction)
                    && nimaxedoutmintimeindex == old(nimaxedoutmintimeindex)))
    {
      counter' := counter;
      accepted := false;
      if ii.ninfections != 0 {
        counter' := counter + ii.ninfections;
        if Trunc(ii.eventTime) <= Trunc(tmax) && layer <= lmax {
          var eti := Floor(ii.eventTime);
          var k := eti + timelineshift;
          if newinf[k] <= nimax {
            newinf[k] := newinf[k] + ii.ninfections;
          } else {
            extinction := false;
            if eti < nimaxedoutmintimeindex {
              nimaxedoutmintimeindex := eti;
            }
            return;
          }
          accepted := ii.eventTime <= tmax;
        }
      }
    }

    /** New-infection callback: resets the individual's counter and, for an
        individual whose test is a true positive, counts the test in its bin
        when that bin is a non-negative one. */
    method NewInf(ii: Individual, tdeltat: real) returns (counter': nat)
      requires Valid()
      requires ii.truePositiveTest ==> IsInt32(TestBin(ii, tdeltat))
      modifies newpostest
      ensures counter' == 0
      ensures var b := TestBin(ii, tdeltat);
              if ii.truePositiveTest && 0 <= b < npers
              then newpostest[..] == old(newpostest[..])[b + timelineshift := old(newpostest[b + timelineshift]) + 1]
              else newpostest[..] == old(newpostest[..])
    {
      counter' := 0;
      if ii.truePositiveTest {
        var trt := TestBin(ii, tdeltat);
        SignedBelowUnsignedMeaning(trt, npers);
        if SignedBelowUnsigned(trt, npers) {
          newpostest[trt + timelineshift] := newpostest[trt + timelineshift] + 1;
        }
      }
    }

    /** A fresh timeline holding the bins s with d empty bins in front. */
    static method RebaseTimeline(s: seq<nat>, d: nat) returns (b: array<nat>)
      ensures fresh(b) && b[..] == Rebased(s, d)
    {
      b := new nat[d + |s|](k requires 0 <= k < d + |s| => if k < d then 0 else s[k - d]);
    }

    /** Makes room for bins down to -newshift in front of the three
        timelines, keeping every bin at its logical index. */
    method GrowFront(newshift: nat)
      requires Valid() && timelineshift < newshift <= INT32_MAX
      modifies this
      ensures Valid() && fresh(inf) && fresh(newinf) && fresh(newpostest)
      ensures timelineshift == newshift
      ensures inf[..] == Rebased(old(inf[..]), newshift - old(timelineshift))
      ensures newinf[..] == Rebased(old(newinf[..]), newshift - old(timelineshift))
      ensures newpostest[..] == Rebased(old(newpostest[..]), newshift - old(timelineshift))
      ensures unchanged(this`npers, this`lmax, this`nimax, this`ngeninfs, this`ninfbins, this`rsum)
      ensures unchanged(this`extinction, this`extinctionTime, this`commperSum, this`nimaxedoutmintimeindex)
    {
      var d := newshift - timelineshift;
      var a := RebaseTimeline(inf[..], d);
      var b := RebaseTimeline(newinf[..], d);
      var c := RebaseTimeline(newpostest[..], d);
      inf, newinf, newpostest := a, b, c;
      timelineshift := newshift;
      tnpersa := newshift + npers;
    }

    /** New-primary callback: unless the timelines start at the primary's
        creation, makes room in front of the timelines for the primary's
        infection time when it is earlier than the first bin, keeping every
        bin at its logical index; then does what the new-infection callback
        does. */
    method NewPriInf(ii: Individual, tdeltat: real, timeIsPriCreated: bool) returns (counter': nat)
      requires Valid()
      requires IsInt32(Ceil(-ii.endCommPeriod + ii.commPeriod + ii.latentPeriod))
      requires ii.truePositiveTest ==> IsInt32(TestBin(ii, tdeltat))
      modifies this, newpostest
      ensures Valid() && counter' == 0
      ensures unchanged(this`npers, this`lmax, this`nimax, this`ngeninfs, this`ninfbins, this`rsum)
      ensures unchanged(this`extinction, this`extinctionTime, this`commperSum, this`nimaxedoutmintimeindex)
      ensures var newshift := Ceil(-ii.endCommPeriod + ii.commPeriod + ii.latentPeriod);
              var rebase := !timeIsPriCreated && newshift > old(timelineshift);
              && timelineshift == (if rebase then newshift else old(timelineshift))
              && inf[..] == (if rebase then Rebased(old(inf[..]), newshift - old(timelineshift)) else old(inf[..]))
              && newinf[..] == (if rebase then Rebased(old(newinf[..]), newshift - old(timelineshift)) else old(newinf[..]))
      ensures var b := TestBin(ii, tdeltat);
              var shifted := Rebased(old(newpostest[..]), timelineshift - old(timelineshift));
              if ii.truePositiveTest && 0 <= b < npers
              then newpostest[..] == shifted[b + timelineshift := shifted[b + timelineshift] + 1]
              else newpostest[..] == shifted
    {
      var newshift := Ceil(-ii.endCommPeriod + ii.commPeriod + ii.latentPeriod);
      if !timeIsPriCreated && newshift > timelineshift {
        GrowFront(newshift);
      } else {
        assert Rebased(newpostest[..], 0) == newpostest[..];
      }
      counter' := NewInf(ii, tdeltat);
    }

    /** What ending and no-event individuals share: an individual truncated
        at tmax makes the path non-extinct, any other pushes the extinction
        time up to its end of communicable period; and each bin of its
        infectious range gains exactly one. */
    method RecordInfectiousPeriod(ii: Individual)
      requires Valid()
      requires InfRangeFits(ii, npers)
      modifies this`extinction, this`extinctionTime, inf
      ensures extinction == (old(extinction) && !ii.truncatedAtTmax)
      ensures extinctionTime == if !ii.truncatedAtTmax && ii.endCommPeriod > old(extinctionTime)
                                then ii.endCommPeriod else old(extinctionTime)
      ensures forall k :: 0 <= k < inf.Length ==>
                inf[k] == old(inf[k]) + (if InfLow(ii, timelineshift) <= k - timelineshift <= InfHigh(ii, npers) then 1 else 0)
    {
      if ii.truncatedAtTmax {
        extinction := false;
      } else if ii.endCommPeriod > extinctionTime {
        extinctionTime := ii.endCommPeriod;
      }
      var hi := if ii.endCommPeriod >= npers as real then npers - 1 else Floor(ii.endCommPeriod);
      var i := Floor(ii.endCommPeriod - ii.commPeriod - ii.latentPeriod);
      if -i > timelineshift {
        i := 0;
      }
      InfRangeAllocated(ii, timelineshift, npers);
      ghost var lo, e, t := i, extinction, extinctionTime;
      assert lo == InfLow(ii, timelineshift) && hi == InfHigh(ii, npers);
      while i <= hi
        invariant extinction == e && extinctionTime == t
        invariant lo <= i && (if lo <= hi then i <= hi + 1 else i == lo)
        invariant forall k :: 0 <= k < inf.Length ==>
                    inf[k] == old(inf[k]) + (if lo <= k - timelineshift < i then 1 else 0)
      {
        inf[i + timelineshift] := inf[i + timelineshift] + 1;
        i := i + 1;
      }
    }

    /** End-of-infection callback: adds the individual's infections to the
        R sum and its communicable period to the sum of periods, then records
        its infectious period. */
    method EndInf(ii: Individual, counter: nat)
      requires Valid()
      requires InfRangeFits(ii, npers)
      modifies this`rsum, this`commperSum, this`extinction, this`extinctionTime, inf
      ensures rsum == old(rsum) + counter
      ensures commperSum == old(commperSum) + ii.commPeriod
      ensures extinction == (old(extinction) && !ii.truncatedAtTmax)
      ensures extinctionTime == if !ii.truncatedAtTmax && ii.endCommPeriod > old(extinctionTime)
                                then ii.endCommPeriod else old(extinctionTime)
      ensures forall k :: 0 <= k < inf.Length ==>
                inf[k] == old(inf[k]) + (if InfLow(ii, timelineshift) <= k - timelineshift <= InfHigh(ii, npers) then 1 else 0)
    {
      rsum := rsum + counter;
      commperSum := commperSum + ii.commPeriod;
      RecordInfectiousPeriod(ii);
    }

    /** End-of-infection callback that also records the individual's number
        of infections in the histogram, growing it with empty bins first when
        it is too short. */
    method EndInfRecNinfs(ii: Individual, counter: nat, upperWord: nat)
      requires Valid() && counter < UINT32_MAX
      requires InfRangeFits(ii, npers)
      modifies this`ngeninfs, this`ninfbins, this`rsum, this`commperSum, this`extinction, this`extinctionTime, inf
      ensures Valid()
      ensures |ngeninfs| == if counter < |old(ngeninfs)| then |old(ngeninfs)| else counter + 1
      ensures forall k :: 0 <= k < |ngeninfs| ==>
                ngeninfs[k] == (if k < |old(ngeninfs)| then old(ngeninfs)[k] else 0) + (if k == counter then 1 else 0)
      ensures rsum == old(rsum) + counter
      ensures commperSum == old(commperSum) + ii.commPeriod
      ensures extinction == (old(extinction) && !ii.truncatedAtTmax)
      ensures extinctionTime == if !ii.truncatedAtTmax && ii.endCommPeriod > old(extinctionTime)
                                then ii.endCommPeriod else old(extinctionTime)
      ensures forall k :: 0 <= k < inf.Length ==>
                inf[k] == old(inf[k]) + (if InfLow(ii, timelineshift) <= k - timelineshift <= InfHigh(ii, npers) then 1 else 0)
    {
      if counter >= ninfbins {
        ngeninfs := ngeninfs + Zeros(counter + 1 - ninfbins);
        WideCountIsCounterPlusOne(counter, upperWord);
        ninfbins := WideCountPlusOne(counter, upperWord);
      }
      ngeninfs := ngeninfs[counter := ngeninfs[counter] + 1];
      EndInf(ii, counter);
    }

    /** No-event callback: adds the individual's communicable period to the
        sum of periods and records its infectious period; the R sum is not
        touched. */
    method NoEventInf(ii: Individual)
      requires Valid()
      requires InfRangeFits(ii, npers)
      modifies this`commperSum, this`extinction, this`extinctionTime, inf
      ensures commperSum == old(commperSum) + ii.commPeriod
      ensures extinction == (old(extinction) && !ii.truncatedAtTmax)
      ensures extinctionTime == if !ii.truncatedAtTmax && ii.endCommPeriod > old(extinctionTime)
                                then ii.endCommPeriod else old(extinctionTime)
      ensures forall k :: 0 <= k < inf.Length ==>
                inf[k] == old(inf[k]) + (if InfLow(ii, timelineshift) <= k - timelineshift <= InfHigh(ii, npers) then 1 else 0)
    {
      commperSum := commperSum + ii.commPeriod;
      RecordInfectiousPeriod(ii);
    }

    /** No-event callback that also counts the individual in histogram bin 0,
        which must already exist: the histogram is not grown here. */
    method NoEventInfRecNinfs(ii: Individual)
      requires Valid() && |ngeninfs| >= 1
      requires InfRangeFits(ii, npers)
      modifies this`ngeninfs, this`commperSum, this`extinction, this`extinctionTime, inf
      ensures ngeninfs == old(ngeninfs)[0 := old(ngeninfs)[0] + 1]
      ensures commperSum == old(commperSum) + ii.commPeriod
      ensures extinction == (old(extinction) && !ii.truncatedAtTmax)
      ensures extinctionTime == if !ii.truncatedAtTmax && ii.endCommPeriod > old(extinctionTime)
                                then ii.endCommPeriod else old(extinctionTime)
      ensures forall k :: 0 <= k < inf.Length ==>
                inf[k] == old(inf[k]) + (if InfLow(ii, timelineshift) <= k - timelineshift <= InfHigh(ii, npers) then 1 else 0)
    {
      ngeninfs := ngeninfs[0 := ngeninfs[0] + 1];
      NoEventInf(ii);
    }
  }
}
