/** The per-thread output side of the simulation executable: growing the
    thread's accumulated timelines, and writing one path's timelines and
    contact-tracing entries into a binary buffer of little-endian 32-bit
    words.  The buffer is modelled as an array of 32-bit words on a
    little-endian host, so htole32 is the identity. */
module ThreadOutput {
  import opened SummaryStats

  newtype u32 = x: int | 0 <= x < 0x1_0000_0000

  /** The 32-bit word that holds a signed value in two's complement. */
  function Word(v: int): u32
  {
    (v % 0x1_0000_0000) as u32
  }

  /** A 32-bit signed value survives the trip through its word. */
  lemma WordDecodes(v: int)
    requires IsInt32(v)
    ensures Int32OfUint32(Word(v) as int) == v
  {
    if v < 0 {
      assert v % 0x1_0000_0000 == v + 0x1_0000_0000;
    } else {
      assert v % 0x1_0000_0000 == v;
    }
  }

  /** A signed 32-bit value widened to 64 bits, put in little-endian order
      and stored into a 32-bit slot: the slot receives the low half. */
  function WideWord(v: int): u32
  {
    ((v % 0x1_0000_0000_0000_0000) % 0x1_0000_0000) as u32
  }

  /** On a little-endian host the 64-bit store into a 32-bit slot gives the
      same word as a 32-bit store. */
  lemma WideWordIsWord(v: int)
    ensures WideWord(v) == Word(v)
  {
    var q := v / 0x1_0000_0000_0000_0000;
    var m := v % 0x1_0000_0000_0000_0000;
    assert v == m + (q * 0x1_0000_0000) * 0x1_0000_0000;
    ModuloDropsMultiples(m, q * 0x1_0000_0000);
  }

  lemma ModuloDropsMultiples(m: int, k: int)
    ensures (m + k * 0x1_0000_0000) % 0x1_0000_0000 == m % 0x1_0000_0000
  {
  }

  function ZeroWords(n: nat): seq<u32>
    ensures |ZeroWords(n)| == n && forall k :: 0 <= k < n ==> ZeroWords(n)[k] == 0
  {
    seq(n, _ => 0 as u32)
  }

  /** What the writers read of one finished path: its three timelines over
      the bins from -nneg to |inf|-nneg-1 (logical bin b at index b + nneg),
      the smallest maxed-out time index and the extinction result. */
  datatype PathTimelines = PathTimelines(
    inf: seq<u32>, newinf: seq<u32>, newpostest: seq<u32>,
    nneg: nat,
    maxedout: int,
    extinction: bool, extinctionTime: real)

  predicate Wf(p: PathTimelines)
  {
    && 1 <= |p.inf| <= INT32_MAX
    && |p.newinf| == |p.inf| && |p.newpostest| == |p.inf|
    && p.nneg <= |p.inf|
    && IsInt32(p.maxedout)
    && (p.extinction ==> IsInt32(Floor(p.extinctionTime)))
  }

  /** The third header word's value: the floor of the extinction time for an
      extinct path, -INT32_MAX otherwise. */
  function ExtValue(p: PathTimelines): int
  {
    if p.extinction then Floor(p.extinctionTime) else -INT32_MAX
  }

  /** The bins a writer keeps: those with infectious individuals and, for the
      writers with positive tests, those with positive tests. */
  function Live(p: PathTimelines, withTests: bool): (live: seq<bool>)
    requires Wf(p)
    ensures |live| == |p.inf|
  {
    seq(|p.inf|, b requires 0 <= b < |p.inf| => p.inf[b] != 0 || (withTests && p.newpostest[b] != 0))
  }

  /** The number of bins kept once the trailing dead ones are trimmed: one
      past the last live bin, and at least one. */
  function KeptEnd(live: seq<bool>): (n: nat)
    requires |live| >= 1
    ensures 1 <= n <= |live|
    ensures forall b :: n <= b < |live| ==> !live[b]
    ensures n >= 2 ==> live[n - 1]
  {
    if |live| == 1 || live[|live| - 1] then |live| else KeptEnd(live[..|live| - 1])
  }

  /** The first live bin. */
  function FirstLive(live: seq<bool>): (i: nat)
    requires true in live
    ensures i < |live| && live[i]
    ensures forall j :: 0 <= j < i ==> !live[j]
  {
    if live[0] then 0
    else
      assert true in live[1..] by {
        var k :| 0 <= k < |live| && live[k];
        assert live[1..][k - 1];
      }
      1 + FirstLive(live[1..])
  }

  /** The down-scan shared by the path writers: from the last bin toward bin
      0, stopping at the first live bin. */
  method LastKept(live: seq<bool>) returns (b: nat)
    requires |live| >= 1
    ensures b + 1 == KeptEnd(live)
  {
    b := |live| - 1;
    while b > 0 && !live[b]
      invariant b < |live|
      invariant KeptEnd(live[..b + 1]) == KeptEnd(live)
    {
      assert live[..b + 1][..b] == live[..b];
      b := b - 1;
    }
    assert live[..b + 1][..b] == live[..b];
  }

  /** The up-scan of the relative-time writers: from the first bin, stopping
      at the first live bin. */
  method FirstKept(live: seq<bool>) returns (i: nat)
    requires true in live
    ensures i == FirstLive(live)
  {
    i := 0;
    while !live[i]
      invariant i <= FirstLive(live)
      decreases FirstLive(live) - i
    {
      i := i + 1;
    }
  }

  /** What the asserts of the regular writers demand of a path: no negative
      bins, no new infections in the trimmed bins, and, when only bin 0 is
      kept, a non-empty bin 0 in every written timeline. */
  predicate RegReady(p: PathTimelines, withTests: bool)
    requires Wf(p)
  {
    var n := KeptEnd(Live(p, withTests));
    && p.nneg == 0
    && (forall b :: n <= b < |p.inf| ==> p.newinf[b] == 0)
    && (n == 1 ==> p.inf[0] != 0 && p.newinf[0] != 0 && (withTests ==> p.newpostest[0] != 0))
  }

  /** What the asserts of the relative-time writers demand of a path: the
      trailing conditions of the regular writers, some infectious bin, the
      first one at time 0 or before, and no new infections (nor, with tests,
      positive tests) before it. */
  predicate ReltimeReady(p: PathTimelines, withTests: bool)
    requires Wf(p)
  {
    var n := KeptEnd(Live(p, withTests));
    && (forall b :: n <= b < |p.inf| ==> p.newinf[b] == 0)
    && (n == 1 ==> p.inf[0] != 0 && p.newinf[0] != 0 && (withTests ==> p.newpostest[0] != 0))
    && true in Live(p, false)
    && FirstLive(Live(p, false)) <= p.nneg
    && (forall b :: 0 <= b < FirstLive(Live(p, false)) ==>
          p.newinf[b] == 0 && (withTests ==> p.newpostest[b] == 0))
  }

  /** The first infectious bin comes before the end of the kept bins. */
  lemma FirstBeforeEnd(p: PathTimelines, withTests: bool)
    requires Wf(p) && true in Live(p, false)
    ensures FirstLive(Live(p, false)) < KeptEnd(Live(p, withTests))
  {
  }

  /** The timeline blocks written for n bins from index lo. */
  function Body(p: PathTimelines, lo: nat, n: nat, withTests: bool): seq<u32>
    requires Wf(p) && lo + n <= |p.inf|
  {
    p.inf[lo..lo + n] + p.newinf[lo..lo + n] + (if withTests then p.newpostest[lo..lo + n] else [])
  }

  /** The number of words of the blocks for n bins. */
  function BodyLen(withTests: bool, n: nat): nat { if withTests then 3 * n else 2 * n }

  /** The words of a regular path: the number of bins, the maxed-out index,
      the extinction word, then the kept bins of each timeline. */
  function RegWords(p: PathTimelines, withTests: bool): (w: seq<u32>)
    requires Wf(p)
    ensures 3 <= |w| <= 3 + BodyLen(withTests, |p.inf|)
  {
    RegLayout(p, withTests, KeptEnd(Live(p, withTests)))
  }

  /** The regular words for the kept bins 0 to n - 1. */
  function RegLayout(p: PathTimelines, withTests: bool, n: nat): (w: seq<u32>)
    requires Wf(p) && n <= |p.inf|
    ensures |w| == 3 + BodyLen(withTests, n)
  {
    [n as u32, Word(p.maxedout), WideWord(ExtValue(p))] + Body(p, 0, n, withTests)
  }

  /** The words of a relative-time path: the number of bins, the number of
      them before time 0, the maxed-out index, the extinction word, then the
      kept bins of each timeline. */
  function ReltimeWords(p: PathTimelines, withTests: bool): (w: seq<u32>)
    requires Wf(p) && ReltimeReady(p, withTests)
    ensures 4 <= |w| <= 4 + BodyLen(withTests, |p.inf|)
  {
    FirstBeforeEnd(p, withTests);
    ReltimeLayout(p, withTests, FirstLive(Live(p, false)), KeptEnd(Live(p, withTests)))
  }

  /** The relative-time words for the kept bins from index lo to hi - 1. */
  function ReltimeLayout(p: PathTimelines, withTests: bool, lo: nat, hi: nat): (w: seq<u32>)
    requires Wf(p) && lo < hi <= |p.inf| && lo <= p.nneg
    ensures |w| == 4 + BodyLen(withTests, hi - lo)
  {
    [(hi - lo) as u32, (p.nneg - lo) as u32, Word(p.maxedout), WideWord(ExtValue(p))]
      + Body(p, lo, hi - lo, withTests)
  }

  /** Copies n words of src from index lo to buf from index off. */
  method CopyBlock(src: seq<u32>, lo: nat, n: nat, buf: array<u32>, off: nat)
    requires lo + n <= |src| && off + n <= buf.Length
    modifies buf
    ensures forall k :: off <= k < off + n ==> buf[k] == src[k - off + lo]
    ensures forall j :: 0 <= j < buf.Length && !(off <= j < off + n) ==> buf[j] == old(buf[j])
  {
    var b := 0;
    while b < n
      invariant 0 <= b <= n
      invariant forall k :: off <= k < off + b ==> buf[k] == src[k - off + lo]
      invariant forall j :: 0 <= j < buf.Length && !(off <= j < off + b) ==> buf[j] == old(buf[j])
    {
      buf[off + b] := src[lo + b];
      b := b + 1;
    }
  }

  /** The blocks of n bins from lo, one timeline after the other. */
  lemma BodySlices(p: PathTimelines, lo: nat, n: nat, withTests: bool)
    requires Wf(p) && lo + n <= |p.inf|
    ensures var body := Body(p, lo, n, withTests);
            && |body| == BodyLen(withTests, n)
            && (forall k :: 0 <= k < n ==> body[k] == p.inf[lo + k])
            && (forall k :: n <= k < 2 * n ==> body[k] == p.newinf[lo + k - n])
            && (withTests ==> forall k :: 2 * n <= k < 3 * n ==> body[k] == p.newpostest[lo + k - 2 * n])
  {
  }

  /** Writes the timeline blocks of n bins from index lo at word off. */
  method WriteBody(p: PathTimelines, withTests: bool, lo: nat, n: nat, buf: array<u32>, off: nat)
    requires Wf(p) && lo + n <= |p.inf| && off + BodyLen(withTests, n) <= buf.Length
    modifies buf
    ensures forall j :: 0 <= j < BodyLen(withTests, n) ==> buf[off + j] == Body(p, lo, n, withTests)[j]
    ensures forall j :: 0 <= j < buf.Length && !(off <= j < off + BodyLen(withTests, n)) ==> buf[j] == old(buf[j])
  {
    CopyBlock(p.inf, lo, n, buf, off);
    CopyBlock(p.newinf, lo, n, buf, off + n);
    if withTests {
      CopyBlock(p.newpostest, lo, n, buf, off + 2 * n);
    }
    BodySlices(p, lo, n, withTests);
    ghost var body := Body(p, lo, n, withTests);
    forall j | 0 <= j < BodyLen(withTests, n)
      ensures buf[off + j] == body[j]
    {
      if j < n {
        assert buf[off + j] == p.inf[lo + j];
      } else if j < 2 * n {
        assert buf[off + j] == p.newinf[lo + j - n];
      } else {
        assert buf[off + j] == p.newpostest[lo + j - 2 * n];
      }
    }
  }

  /** A buffer that starts with a header and holds a body right after it
      holds their concatenation. */
  lemma HeaderThenBody(buf: array<u32>, header: seq<u32>, body: seq<u32>, w: seq<u32>)
    requires w == header + body && |w| <= buf.Length
    requires forall j :: 0 <= j < |header| ==> buf[j] == header[j]
    requires forall j :: 0 <= j < |body| ==> buf[|header| + j] == body[j]
    ensures forall j :: 0 <= j < |w| ==> buf[j] == w[j]
  {
    forall j | 0 <= j < |w|
      ensures buf[j] == w[j]
    {
      if j >= |header| {
        assert buf[|header| + (j - |header|)] == body[j - |header|];
      }
    }
  }

  /** Writes a regular path (with the positive-test block when withTests):
      the scan trims the trailing bins with nothing kept, the header and the
      blocks follow; returns the number of bytes written. */
  method WriteRegPath(p: PathTimelines, withTests: bool, buf: array<u32>) returns (size: nat)
    requires Wf(p) && RegReady(p, withTests)
    requires buf.Length >= 3 + BodyLen(withTests, |p.inf|)
    modifies buf
    ensures var w := RegWords(p, withTests);
            && size == 4 * |w| && size == 12 + 4 * BodyLen(withTests, KeptEnd(Live(p, withTests)))
            && (forall j :: 0 <= j < |w| ==> buf[j] == w[j])
            && (forall j :: |w| <= j < buf.Length ==> buf[j] == old(buf[j]))
  {
    var b := LastKept(Live(p, withTests));
    assert RegWords(p, withTests) == RegLayout(p, withTests, b + 1);
    size := WriteRegBins(p, withTests, b + 1, buf);
  }

  /** The writing part of the regular writer, once the number n of kept
      bins is known. */
  method WriteRegBins(p: PathTimelines, withTests: bool, n: nat, buf: array<u32>) returns (size: nat)
    requires Wf(p) && 1 <= n <= |p.inf|
    requires buf.Length >= 3 + BodyLen(withTests, |p.inf|)
    modifies buf
    ensures var w := RegLayout(p, withTests, n);
            && size == 4 * |w|
            && (forall j :: 0 <= j < |w| ==> buf[j] == w[j])
            && (forall j :: |w| <= j < buf.Length ==> buf[j] == old(buf[j]))
  {
    buf[0] := n as u32;
    buf[1] := Word(p.maxedout);
    buf[2] := WideWord(ExtValue(p));
    ghost var header := buf[..3];
    WriteBody(p, withTests, 0, n, buf, 3);
    HeaderThenBody(buf, header, Body(p, 0, n, withTests), RegLayout(p, withTests, n));
    size := 12 + 4 * BodyLen(withTests, n);
  }

  /** Writes a relative-time path (with the positive-test block when
      withTests): the scans trim the trailing and the leading bins with
      nothing kept; returns the number of bytes written. */
  method WriteReltimePath(p: PathTimelines, withTests: bool, buf: array<u32>) returns (size: nat)
    requires Wf(p) && ReltimeReady(p, withTests)
    requires buf.Length >= 4 + BodyLen(withTests, |p.inf|)
    modifies buf
    ensures var w := ReltimeWords(p, withTests);
            && size == 4 * |w|
            && (forall j :: 0 <= j < |w| ==> buf[j] == w[j])
            && (forall j :: |w| <= j < buf.Length ==> buf[j] == old(buf[j]))
  {
    var bmax := LastKept(Live(p, withTests));
    var bmin := FirstKept(Live(p, false));
    ReltimeWordsScanned(p, withTests, bmin, bmax + 1);
    size := WriteReltimeBins(p, withTests, bmin, bmax + 1, buf);
  }

  /** The relative-time words are the layout of the bins between the two
      scans' results. */
  lemma ReltimeWordsScanned(p: PathTimelines, withTests: bool, lo: nat, hi: nat)
    requires Wf(p) && ReltimeReady(p, withTests)
    requires lo == FirstLive(Live(p, false)) && hi == KeptEnd(Live(p, withTests))
    ensures lo < hi <= |p.inf| && lo <= p.nneg
    ensures ReltimeWords(p, withTests) == ReltimeLayout(p, withTests, lo, hi)
  {
    FirstBeforeEnd(p, withTests);
  }

  /** The writing part of the relative-time writer, once the kept bins from
      lo to hi - 1 are known. */
  method WriteReltimeBins(p: PathTimelines, withTests: bool, lo: nat, hi: nat, buf: array<u32>) returns (size: nat)
    requires Wf(p) && lo < hi <= |p.inf| && lo <= p.nneg
    requires buf.Length >= 4 + BodyLen(withTests, |p.inf|)
    modifies buf
    ensures var w := ReltimeLayout(p, withTests, lo, hi);
            && size == 4 * |w|
            && (forall j :: 0 <= j < |w| ==> buf[j] == w[j])
            && (forall j :: |w| <= j < buf.Length ==> buf[j] == old(buf[j]))
  {
    var nbins := hi - lo;
    buf[0] := nbins as u32;
    buf[1] := (p.nneg - lo) as u32;
    buf[2] := Word(p.maxedout);
    buf[3] := WideWord(ExtValue(p));
    ghost var header := buf[..4];
    WriteBody(p, withTests, lo, nbins, buf, 4);
    HeaderThenBody(buf, header, Body(p, lo, nbins, withTests), ReltimeLayout(p, withTests, lo, hi));
    size := 16 + 4 * BodyLen(withTests, nbins);
  }

  /** Reads a timeline of total bins back from the n words at off, which
      hold its bins from index lo; every other bin is empty. */
  function Unpack(w: seq<u32>, off: nat, n: nat, lo: nat, total: nat): (s: seq<u32>)
    requires off + n <= |w|
    ensures |s| == total
  {
    seq(total, b requires 0 <= b < total => if lo <= b < lo + n then w[off + b - lo] else 0)
  }

  /** The header words give back the maxed-out index and the extinction
      value. */
  lemma HeaderDecodes(p: PathTimelines)
    requires Wf(p)
    ensures Int32OfUint32(Word(p.maxedout) as int) == p.maxedout
    ensures Int32OfUint32(WideWord(ExtValue(p)) as int) == ExtValue(p)
  {
    WordDecodes(p.maxedout);
    WideWordIsWord(ExtValue(p));
    WordDecodes(ExtValue(p));
  }

  /** Past the kept bins, every written timeline is empty but the new
      infections, which the writers' asserts cover. */
  lemma TrailingBinsEmpty(p: PathTimelines, withTests: bool)
    requires Wf(p)
    ensures forall b :: KeptEnd(Live(p, withTests)) <= b < |p.inf| ==>
              p.inf[b] == 0 && (withTests ==> p.newpostest[b] == 0)
  {
    var live := Live(p, withTests);
    forall b | KeptEnd(live) <= b < |p.inf|
      ensures p.inf[b] == 0 && (withTests ==> p.newpostest[b] == 0)
    {
      assert !live[b];
    }
  }

  /** Before the first infectious bin, the infectious timeline is empty. */
  lemma LeadingBinsEmpty(p: PathTimelines)
    requires Wf(p) && true in Live(p, false)
    ensures forall b :: 0 <= b < FirstLive(Live(p, false)) ==> p.inf[b] == 0
  {
    var live := Live(p, false);
    forall b | 0 <= b < FirstLive(live)
      ensures p.inf[b] == 0
    {
      assert !live[b];
    }
  }

  /** One block read back: when the words at off hold the bins lo to hi - 1
      of s and every other bin of s is empty, unpacking gives back s. */
  lemma BlockRoundTrip(s: seq<u32>, lo: nat, hi: nat, w: seq<u32>, off: nat)
    requires lo <= hi <= |s| && off + (hi - lo) <= |w|
    requires w[off..off + (hi - lo)] == s[lo..hi]
    requires forall b :: 0 <= b < |s| && !(lo <= b < hi) ==> s[b] == 0
    ensures Unpack(w, off, hi - lo, lo, |s|) == s
  {
    var u := Unpack(w, off, hi - lo, lo, |s|);
    forall b | 0 <= b < |s|
      ensures u[b] == s[b]
    {
      if lo <= b < hi {
        assert u[b] == w[off..off + (hi - lo)][b - lo];
      }
    }
  }

  /** The relative-time layout holds each timeline's bins lo to hi - 1 in
      its block. */
  lemma ReltimeLayoutBlocks(p: PathTimelines, withTests: bool, lo: nat, hi: nat)
    requires Wf(p) && lo < hi <= |p.inf| && lo <= p.nneg
    ensures var w := ReltimeLayout(p, withTests, lo, hi);
            var n := hi - lo;
            && w[4..4 + n] == p.inf[lo..hi]
            && w[4 + n..4 + 2 * n] == p.newinf[lo..hi]
            && (withTests ==> w[4 + 2 * n..4 + 3 * n] == p.newpostest[lo..hi])
  {
    var n := hi - lo;
    var w := ReltimeLayout(p, withTests, lo, hi);
    var body := Body(p, lo, n, withTests);
    assert w[4..] == body;
    assert body[..n] == p.inf[lo..hi];
    assert body[n..2 * n] == p.newinf[lo..hi];
    if withTests {
      assert body[2 * n..3 * n] == p.newpostest[lo..hi];
    }
  }

  /** The regular layout holds each timeline's bins 0 to n - 1 in its
      block. */
  lemma RegLayoutBlocks(p: PathTimelines, withTests: bool, n: nat)
    requires Wf(p) && n <= |p.inf|
    ensures var w := RegLayout(p, withTests, n);
            && w[3..3 + n] == p.inf[0..n]
            && w[3 + n..3 + 2 * n] == p.newinf[0..n]
            && (withTests ==> w[3 + 2 * n..3 + 3 * n] == p.newpostest[0..n])
  {
    var w := RegLayout(p, withTests, n);
    var body := Body(p, 0, n, withTests);
    assert w[3..] == body;
    assert body[..n] == p.inf[0..n];
    assert body[n..2 * n] == p.newinf[0..n];
    if withTests {
      assert body[2 * n..3 * n] == p.newpostest[0..n];
    }
  }

  /** Every timeline a writer puts out is empty outside the bins lo to
      hi - 1. */
  predicate EmptyOutside(p: PathTimelines, withTests: bool, lo: nat, hi: nat)
    requires Wf(p)
  {
    forall b :: 0 <= b < |p.inf| && !(lo <= b < hi) ==>
      p.inf[b] == 0 && p.newinf[b] == 0 && (withTests ==> p.newpostest[b] == 0)
  }

  /** What a reader gets back from the words of one path. */
  datatype Decoding =
    | Malformed
    | Decoded(inf: seq<u32>, newinf: seq<u32>, newpostest: seq<u32>, maxedout: int, ext: int)

  /** Reads the words of a regular path back into timelines of total bins;
      without tests the positive-test timeline reads as empty. */
  function DecodeReg(w: seq<u32>, total: nat, withTests: bool): Decoding
  {
    if |w| < 3 then Malformed
    else
      var n := w[0] as int;
      if n > total || |w| != 3 + BodyLen(withTests, n) then Malformed
      else Decoded(
        Unpack(w, 3, n, 0, total),
        Unpack(w, 3 + n, n, 0, total),
        if withTests then Unpack(w, 3 + 2 * n, n, 0, total) else ZeroWords(total),
        Int32OfUint32(w[1] as int),
        Int32OfUint32(w[2] as int))
  }

  /** Reads the words of a relative-time path back into timelines of total
      bins of which nneg come before time 0. */
  function DecodeReltime(w: seq<u32>, nneg: nat, total: nat, withTests: bool): Decoding
  {
    if |w| < 4 then Malformed
    else
      var n := w[0] as int;
      var lo := nneg - w[1] as int;
      if lo < 0 || lo + n > total || |w| != 4 + BodyLen(withTests, n) then Malformed
      else Decoded(
        Unpack(w, 4, n, lo, total),
        Unpack(w, 4 + n, n, lo, total),
        if withTests then Unpack(w, 4 + 2 * n, n, lo, total) else ZeroWords(total),
        Int32OfUint32(w[2] as int),
        Int32OfUint32(w[3] as int))
  }

  /** The decoding gives back everything a writer put out about p. */
  predicate GivesBack(d: Decoding, p: PathTimelines, withTests: bool)
  {
    && d.Decoded?
    && d.inf == p.inf && d.newinf == p.newinf
    && (withTests ==> d.newpostest == p.newpostest)
    && d.maxedout == p.maxedout
    && d.ext == ExtValue(p)
  }

  /** Any words whose header names n bins and whose blocks hold those bins
      of each timeline decode to the timelines, when every later bin is
      empty. */
  lemma RegDecodes(w: seq<u32>, p: PathTimelines, withTests: bool, n: nat)
    requires Wf(p) && n <= |p.inf| && EmptyOutside(p, withTests, 0, n)
    requires |w| == 3 + BodyLen(withTests, n) && w[0] as int == n
    requires Int32OfUint32(w[1] as int) == p.maxedout && Int32OfUint32(w[2] as int) == ExtValue(p)
    requires w[3..3 + n] == p.inf[0..n]
    requires w[3 + n..3 + 2 * n] == p.newinf[0..n]
    requires withTests ==> w[3 + 2 * n..3 + 3 * n] == p.newpostest[0..n]
    ensures GivesBack(DecodeReg(w, |p.inf|, withTests), p, withTests)
  {
    BlockRoundTrip(p.inf, 0, n, w, 3);
    BlockRoundTrip(p.newinf, 0, n, w, 3 + n);
    if withTests {
      BlockRoundTrip(p.newpostest, 0, n, w, 3 + 2 * n);
    }
  }

  /** The regular layout of the bins 0 to n - 1 read back. */
  lemma RegLayoutRoundTrip(p: PathTimelines, withTests: bool, n: nat)
    requires Wf(p) && 1 <= n <= |p.inf| && EmptyOutside(p, withTests, 0, n)
    ensures GivesBack(DecodeReg(RegLayout(p, withTests, n), |p.inf|, withTests), p, withTests)
  {
    HeaderDecodes(p);
    RegLayoutBlocks(p, withTests, n);
    RegDecodes(RegLayout(p, withTests, n), p, withTests, n);
  }

  /** The header of the relative-time layout gives back the number of bins,
      the first one, the maxed-out index and the extinction value. */
  lemma ReltimeHeaderDecodes(p: PathTimelines, withTests: bool, lo: nat, hi: nat)
    requires Wf(p) && lo < hi <= |p.inf| && lo <= p.nneg
    ensures var w := ReltimeLayout(p, withTests, lo, hi);
            && w[0] as int == hi - lo
            && p.nneg - w[1] as int == lo
            && Int32OfUint32(w[2] as int) == p.maxedout
            && Int32OfUint32(w[3] as int) == ExtValue(p)
  {
    HeaderDecodes(p);
  }

  /** Any words whose header names n bins from lo and whose blocks hold
      those bins of each timeline decode to the timelines, when every other
      bin is empty. */
  lemma ReltimeDecodes(w: seq<u32>, p: PathTimelines, withTests: bool, lo: nat, n: nat)
    requires Wf(p) && lo + n <= |p.inf| && EmptyOutside(p, withTests, lo, lo + n)
    requires |w| == 4 + BodyLen(withTests, n)
    requires w[0] as int == n && p.nneg - w[1] as int == lo
    requires Int32OfUint32(w[2] as int) == p.maxedout && Int32OfUint32(w[3] as int) == ExtValue(p)
    requires w[4..4 + n] == p.inf[lo..lo + n]
    requires w[4 + n..4 + 2 * n] == p.newinf[lo..lo + n]
    requires withTests ==> w[4 + 2 * n..4 + 3 * n] == p.newpostest[lo..lo + n]
    ensures GivesBack(DecodeReltime(w, p.nneg, |p.inf|, withTests), p, withTests)
  {
    BlockRoundTrip(p.inf, lo, lo + n, w, 4);
    BlockRoundTrip(p.newinf, lo, lo + n, w, 4 + n);
    if withTests {
      BlockRoundTrip(p.newpostest, lo, lo + n, w, 4 + 2 * n);
    }
  }

  /** The relative-time layout of the bins lo to hi - 1 read back. */
  lemma ReltimeLayoutRoundTrip(p: PathTimelines, withTests: bool, lo: nat, hi: nat)
    requires Wf(p) && lo < hi <= |p.inf| && lo <= p.nneg && EmptyOutside(p, withTests, lo, hi)
    ensures GivesBack(DecodeReltime(ReltimeLayout(p, withTests, lo, hi), p.nneg, |p.inf|, withTests), p, withTests)
  {
    ReltimeHeaderDecodes(p, withTests, lo, hi);
    ReltimeLayoutBlocks(p, withTests, lo, hi);
    ReltimeDecodes(ReltimeLayout(p, withTests, lo, hi), p, withTests, lo, hi - lo);
  }

  /** Reading back a regular path gives back its timelines, its maxed-out
      index and its extinction value: the trimmed bins were empty. */
  lemma RegPathRoundTrip(p: PathTimelines, withTests: bool)
    requires Wf(p) && RegReady(p, withTests)
    ensures GivesBack(DecodeReg(RegWords(p, withTests), |p.inf|, withTests), p, withTests)
  {
    var n := KeptEnd(Live(p, withTests));
    TrailingBinsEmpty(p, withTests);
    RegLayoutRoundTrip(p, withTests, n);
  }

  /** Reading back a relative-time path gives back its timelines, negative
      bins included, its maxed-out index and its extinction value: the
      trimmed bins on both sides were empty. */
  lemma ReltimePathRoundTrip(p: PathTimelines, withTests: bool)
    requires Wf(p) && ReltimeReady(p, withTests)
    ensures GivesBack(DecodeReltime(ReltimeWords(p, withTests), p.nneg, |p.inf|, withTests), p, withTests)
  {
    var lo := FirstLive(Live(p, false));
    var hi := KeptEnd(Live(p, withTests));
    FirstBeforeEnd(p, withTests);
    TrailingBinsEmpty(p, withTests);
    LeadingBinsEmpty(p);
    assert EmptyOutside(p, withTests, lo, hi);
    ReltimeLayoutRoundTrip(p, withTests, lo, hi);
  }

  /** A timeline of the thread grown by ndiff bins in front and pdiff at the
      end, all new bins empty. */
  function Padded(s: seq<real>, ndiff: nat, pdiff: nat): (r: seq<real>)
    ensures |r| == ndiff + |s| + pdiff
  {
    seq(ndiff, _ => 0.0) + s + seq(pdiff, _ => 0.0)
  }

  /** Growing moves each accumulated bin up by ndiff, which keeps it at its
      logical index once the count of negative bins has grown by ndiff; the
      new bins are empty. */
  lemma PaddedKeepsLogicalBins(s: seq<real>, ndiff: nat, pdiff: nat)
    ensures forall k :: 0 <= k < |s| ==> Padded(s, ndiff, pdiff)[k + ndiff] == s[k]
    ensures forall k :: 0 <= k < ndiff ==> Padded(s, ndiff, pdiff)[k] == 0.0
    ensures forall k :: ndiff + |s| <= k < |s| + ndiff + pdiff ==> Padded(s, ndiff, pdiff)[k] == 0.0
  {
  }

  /** The twelve accumulated timelines of a thread: mean and standard
      deviation of the infectious, new-infection and positive-test counts,
      for extinct and non-extinct paths.  Each is a buffer the thread owns
      alone and replaces wholesale when it grows, so it is modelled as a
      sequence. */
  datatype Timelines = Timelines(
    infMeanExt: seq<real>, infStdExt: seq<real>,
    newinfMeanExt: seq<real>, newinfStdExt: seq<real>,
    newpostestMeanExt: seq<real>, newpostestStdExt: seq<real>,
    infMeanNoext: seq<real>, infStdNoext: seq<real>,
    newinfMeanNoext: seq<real>, newinfStdNoext: seq<real>,
    newpostestMeanNoext: seq<real>, newpostestStdNoext: seq<real>)

  /** All twelve timelines have n bins. */
  predicate AllOfLength(t: Timelines, n: nat)
  {
    && |t.infMeanExt| == n && |t.infStdExt| == n
    && |t.newinfMeanExt| == n && |t.newinfStdExt| == n
    && |t.newpostestMeanExt| == n && |t.newpostestStdExt| == n
    && |t.infMeanNoext| == n && |t.infStdNoext| == n
    && |t.newinfMeanNoext| == n && |t.newinfStdNoext| == n
    && |t.newpostestMeanNoext| == n && |t.newpostestStdNoext| == n
  }

  /** Every timeline grown by ndiff bins in front and pdiff at the end. */
  function PadAll(t: Timelines, ndiff: nat, pdiff: nat): (r: Timelines)
    ensures forall n: nat :: AllOfLength(t, n) ==> AllOfLength(r, ndiff + n + pdiff)
  {
    Timelines(
      Padded(t.infMeanExt, ndiff, pdiff),
      Padded(t.infStdExt, ndiff, pdiff),
      Padded(t.newinfMeanExt, ndiff, pdiff),
      Padded(t.newinfStdExt, ndiff, pdiff),
      Padded(t.newpostestMeanExt, ndiff, pdiff),
      Padded(t.newpostestStdExt, ndiff, pdiff),
      Padded(t.infMeanNoext, ndiff, pdiff),
      Padded(t.infStdNoext, ndiff, pdiff),
      Padded(t.newinfMeanNoext, ndiff, pdiff),
      Padded(t.newinfStdNoext, ndiff, pdiff),
      Padded(t.newpostestMeanNoext, ndiff, pdiff),
      Padded(t.newpostestStdNoext, ndiff, pdiff))
  }

  /** The thread's accumulated timelines and their bins: tlppnnpers of them
      before time 0, tlpptnvpers in all. */
  class ThreadData {
    var tlppnnpers: int
    var tlpptnvpers: nat
    var timelines: Timelines

    ghost predicate Valid()
      reads this
    {
      AllOfLength(timelines, tlpptnvpers)
    }

    /** Grows every timeline by ndiff bins in front and pdiff at the end, when
        either is positive, keeping each accumulated bin at its logical
        index; otherwise leaves the thread's data as it is. */
    method ReallocThreadTimelines(ndiff: int, pdiff: int)
      requires Valid()
      requires pdiff > 0 || ndiff > 0 ==> ndiff >= 0 && pdiff >= 0
      modifies this
      ensures Valid()
      ensures !(pdiff > 0 || ndiff > 0) ==> unchanged(this)
      ensures pdiff > 0 || ndiff > 0 ==>
                && tlppnnpers == old(tlppnnpers) + ndiff
                && tlpptnvpers == old(tlpptnvpers) + ndiff + pdiff
                && timelines == PadAll(old(timelines), ndiff, pdiff)
    {
      if pdiff > 0 || ndiff > 0 {
        timelines := PadAll(timelines, ndiff, pdiff);
        tlppnnpers := tlppnnpers + ndiff;
        tlpptnvpers := tlpptnvpers + ndiff + pdiff;
      }
    }
  }

  /** A contact-tracing entry: the five 32-bit fields the writer stores. */
  datatype CtEntry = CtEntry(postesttime: u32, presymtime: u32, id: u32, pid: u32, ntracedcts: u32)

  /** The qsort comparison of two entries by positive-test time. */
  function CtCompare(a: CtEntry, b: CtEntry): (r: int)
    ensures -1 <= r <= 1
  {
    if a.postesttime < b.postesttime then -1 else if a.postesttime > b.postesttime then 1 else 0
  }

  /** The comparison is a total preorder on test times, as qsort needs: its
      sign tells the order of the test times, it is antisymmetric, and
      transitive. */
  lemma CtCompareOrders(a: CtEntry, b: CtEntry, c: CtEntry)
    ensures CtCompare(a, b) < 0 <==> a.postesttime < b.postesttime
    ensures CtCompare(a, b) == 0 <==> a.postesttime == b.postesttime
    ensures CtCompare(a, b) == -CtCompare(b, a)
    ensures CtCompare(a, b) <= 0 && CtCompare(b, c) <= 0 ==> CtCompare(a, c) <= 0
  {
  }

  /** The day of an entry's positive test (times in minutes). */
  function DayIndex(e: CtEntry): int
  {
    e.postesttime as int / 1440
  }

  /** The entries, in order, whose test day is no later than m. */
  function NotAfterDay(es: seq<CtEntry>, m: int): (r: seq<CtEntry>)
    ensures |r| <= |es|
  {
    if es == [] then []
    else NotAfterDay(es[..|es| - 1], m) + (if DayIndex(es[|es| - 1]) <= m then [es[|es| - 1]] else [])
  }

  /** The entries written for a path whose smallest maxed-out index is m: all
      of them when m is the INT32_MAX sentinel, otherwise those of the days up
      to m. */
  function CtSelected(es: seq<CtEntry>, m: int): seq<CtEntry>
  {
    if m == INT32_MAX then es else NotAfterDay(es, m)
  }

  /** The selection keeps exactly the entries of the days up to m, in their
      order. */
  lemma {:induction false} NotAfterDayExact(es: seq<CtEntry>, m: int)
    ensures forall e :: e in NotAfterDay(es, m) <==> e in es && DayIndex(e) <= m
  {
    if es != [] {
      NotAfterDayExact(es[..|es| - 1], m);
      assert es == es[..|es| - 1] + [es[|es| - 1]];
    }
  }

  /** Every 32-bit test time falls on a day below INT32_MAX, so the sentinel
      branch writes what the filtering branch would. */
  lemma {:induction false} SentinelSelectsAll(es: seq<CtEntry>)
    ensures NotAfterDay(es, INT32_MAX) == es
  {
    if es != [] {
      SentinelSelectsAll(es[..|es| - 1]);
      assert es == es[..|es| - 1] + [es[|es| - 1]];
    }
  }

  /** As written, a path whose index keeps the reset value -1 writes no
      contact-tracing entry at all. */
  lemma {:induction false} AsWrittenResetDropsAllEntries(es: seq<CtEntry>)
    ensures CtSelected(es, NimaxResetAsWritten()) == []
  {
    if es != [] {
      AsWrittenResetDropsAllEntries(es[..|es| - 1]);
    }
  }

  /** From the corrected reset, a path that never maxed out writes every
      entry. */
  lemma CorrectedResetKeepsAllEntries(es: seq<CtEntry>)
    ensures CtSelected(es, NimaxReset) == es
  {
  }

  function EntryWords(e: CtEntry): seq<u32>
  {
    [e.postesttime, e.presymtime, e.id, e.pid, e.ntracedcts]
  }

  /** The five words of each entry, in order. */
  function CtWords(es: seq<CtEntry>): (w: seq<u32>)
    ensures |w| == 5 * |es|
  {
    if es == [] then [] else CtWords(es[..|es| - 1]) + EntryWords(es[|es| - 1])
  }

  lemma CtWordsSnoc(es: seq<CtEntry>, e: CtEntry)
    ensures CtWords(es + [e]) == CtWords(es) + EntryWords(e)
  {
    assert (es + [e])[..|es|] == es;
  }

  /** Reads entries back from their words. */
  function DecodeCt(w: seq<u32>): seq<CtEntry>
    requires |w| % 5 == 0
  {
    if w == [] then []
    else DecodeCt(w[..|w| - 5]) + [CtEntry(w[|w| - 5], w[|w| - 4], w[|w| - 3], w[|w| - 2], w[|w| - 1])]
  }

  /** The entry words read back as the entries written. */
  lemma {:induction false} CtWordsRoundTrip(es: seq<CtEntry>)
    ensures DecodeCt(CtWords(es)) == es
  {
    if es != [] {
      var init := es[..|es| - 1];
      CtWordsRoundTrip(init);
      var w := CtWords(es);
      assert w[..|w| - 5] == CtWords(init);
      assert es == init + [es[|es| - 1]];
    }
  }

  /** Selecting from one more entry. */
  lemma CtSelectedSnoc(es: seq<CtEntry>, e: CtEntry, m: int)
    ensures CtSelected(es + [e], m)
            == CtSelected(es, m) + (if m == INT32_MAX || DayIndex(e) <= m then [e] else [])
  {
    assert (es + [e])[..|es|] == es;
  }

  /** Writes the five words of one entry at word pos. */
  method WriteEntry(e: CtEntry, buf: array<u32>, pos: nat)
    requires pos + 5 <= buf.Length
    modifies buf
    ensures forall k :: pos <= k < pos + 5 ==> buf[k] == EntryWords(e)[k - pos]
    ensures forall j :: 0 <= j < buf.Length && !(pos <= j < pos + 5) ==> buf[j] == old(buf[j])
  {
    buf[pos] := e.postesttime;
    buf[pos + 1] := e.presymtime;
    buf[pos + 2] := e.id;
    buf[pos + 3] := e.pid;
    buf[pos + 4] := e.ntracedcts;
  }

  /** Writes the selected entries, five words each, and returns the number of
      bytes written. */
  method CtWrite(entries: seq<CtEntry>, maxedout: int, buf: array<u32>) returns (size: nat)
    requires buf.Length >= 5 * |entries|
    modifies buf
    ensures var w := CtWords(CtSelected(entries, maxedout));
            && size == 4 * |w| && size == 20 * |CtSelected(entries, maxedout)|
            && (forall j :: 0 <= j < |w| ==> buf[j] == w[j])
            && (forall j :: |w| <= j < buf.Length ==> buf[j] == old(buf[j]))
  {
    var pos := 0;
    var i := 0;
    ghost var written: seq<CtEntry> := [];
    while i < |entries|
      invariant 0 <= i <= |entries|
      invariant written == CtSelected(entries[..i], maxedout)
      invariant pos == 5 * |written| <= 5 * i
      invariant forall j :: 0 <= j < pos ==> buf[j] == CtWords(written)[j]
      invariant forall j :: pos <= j < buf.Length ==> buf[j] == old(buf[j])
    {
      var e := entries[i];
      assert entries[..i + 1] == entries[..i] + [e];
      CtSelectedSnoc(entries[..i], e, maxedout);
      if maxedout == INT32_MAX || DayIndex(e) <= maxedout {
        WriteEntry(e, buf, pos);
        CtWordsSnoc(written, e);
        written := written + [e];
        pos := pos + 5;
      }
      i := i + 1;
    }
    assert entries[..i] == entries;
    size := 4 * pos;
  }
}
