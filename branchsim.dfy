/** The branching-process engine.  Each primary individual starts a tree of
    infections that the engine walks depth first over a growable array of
    layers, one infectious individual per layer.  Everything the engine tells
    its callbacks is recorded, in order, as a trace of `Call`s, and the
    protocol those calls follow is stated as a replay over the trace. */
module BranchSim {
  import opened Doubles
  import opened Individuals

  /** One callback invocation, with the layer of the individual concerned and
      the individual's record as the callback sees it. */
  datatype Call =
    | Alloc(slot: nat)                                  // per-slot allocation callback
    | NewEvent(layer: nat, ii: Individual, answer: bool) // new-event callback and its answer
    | NewInf(layer: nat, ii: Individual)                // new infectious individual with events
    | EndInf(layer: nat, ii: Individual)                // its last event is done
    | NoEvent(layer: nat, ii: Individual)               // new individual without any event

  datatype Option<T> = None | Some(value: T)

  // ---------------------------------------------------------------------------
  // The callback protocol

  /** The protocol as a machine over a stack of frames, one per open layer:
      frame L holds the number of infections of layer L's current event that
      are still to be started (for layer 0, the primaries still to be started).
      A new individual at layer L takes one from frame L-1; an individual with
      events opens frame L, each of its accepted events sets it to its number of
      infections, and it may end only once that has dropped to zero.  None
      means the call breaks the protocol. */
  function Step(st: seq<nat>, c: Call): Option<seq<nat>>
  {
    match c
    case Alloc(_) => Some(st)
    case NewInf(l, ii) =>
      if l >= 1 && |st| == l && st[l-1] > 0 && ii.nevents > 0 then
        Some(st[l-1 := st[l-1] - 1] + [0])
      else None
    case NoEvent(l, ii) =>
      if l >= 1 && |st| == l && st[l-1] > 0 && ii.nevents == 0 then
        Some(st[l-1 := st[l-1] - 1])
      else None
    case NewEvent(l, ii, answer) =>
      if l >= 1 && |st| == l + 1 && st[l] == 0 && ii.curevent < ii.nevents then
        Some(st[l := if answer then ii.ninfections else 0])
      else None
    case EndInf(l, ii) =>
      if l >= 1 && |st| == l + 1 && st[l] == 0 && ii.nevents > 0 && ii.curevent == ii.nevents - 1 then
        Some(st[..l])
      else None
  }

  /** Runs the protocol machine over a trace, from the stack st. */
  function Replay(t: seq<Call>, st: seq<nat>): Option<seq<nat>>
  {
    if t == [] then Some(st)
    else
      match Replay(t[..|t|-1], st)
      case None => None
      case Some(s) => Step(s, t[|t|-1])
  }

  lemma ReplaySnoc(t: seq<Call>, c: Call, st: seq<nat>, s: seq<nat>)
    requires Replay(t, st) == Some(s)
    ensures Replay(t + [c], st) == Step(s, c)
  {
    assert (t + [c])[..|t + [c]| - 1] == t;
  }

  /** Number of individuals started at a layer (with or without events). */
  function Starts(t: seq<Call>, l: nat): nat
  {
    if t == [] then 0
    else Starts(t[..|t|-1], l) + match t[|t|-1]
      case NewInf(k, _) => if k == l then 1 else 0
      case NoEvent(k, _) => if k == l then 1 else 0
      case _ => 0
  }

  function Opened(t: seq<Call>, l: nat): nat
  {
    if t == [] then 0
    else Opened(t[..|t|-1], l) + (if t[|t|-1].NewInf? && t[|t|-1].layer == l then 1 else 0)
  }

  function Ended(t: seq<Call>, l: nat): nat
  {
    if t == [] then 0
    else Ended(t[..|t|-1], l) + (if t[|t|-1].EndInf? && t[|t|-1].layer == l then 1 else 0)
  }

  /** Sum of the infections of the accepted events at a layer. */
  function Transmissions(t: seq<Call>, l: nat): nat
  {
    if t == [] then 0
    else Transmissions(t[..|t|-1], l) + match t[|t|-1]
      case NewEvent(k, ii, answer) => if k == l && answer then ii.ninfections else 0
      case _ => 0
  }

  /** The frame count of layer l in a stack, 0 when the layer is not open. */
  function FrameAt(st: seq<nat>, l: nat): nat
  {
    if l < |st| then st[l] else 0
  }

  function IsOpen(st: seq<nat>, l: nat): nat
  {
    if l < |st| then 1 else 0
  }

  /** Replaying never removes the bottom frame. */
  lemma {:induction false} ReplayKeepsBottom(t: seq<Call>, st: seq<nat>, s: seq<nat>)
    requires |st| >= 1 && Replay(t, st) == Some(s)
    ensures |s| >= 1
  {
    if t != [] {
      var p :| Replay(t[..|t|-1], st) == Some(p);
      ReplayKeepsBottom(t[..|t|-1], st, p);
    }
  }

  /** Every individual with events that was opened at layer l >= 1 is ended
      exactly once: the openings and endings at l differ only by whether l
      was open at the start and at the end of the trace. */
  lemma {:induction false} OpenedEndedBalance(t: seq<Call>, st: seq<nat>, s: seq<nat>, l: nat)
    requires Replay(t, st) == Some(s) && l >= 1
    ensures Opened(t, l) + IsOpen(st, l) == Ended(t, l) + IsOpen(s, l)
  {
    if t != [] {
      var p :| Replay(t[..|t|-1], st) == Some(p);
      OpenedEndedBalance(t[..|t|-1], st, p, l);
    }
  }

  /** Every primary taken from the bottom frame is started exactly once, with
      or without events. */
  lemma {:induction false} PrimariesBalance(t: seq<Call>, st: seq<nat>, s: seq<nat>)
    requires |st| >= 1 && Replay(t, st) == Some(s)
    ensures |s| >= 1 && Starts(t, 1) + s[0] == st[0]
  {
    ReplayKeepsBottom(t, st, s);
    if t != [] {
      var p :| Replay(t[..|t|-1], st) == Some(p);
      PrimariesBalance(t[..|t|-1], st, p);
    }
  }

  /** The individuals started at layer l+1 are exactly the infections of the
      accepted events at layer l, up to what was pending at either end. */
  lemma {:induction false} ChildrenBalance(t: seq<Call>, st: seq<nat>, s: seq<nat>, l: nat)
    requires Replay(t, st) == Some(s) && l >= 1
    ensures Starts(t, l + 1) + FrameAt(s, l) == Transmissions(t, l) + FrameAt(st, l)
  {
    if t != [] {
      var p :| Replay(t[..|t|-1], st) == Some(p);
      ChildrenBalance(t[..|t|-1], st, p, l);
    }
  }

  /** The record each callback receives: an individual without events only
      ever gets the no-event callback, the new-infection callback is only for
      an individual with events, every event it reports is one of its own,
      and it ends at its last event. */
  predicate CallShape(c: Call)
  {
    match c
    case Alloc(_) => true
    case NoEvent(_, ii) => ii.nevents == 0
    case NewInf(_, ii) => ii.nevents > 0
    case NewEvent(_, ii, _) => ii.curevent < ii.nevents
    case EndInf(_, ii) => ii.nevents > 0 && ii.curevent == ii.nevents - 1
  }

  lemma {:induction false} ReplayedCallsWellShaped(t: seq<Call>, st: seq<nat>)
    requires Replay(t, st).Some?
    ensures forall k :: 0 <= k < |t| ==> CallShape(t[k])
  {
    if t != [] {
      ReplayedCallsWellShaped(t[..|t|-1], st);
      assert forall k :: 0 <= k < |t| - 1 ==> t[k] == t[..|t|-1][k];
    }
  }

  /** The whole protocol of a run that went to completion from the root frame
      [nstart]: nstart primaries were started, every opened individual was
      ended once, and every infection of every accepted event started exactly
      one individual in the next layer. */
  lemma CompletedRun(t: seq<Call>, nstart: nat)
    requires Replay(t, [nstart]) == Some([0])
    ensures Starts(t, 1) == nstart
    ensures forall l :: l >= 1 ==> Opened(t, l) == Ended(t, l)
    ensures forall l :: l >= 1 ==> Starts(t, l + 1) == Transmissions(t, l)
  {
    PrimariesBalance(t, [nstart], [0]);
    forall l | l >= 1
      ensures Opened(t, l) == Ended(t, l)
    {
      OpenedEndedBalance(t, [nstart], [0], l);
    }
    forall l | l >= 1
      ensures Starts(t, l + 1) == Transmissions(t, l)
    {
      ChildrenBalance(t, [nstart], [0], l);
    }
  }

  // ---------------------------------------------------------------------------
  // The engine

  /** Where the walk is: about to draw the individual of the cursor layer, about
      to generate the cursor individual's current event, or going back down
      after the cursor individual is done. */
  datatype Pc = Spawn | GenEvent | Backtrack

  /** An individual of an open layer below the cursor, whose current event and
      infection are still in range. */
  predicate InProgress(x: Individual)
  {
    x.curevent < x.nevents && x.curinfection < x.ninfections
  }

  /** Frame count of layer l in state s: the primaries still to start for the
      root layer, otherwise the infections of the current event still to
      start after the current one. */
  ghost function Remaining(s: seq<Individual>, primariesLeft: nat, l: nat): nat
    requires l < |s|
  {
    if l == 0 then primariesLeft
    else if s[l].curinfection < s[l].ninfections then s[l].ninfections - s[l].curinfection - 1
    else 0
  }

  ghost function Frames(s: seq<Individual>, primariesLeft: nat, k: nat): seq<nat>
    requires k <= |s|
    ensures |Frames(s, primariesLeft, k)| == k
  {
    if k == 0 then [] else Frames(s, primariesLeft, k - 1) + [Remaining(s, primariesLeft, k - 1)]
  }

  lemma {:induction false} FramesAgree(s: seq<Individual>, s': seq<Individual>, primariesLeft: nat, k: nat)
    requires k <= |s| && k <= |s'|
    requires forall l :: 0 <= l < k ==> s[l] == s'[l]
    ensures Frames(s, primariesLeft, k) == Frames(s', primariesLeft, k)
  {
    if k > 0 {
      FramesAgree(s, s', primariesLeft, k - 1);
    }
  }

  /** The protocol stack that corresponds to each point of the walk. */
  ghost function Expected(s: seq<Individual>, primariesLeft: nat, cur: nat, pc: Pc): seq<nat>
    requires 1 <= cur < |s|
  {
    match pc
    case Spawn => Frames(s, primariesLeft, cur - 1) + [Remaining(s, primariesLeft, cur - 1) + 1]
    case GenEvent => Frames(s, primariesLeft, cur) + [0]
    case Backtrack => Frames(s, primariesLeft, cur)
  }

  /** Growth of the layer array: the number of slots times 1.5, truncated. */
  function Grown(n: nat): nat
  {
    n * 3 / 2
  }

  /** The allocation calls for slots hi-1 down to lo. */
  function AllocsDown(hi: nat, lo: nat): seq<Call>
    decreases hi
  {
    if hi <= lo then [] else [Alloc(hi - 1)] + AllocsDown(hi - 1, lo)
  }

  /** The start calls of a trace (new individuals, with or without events),
      in order. */
  function StartCalls(t: seq<Call>): (r: seq<Call>)
    ensures |r| <= |t|
    ensures forall k :: 0 <= k < |r| ==> r[k].NoEvent? || r[k].NewInf?
  {
    if t == [] then []
    else StartCalls(t[..|t|-1]) + (if t[|t|-1].NoEvent? || t[|t|-1].NewInf? then [t[|t|-1]] else [])
  }

  /** The new-event calls of a trace, in order. */
  function EventCalls(t: seq<Call>): (r: seq<Call>)
    ensures |r| <= |t|
    ensures forall k :: 0 <= k < |r| ==> r[k].NewEvent?
  {
    if t == [] then []
    else EventCalls(t[..|t|-1]) + (if t[|t|-1].NewEvent? then [t[|t|-1]] else [])
  }

  /** A start call whose individual carries the periods and event count of
      the draw p. */
  predicate StartedFrom(c: Call, p: PeriodDraw)
  {
    && (c.NoEvent? || c.NewInf?)
    && c.ii.latentPeriod == p.latentPeriod && c.ii.commPeriod == p.commPeriod
    && c.ii.endCommPeriod == p.endCommPeriod && c.ii.truePositiveTest == p.truePositiveTest
    && c.ii.truncatedAtTmax == p.truncatedAtTmax && c.ii.nevents == p.nevents
  }

  /** A new-event call with the infections drawn by d and d's answer. */
  predicate EventFrom(c: Call, d: EventDraw)
  {
    c.NewEvent? && c.ii.ninfections == d.ninfections && c.answer == d.accepted
  }

  lemma FilteredSnoc(t: seq<Call>, c: Call)
    ensures StartCalls(t + [c]) == StartCalls(t) + (if c.NoEvent? || c.NewInf? then [c] else [])
    ensures EventCalls(t + [c]) == EventCalls(t) + (if c.NewEvent? then [c] else [])
  {
    assert (t + [c])[..|t + [c]| - 1] == t;
  }

  /** The first pi period draws and the first di event draws are the ones
      the start calls and the new-event calls of t carry, in order. */
  predicate Consumed(t: seq<Call>, periods: seq<PeriodDraw>, draws: seq<EventDraw>, pi: nat, di: nat)
  {
    && pi <= |periods| && di <= |draws|
    && |StartCalls(t)| == pi && |EventCalls(t)| == di
    && (forall k :: 0 <= k < pi ==> StartedFrom(StartCalls(t)[k], periods[k]))
    && (forall k :: 0 <= k < di ==> EventFrom(EventCalls(t)[k], draws[k]))
  }

  lemma ConsumedStart(t: seq<Call>, c: Call, periods: seq<PeriodDraw>, draws: seq<EventDraw>, pi: nat, di: nat)
    requires Consumed(t, periods, draws, pi, di) && pi < |periods| && StartedFrom(c, periods[pi])
    ensures Consumed(t + [c], periods, draws, pi + 1, di)
  {
    FilteredSnoc(t, c);
  }

  lemma ConsumedEvent(t: seq<Call>, c: Call, periods: seq<PeriodDraw>, draws: seq<EventDraw>, pi: nat, di: nat)
    requires Consumed(t, periods, draws, pi, di) && di < |draws| && EventFrom(c, draws[di])
    ensures Consumed(t + [c], periods, draws, pi, di + 1)
  {
    FilteredSnoc(t, c);
  }

  lemma ConsumedEnd(t: seq<Call>, c: Call, periods: seq<PeriodDraw>, draws: seq<EventDraw>, pi: nat, di: nat)
    requires Consumed(t, periods, draws, pi, di) && c.EndInf?
    ensures Consumed(t + [c], periods, draws, pi, di)
  {
    FilteredSnoc(t, c);
  }

  /** A new-event call followed by an end call, by allocation calls or by
      nothing consumes one event draw and no period draw. */
  lemma ConsumedEventThen(t: seq<Call>, c: Call, tail: seq<Call>, hi: nat, lo: nat,
                          periods: seq<PeriodDraw>, draws: seq<EventDraw>, pi: nat, di: nat)
    requires Consumed(t, periods, draws, pi, di) && di < |draws| && EventFrom(c, draws[di])
    requires tail == [] || (|tail| == 1 && tail[0].EndInf?) || tail == AllocsDown(hi, lo)
    ensures Consumed(t + [c] + tail, periods, draws, pi, di + 1)
  {
    ConsumedEvent(t, c, periods, draws, pi, di);
    if tail == [] {
      assert t + [c] + tail == t + [c];
    } else if |tail| == 1 && tail[0].EndInf? {
      assert tail == [tail[0]];
      ConsumedEnd(t + [c], tail[0], periods, draws, pi, di + 1);
    } else {
      FilteredAllocsDown(t + [c], hi, lo);
    }
  }

  /** Allocation calls are neither start calls nor new-event calls. */
  lemma {:induction false} FilteredAllocsDown(t: seq<Call>, hi: nat, lo: nat)
    ensures StartCalls(t + AllocsDown(hi, lo)) == StartCalls(t)
    ensures EventCalls(t + AllocsDown(hi, lo)) == EventCalls(t)
    decreases hi - lo
  {
    if hi > lo {
      AllocsDownSnoc(hi, lo);
      FilteredAllocsDown(t, hi, lo + 1);
      assert t + AllocsDown(hi, lo) == (t + AllocsDown(hi, lo + 1)) + [Alloc(lo)];
      FilteredSnoc(t + AllocsDown(hi, lo + 1), Alloc(lo));
    } else {
      assert t + AllocsDown(hi, lo) == t;
    }
  }

  /** The allocation calls for slots lo up to hi-1. */
  function AllocsUp(lo: nat, hi: nat): seq<Call>
    decreases hi
  {
    if hi <= lo then [] else AllocsUp(lo, hi - 1) + [Alloc(hi - 1)]
  }

  lemma {:induction false} AllocsDownSnoc(hi: nat, lo: nat)
    requires lo < hi
    ensures AllocsDown(hi, lo) == AllocsDown(hi, lo + 1) + [Alloc(lo)]
    decreases hi
  {
    if hi > lo + 1 {
      AllocsDownSnoc(hi - 1, lo);
    }
  }

  /** Allocation calls leave the protocol state as it was. */
  lemma {:induction false} ReplayAllocsDown(t: seq<Call>, hi: nat, lo: nat, st: seq<nat>)
    ensures Replay(t + AllocsDown(hi, lo), st) == Replay(t, st)
    decreases hi - lo
  {
    if hi > lo {
      AllocsDownSnoc(hi, lo);
      ReplayAllocsDown(t, hi, lo + 1, st);
      assert t + AllocsDown(hi, lo) == (t + AllocsDown(hi, lo + 1)) + [Alloc(lo)];
      var u := t + AllocsDown(hi, lo + 1);
      assert (u + [Alloc(lo)])[..|u + [Alloc(lo)]| - 1] == u;
    } else {
      assert t + AllocsDown(hi, lo) == t;
    }
  }

  /** Starting the cursor individual takes one from the frame below: the
      no-event callback leaves the walk backtracking, the new-infection
      callback opens the cursor's frame for its first event. */
  lemma SpawnReplay(s: seq<Individual>, primariesLeft: nat, cur: nat, x: Individual,
                    rc: seq<Call>, nstart: nat, c: Call)
    requires 1 <= cur < |s|
    requires Replay(rc, [nstart]) == Some(Expected(s, primariesLeft, cur, Spawn))
    requires (c.NoEvent? && c.layer == cur && c.ii.nevents == 0) || (c.NewInf? && c.layer == cur && c.ii.nevents > 0)
    ensures Replay(rc + [c], [nstart])
            == Some(Expected(s[cur := x], primariesLeft, cur, if c.NoEvent? then Backtrack else GenEvent))
  {
    var st := Expected(s, primariesLeft, cur, Spawn);
    var below := Frames(s, primariesLeft, cur - 1);
    var r := Remaining(s, primariesLeft, cur - 1);
    assert st[cur - 1 := r] == below + [r];
    assert Frames(s, primariesLeft, cur) == below + [r];
    ReplaySnoc(rc, c, [nstart], st);
    FramesAgree(s, s[cur := x], primariesLeft, cur);
  }

  /** The new-event callback sets the cursor's frame to the event's
      infections when accepted, to none otherwise. */
  lemma EventReplay(s: seq<Individual>, primariesLeft: nat, cur: nat, rc: seq<Call>, nstart: nat, c: Call)
    requires 1 <= cur < |s|
    requires Replay(rc, [nstart]) == Some(Expected(s, primariesLeft, cur, GenEvent))
    requires c.NewEvent? && c.layer == cur && c.ii.curevent < c.ii.nevents
    ensures Replay(rc + [c], [nstart])
            == Some(Frames(s, primariesLeft, cur) + [if c.answer then c.ii.ninfections else 0])
  {
    var st := Expected(s, primariesLeft, cur, GenEvent);
    var v := if c.answer then c.ii.ninfections else 0;
    assert st[cur := v] == Frames(s, primariesLeft, cur) + [v];
    ReplaySnoc(rc, c, [nstart], st);
  }

  /** The end-of-infection callback closes the cursor's frame once it is
      empty. */
  lemma EndReplay(s: seq<Individual>, primariesLeft: nat, cur: nat, rc: seq<Call>, nstart: nat, e: Call)
    requires 1 <= cur < |s|
    requires Replay(rc, [nstart]) == Some(Frames(s, primariesLeft, cur) + [0])
    requires e.EndInf? && e.layer == cur && e.ii.nevents > 0 && e.ii.curevent == e.ii.nevents - 1
    ensures Replay(rc + [e], [nstart]) == Some(Expected(s, primariesLeft, cur, Backtrack))
  {
    ReplaySnoc(rc, e, [nstart], Frames(s, primariesLeft, cur) + [0]);
    assert (Frames(s, primariesLeft, cur) + [0])[..cur] == Frames(s, primariesLeft, cur);
  }

  /** Moving up from layer k keeps the frames: the new layer's frame is
      the one that the individual at k has still to start, plus the one
      being started. */
  lemma AdvanceFrames(s: seq<Individual>, s': seq<Individual>, primariesLeft: nat, k: nat)
    requires k < |s| && k + 1 < |s'|
    requires forall l :: 0 <= l <= k ==> s'[l] == s[l]
    ensures Expected(s', primariesLeft, k + 1, Spawn)
            == Frames(s, primariesLeft, k) + [Remaining(s, primariesLeft, k) + 1]
  {
    FramesAgree(s, s', primariesLeft, k);
  }

  class BranchSimulator {
    var iis: array<Individual>
    var nlayers: nat
    var cur: nat                   // the cursor: index of the current layer
    var trace: seq<Call>           // every callback made so far, in order
    ghost var prefix: seq<Call>    // the calls made before the current run's primaries
    ghost var runCalls: seq<Call>  // the calls made since

    /** The layer array, with the root layer's event time at 0. */
    ghost predicate Layers()
      reads this, iis
    {
      iis.Length == nlayers && nlayers >= 2 && iis[0].eventTime == 0.0
    }

    ghost predicate Valid()
      reads this, iis
    {
      Layers() && cur < nlayers
    }

    /** The state of the walk at point pc, with primariesLeft primaries still
        to start after the current one. */
    ghost predicate Inv(pc: Pc, primariesLeft: nat, nstart: nat)
      reads this, iis
    {
      && Valid()
      && 1 <= cur
      && (forall l :: 1 <= l < cur ==> InProgress(iis[l]))
      && (pc == GenEvent ==> iis[cur].curevent < iis[cur].nevents)
      && trace == prefix + runCalls
      && Replay(runCalls, [nstart]) == Some(Expected(iis[..], primariesLeft, cur, pc))
    }

    /** Allocates the initial layers, calling the allocation callback on each
        slot in increasing order; layer 0's event time is 0. */
    constructor Init(initLayers: nat)
      requires initLayers >= 2
      ensures Valid() && nlayers == initLayers && cur == 0
      ensures trace == AllocsUp(0, initLayers)
    {
      var a := new Individual[initLayers](_ => Blank);
      var t := [];
      var i := 0;
      while i < initLayers
        invariant 0 <= i <= initLayers
        invariant t == AllocsUp(0, i)
      {
        t := t + [Alloc(i)];
        i := i + 1;
      }
      a[0] := a[0].(eventTime := 0.0);
      iis := a;
      nlayers := initLayers;
      cur := 0;
      trace := t;
      prefix := [];
      runCalls := [];
    }

    /** The cursor has reached the end of the array: grows it by a factor 1.5,
        keeping the layers below, and calls the allocation callback on every
        slot from the last one down to the cursor. */
    method Grow()
      requires Layers() && cur == nlayers
      modifies this
      ensures Valid()
      ensures nlayers == Grown(old(nlayers)) && fresh(iis)
      ensures forall l :: 0 <= l < old(nlayers) ==> iis[l] == old(iis[l])
      ensures forall l :: old(nlayers) <= l < nlayers ==> iis[l] == Blank
      ensures trace == old(trace) + AllocsDown(nlayers, old(nlayers))
      ensures runCalls == old(runCalls) + AllocsDown(nlayers, old(nlayers))
      ensures cur == old(cur) && prefix == old(prefix)
    {
      var layer := nlayers;
      var n := Grown(nlayers);
      var t := trace;
      var i := n;
      while i > layer
        invariant layer <= i <= n
        invariant t == old(trace) + AllocsDown(n, i)
        invariant unchanged(this)
      {
        AllocsDownSnoc(n, i - 1);
        t := t + [Alloc(i - 1)];
        i := i - 1;
      }
      var b := iis;
      var a := new Individual[n](l requires 0 <= l < n reads b => if l < layer then b[l] else Blank);
      iis := a;
      nlayers := n;
      trace := t;
      runCalls := runCalls + AllocsDown(n, layer);
    }

    /** Moves the cursor one layer up to a new individual, growing the array
        when the cursor reaches its end. */
    method Advance(ghost primariesLeft: nat, ghost nstart: nat)
      requires Valid() && 1 <= cur
      requires forall l :: 1 <= l <= cur ==> InProgress(iis[l])
      requires trace == prefix + runCalls
      requires Replay(runCalls, [nstart])
               == Some(Frames(iis[..], primariesLeft, cur) + [Remaining(iis[..], primariesLeft, cur) + 1])
      modifies this
      ensures Inv(Spawn, primariesLeft, nstart) && cur == old(cur) + 1
      ensures iis == old(iis) || fresh(iis)
      ensures nlayers >= old(nlayers)
      ensures forall l :: 0 <= l < old(nlayers) ==> iis[l] == old(iis[l])
      ensures prefix == old(prefix)
      ensures Replay(runCalls, [nstart]) == Replay(old(runCalls), [nstart])
      ensures nlayers == if old(cur) + 1 == old(nlayers) then Grown(old(nlayers)) else old(nlayers)
      ensures old(cur) + 1 < old(nlayers) ==> iis == old(iis)
      ensures forall l :: old(nlayers) <= l < nlayers ==> iis[l] == Blank
      ensures trace == old(trace) + AllocsDown(nlayers, old(nlayers))
      ensures runCalls == old(runCalls) + AllocsDown(nlayers, old(nlayers))
    {
      ghost var s := iis[..];
      cur := cur + 1;
      if cur == nlayers {
        ghost var rc := runCalls;
        Grow();
        assert trace == prefix + runCalls;
        ReplayAllocsDown(rc, nlayers, cur, [nstart]);
      } else {
        assert AllocsDown(nlayers, nlayers) == [];
      }
      assert forall l :: 0 <= l < cur ==> iis[..][l] == s[l];
      assert forall l :: 1 <= l < cur ==> InProgress(iis[l]);
      AdvanceFrames(s, iis[..], primariesLeft, cur - 1);
    }

    /** Draws the individual of the cursor layer: its periods, whether it is
        still infectious at tmax (its parent's event time plus its
        communicable period beyond tmax) and its number of events.  Without
        events it gets the no-event callback; otherwise it gets the
        new-infection callback and its first event is next.  For a primary
        the callback comes before its event index is reset. */
    method SpawnStep(p: PeriodDraw, tmax: Double, ghost primariesLeft: nat, ghost nstart: nat)
      returns (pc: Pc)
      requires Inv(Spawn, primariesLeft, nstart)
      modifies this, iis
      ensures Inv(pc, primariesLeft, nstart) && pc != Spawn
      ensures cur == old(cur) && iis == old(iis) && nlayers == old(nlayers) && prefix == old(prefix)
      ensures forall l :: 0 <= l < cur ==> iis[l] == old(iis[l])
      ensures iis[cur] == old(iis[cur]).(latentPeriod := p.latentPeriod, commPeriod := p.commPeriod,
                                         endCommPeriod := p.endCommPeriod, truePositiveTest := p.truePositiveTest,
                                         truncatedAtTmax := p.truncatedAtTmax,
                                         infectiousAtTmax := Gt(Num(old(iis[cur - 1]).eventTime + p.commPeriod), tmax),
                                         nevents := p.nevents,
                                         curevent := if p.nevents == 0 then old(iis[cur]).curevent else 0)
      ensures pc == Backtrack <==> p.nevents == 0
      ensures var c := if p.nevents == 0 then NoEvent(cur, iis[cur])
                       else if cur == 1 then NewInf(cur, iis[cur].(curevent := old(iis[cur]).curevent))
                       else NewInf(cur, iis[cur]);
              trace == old(trace) + [c] && runCalls == old(runCalls) + [c]
    {
      ghost var s := iis[..];
      var parent := iis[cur - 1];
      var drawn := iis[cur].(latentPeriod := p.latentPeriod, commPeriod := p.commPeriod,
                             endCommPeriod := p.endCommPeriod, truePositiveTest := p.truePositiveTest,
                             truncatedAtTmax := p.truncatedAtTmax,
                             infectiousAtTmax := Gt(Num(parent.eventTime + p.commPeriod), tmax),
                             nevents := p.nevents);
      // a primary is reported before its event index is reset, a later
      // individual after
      var x := if p.nevents == 0 then drawn else drawn.(curevent := 0);
      var c := if p.nevents == 0 then NoEvent(cur, drawn)
               else if cur == 1 then NewInf(cur, drawn)
               else NewInf(cur, x);
      pc := if p.nevents == 0 then Backtrack else GenEvent;
      iis[cur] := x;
      assert iis[..] == s[cur := x];
      SpawnReplay(s, primariesLeft, cur, x, runCalls, nstart, c);
      trace, runCalls := trace + [c], runCalls + [c];
    }

    /** Generates the cursor individual's current event: its time, its number
        of infections and the new-event callback's answer.  An accepted event
        moves up to its first infection; a refused one moves to the next event
        or, after the last, ends the individual. */
    method GenEventStep(d: EventDraw, ghost primariesLeft: nat, ghost nstart: nat)
      returns (pc: Pc)
      requires Inv(GenEvent, primariesLeft, nstart) && d.ninfections >= 1
      modifies this, iis
      ensures Inv(pc, primariesLeft, nstart)
      ensures pc == Spawn <==> d.accepted
      ensures pc == Spawn ==> cur == old(cur) + 1
      ensures pc != Spawn ==> cur == old(cur) && iis == old(iis)
      ensures iis == old(iis) || fresh(iis)
      ensures forall l :: 0 <= l < old(cur) ==> iis[l] == old(iis[l])
      ensures prefix == old(prefix)
      ensures iis[old(cur)].eventTime
              == EventTime(old(iis[cur - 1]).eventTime, old(iis[cur]).latentPeriod, old(iis[cur]).commPeriod, d.u)
      ensures pc == Backtrack <==> !d.accepted && old(iis[cur]).curevent == old(iis[cur]).nevents - 1
      ensures var y := old(iis[cur]);
              var x := y.(eventTime := EventTime(old(iis[cur - 1]).eventTime, y.latentPeriod, y.commPeriod, d.u),
                          ninfections := d.ninfections);
              && iis[old(cur)] == (if d.accepted then x.(curinfection := 0)
                                   else if pc == GenEvent then x.(curevent := y.curevent + 1)
                                   else x)
              && var tail := if pc == Backtrack then [EndInf(old(cur), x)]
                             else if pc == Spawn then AllocsDown(nlayers, old(nlayers))
                             else [];
                 && trace == old(trace) + [NewEvent(old(cur), x, d.accepted)] + tail
                 && runCalls == old(runCalls) + [NewEvent(old(cur), x, d.accepted)] + tail
      ensures nlayers == if d.accepted && old(cur) + 1 == old(nlayers) then Grown(old(nlayers)) else old(nlayers)
      ensures forall l :: old(cur) < l < old(nlayers) ==> iis[l] == old(iis[l])
      ensures forall l :: old(nlayers) <= l < nlayers ==> iis[l] == Blank
    {
      ghost var s := iis[..];
      var x := iis[cur].(eventTime := EventTime(iis[cur - 1].eventTime, iis[cur].latentPeriod, iis[cur].commPeriod, d.u),
                         ninfections := d.ninfections);
      var c := NewEvent(cur, x, d.accepted);
      EventReplay(s, primariesLeft, cur, runCalls, nstart, c);
      trace, runCalls := trace + [c], runCalls + [c];
      if d.accepted {
        iis[cur] := x.(curinfection := 0);
        FramesAgree(s, iis[..], primariesLeft, cur);
        Advance(primariesLeft, nstart);
        pc := Spawn;
      } else if x.curevent < x.nevents - 1 {
        iis[cur] := x.(curevent := x.curevent + 1);
        FramesAgree(s, iis[..], primariesLeft, cur);
        pc := GenEvent;
      } else {
        iis[cur] := x;
        FramesAgree(s, iis[..], primariesLeft, cur);
        var e := EndInf(cur, x);
        EndReplay(iis[..], primariesLeft, cur, runCalls, nstart, e);
        trace, runCalls := trace + [e], runCalls + [e];
        pc := Backtrack;
      }
    }

    /** The cursor individual is done: goes down one layer.  There, the
        individual either ends too (its last infection of its last event was
        walked), moves on to its next event, or moves up to its next
        infection. */
    method BacktrackStep(ghost primariesLeft: nat, ghost nstart: nat) returns (pc: Pc)
      requires Inv(Backtrack, primariesLeft, nstart) && cur >= 2
      modifies this, iis
      ensures Inv(pc, primariesLeft, nstart)
      ensures pc == Backtrack ==> cur == old(cur) - 1
      ensures pc == GenEvent ==> cur == old(cur) - 1
      ensures pc == Spawn ==> cur == old(cur)
      ensures iis == old(iis) || fresh(iis)
      ensures forall l :: 0 <= l < old(cur) - 1 ==> iis[l] == old(iis[l])
      ensures prefix == old(prefix)
      ensures iis == old(iis) && nlayers == old(nlayers)
      ensures forall l :: 0 <= l < nlayers && l != old(cur) - 1 ==> iis[l] == old(iis[l])
      ensures var y := old(iis[cur - 1]);
              && pc == (if y.curinfection != y.ninfections - 1 then Spawn
                        else if y.curevent != y.nevents - 1 then GenEvent
                        else Backtrack)
              && iis[old(cur) - 1] == (if pc == Spawn then y.(curinfection := y.curinfection + 1)
                                       else if pc == GenEvent then y.(curevent := y.curevent + 1)
                                       else y)
              && trace == old(trace) + (if pc == Backtrack then [EndInf(old(cur) - 1, y)] else [])
              && runCalls == old(runCalls) + (if pc == Backtrack then [EndInf(old(cur) - 1, y)] else [])
    {
      ghost var s := iis[..];
      cur := cur - 1;
      assert Frames(s, primariesLeft, cur + 1) == Frames(s, primariesLeft, cur) + [Remaining(s, primariesLeft, cur)];
      var x := iis[cur];
      if x.curinfection == x.ninfections - 1 {
        if x.curevent == x.nevents - 1 {
          var e := EndInf(cur, x);
          ReplaySnoc(runCalls, e, [nstart], Frames(s, primariesLeft, cur + 1));
          trace, runCalls := trace + [e], runCalls + [e];
          pc := Backtrack;
        } else {
          x := x.(curevent := x.curevent + 1);
          iis[cur] := x;
          FramesAgree(s, iis[..], primariesLeft, cur);
          pc := GenEvent;
        }
      } else {
        x := x.(curinfection := x.curinfection + 1);
        iis[cur] := x;
        FramesAgree(s, iis[..], primariesLeft, cur);
        Advance(primariesLeft, nstart);
        pc := Spawn;
      }
    }

    /** Walks the tree of one primary, the one taken from the root frame with
        primariesLeft primaries still to start after it, taking period draws
        from periods[pi0..] and event draws from draws[di0..].  It stops early
        (completed is false) only when the stream it next needs has run out;
        otherwise it ends back at layer 1 with the primary done. */
    method WalkPrimary(tmax: Double, periods: seq<PeriodDraw>, draws: seq<EventDraw>, pi0: nat, di0: nat,
                       ghost primariesLeft: nat, ghost nstart: nat)
      returns (completed: bool, pi: nat, di: nat)
      requires Inv(Spawn, primariesLeft, nstart) && cur == 1
      requires Consumed(runCalls, periods, draws, pi0, di0)
      requires forall k :: 0 <= k < |draws| ==> draws[k].ninfections >= 1
      modifies this, iis
      ensures Valid() && trace == prefix + runCalls && prefix == old(prefix)
      ensures iis == old(iis) || fresh(iis)
      ensures iis[0] == old(iis[0])
      ensures Consumed(runCalls, periods, draws, pi, di)
      ensures completed ==> Inv(Backtrack, primariesLeft, nstart) && cur == 1
      ensures !completed ==> Replay(runCalls, [nstart]).Some? && (pi == |periods| || di == |draws|)
    {
      pi, di := pi0, di0;
      var pc := Spawn;
      completed := true;
      while !(pc == Backtrack && cur == 1)
        invariant Inv(pc, primariesLeft, nstart)
        invariant iis == old(iis) || fresh(iis)
        invariant iis[0] == old(iis[0])
        invariant prefix == old(prefix)
        invariant Consumed(runCalls, periods, draws, pi, di)
        decreases |periods| - pi + |draws| - di, if pc == Backtrack then 1 else 0, cur
      {
        match pc {
          case Spawn =>
            if pi == |periods| {
              return false, pi, di;
            }
            ghost var rc := runCalls;
            pc := SpawnStep(periods[pi], tmax, primariesLeft, nstart);
            ConsumedStart(rc, runCalls[|rc|], periods, draws, pi, di);
            pi := pi + 1;
          case GenEvent =>
            if di == |draws| {
              return false, pi, di;
            }
            ghost var rc, nl := runCalls, nlayers;
            pc := GenEventStep(draws[di], primariesLeft, nstart);
            ConsumedEventThen(rc, runCalls[|rc|], runCalls[|rc| + 1..], nlayers, nl, periods, draws, pi, di);
            di := di + 1;
          case Backtrack =>
            ghost var rc := runCalls;
            pc := BacktrackStep(primariesLeft, nstart);
            if pc == Backtrack {
              ConsumedEnd(rc, runCalls[|rc|], periods, draws, pi, di);
            } else {
              assert runCalls == rc;
            }
        }
      }
    }

    /** One simulated path: the root layer becomes a pseudo-parent with event
        time 0, one event and nstart infections, and gets the new-event
        callback; then the tree of each of the nstart primaries is walked.
        The k-th individual started carries the k-th period draw and the k-th
        event carries the k-th event draw.  The walk stops early (completed is
        false) only when a stream of draws runs out.  What the callbacks
        received follows the protocol; when the run completes, every frame
        was consumed. */
    method Run(nstart: nat, tmax: Double, rootAnswer: bool,
               periods: seq<PeriodDraw>, draws: seq<EventDraw>) returns (completed: bool)
      requires Valid()
      requires forall k :: 0 <= k < |draws| ==> draws[k].ninfections >= 1
      modifies this, iis
      ensures Valid()
      ensures iis[0] == old(iis[0]).(eventTime := 0.0, nevents := 1, curevent := 0, ninfections := nstart)
      ensures trace == old(trace) + [NewEvent(0, iis[0], rootAnswer)] + runCalls
      ensures Replay(runCalls, [nstart]).Some?
      ensures completed ==> Replay(runCalls, [nstart]) == Some([0])
      ensures |StartCalls(runCalls)| <= |periods| && |EventCalls(runCalls)| <= |draws|
      ensures forall k :: 0 <= k < |StartCalls(runCalls)| ==> StartedFrom(StartCalls(runCalls)[k], periods[k])
      ensures forall k :: 0 <= k < |EventCalls(runCalls)| ==> EventFrom(EventCalls(runCalls)[k], draws[k])
      ensures !completed ==> |StartCalls(runCalls)| == |periods| || |EventCalls(runCalls)| == |draws|
    {
      cur := 0;
      var root := iis[0].(eventTime := 0.0, nevents := 1, curevent := 0, ninfections := nstart);
      iis[0] := root;
      trace := trace + [NewEvent(0, root, rootAnswer)];
      prefix := trace;
      runCalls := [];
      var pi, di := 0, 0;
      var i: nat := nstart;
      completed := true;
      cur := 1;
      while i > 0
        invariant Valid() && cur == 1 && i <= nstart
        invariant iis == old(iis) || fresh(iis)
        invariant iis[0] == root
        invariant trace == prefix + runCalls && prefix == old(trace) + [NewEvent(0, root, rootAnswer)]
        invariant Replay(runCalls, [nstart]) == Some([i])
        invariant completed
        invariant Consumed(runCalls, periods, draws, pi, di)
      {
        i := i - 1;
        assert Expected(iis[..], i, 1, Spawn) == [i + 1];
        completed, pi, di := WalkPrimary(tmax, periods, draws, pi, di, i, nstart);
        if !completed {
          return;
        }
        assert Expected(iis[..], i, cur, Backtrack) == Frames(iis[..], i, 0) + [i] == [i];
      }
    }
  }
}
