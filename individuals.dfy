/** The record kept for the infectious individual of one layer, and the draws
    the engine takes from its random sources for each individual and event. */
module Individuals {
  datatype Individual = Individual(
    eventTime: real,          // time of the current transmission event
    latentPeriod: real,
    commPeriod: real,         // communicable period
    endCommPeriod: real,      // end of the communicable period
    truePositiveTest: bool,   // the true-positive-test bit of the period type
    truncatedAtTmax: bool,    // the period-truncated-by-tmax bit of the period type
    infectiousAtTmax: bool,
    nevents: nat,             // number of transmission events
    curevent: nat,            // index of the current event
    ninfections: nat,         // infections at the current event
    curinfection: nat)        // index of the current infection of that event

  /** The contents of a freshly allocated layer slot. */
  const Blank := Individual(0.0, 0.0, 0.0, 0.0, false, false, false, 0, 0, 0, 0)

  /** What the period generator and the Poisson draw give a new individual. */
  datatype PeriodDraw = PeriodDraw(
    latentPeriod: real, commPeriod: real, endCommPeriod: real,
    truePositiveTest: bool, truncatedAtTmax: bool,
    nevents: nat)

  /** What one transmission event draws: the uniform variate u in [0, 1) that
      places the event inside the communicable period, the logarithmic number
      of infections (at least 1), and the answer of the new-event callback. */
  datatype EventDraw = EventDraw(u: real, ninfections: nat, accepted: bool)

  /** The event time of an individual whose parent's event was at parentTime. */
  function EventTime(parentTime: real, latent: real, comm: real, u: real): real
  {
    parentTime + latent + comm * (1.0 - u)
  }

  /** With u in [0, 1) the event falls in the communicable period, which starts
      once the latent period after the parent's event is over: strictly after
      its start and no later than its end. */
  lemma EventTimeInPeriod(parentTime: real, latent: real, comm: real, u: real)
    requires 0.0 <= u < 1.0 && comm > 0.0
    ensures parentTime + latent < EventTime(parentTime, latent, comm, u) <= parentTime + latent + comm
  {
    assert 0.0 < 1.0 - u <= 1.0;
    assert comm * (1.0 - u) <= comm * 1.0;
  }
}
