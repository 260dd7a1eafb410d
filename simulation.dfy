/** The common simulation state: the parameter record with its defaults, the
    random-number generator, the statistics pointer and the six callback
    slots through which the engine reports what it does. */
module Simulation {
  import opened Doubles
  import opened ModelParameters

  /** The callbacks a slot can hold. */
  datatype Handler =
    | DefaultIiAlloc       // the default per-individual allocation routine
    | DefaultEvent         // the default new-event routine
    | DummySvIi            // does nothing with (simulation, individual)
    | DummyTwoPars         // does nothing with (individual, data pointer)
    | Registered(id: nat)  // a routine installed later, e.g. by a statistics module

  /** The random-number generator handed to the simulation; only its identity matters here. */
  datatype Rng = Rng(id: nat)

  /** The opaque data pointer passed to the callbacks. */
  datatype DataRef = Null | Data(id: nat)

  /** Overwrites the parameter record with the defaults; `timetype` is not
      touched and keeps whatever value it had. */
  method SimParsInit(pars: ModelPars) returns (r: ModelPars)
    ensures r.q == Num(0.0) && r.pit == Num(0.0) && r.tmax == PosInf
    ensures r.nstart == 1 && r.popsize == 0 && !r.trelpriend
    ensures r.pricommpertype == {PriMain, PriAlt, PriMainInt, PriAltInt}
    ensures r.grouptype == GroupLogAttendeesPlus1
    ensures OthersUnset(r)
    ensures r.timetype == pars.timetype
  {
    r := pars;
    r := r.(tbar := NaN, p := NaN, mu := NaN, gAve := NaN, lambda := NaN);
    r := r.(lambdap := NaN, pinf := NaN, R0 := NaN, kappa := NaN);
    r := r.(lbar := NaN, kappal := NaN);
    r := r.(q := Num(0.0), mbar := NaN, kappaq := NaN);
    r := r.(pit := Num(0.0), itbar := NaN, kappait := NaN);
    r := r.(pim := NaN, imbar := NaN, kappaim := NaN);
    r := r.(t95 := NaN, m95 := NaN, l95 := NaN, it95 := NaN, im95 := NaN);
    r := r.(ttpr := NaN, mtpr := NaN, tdeltat := NaN);
    r := r.(tmax := PosInf);
    r := r.(nstart := 1, popsize := 0);
    r := r.(pricommpertype := {PriMain, PriAlt, PriMainInt, PriAltInt});
    r := r.(grouptype := GroupLogAttendeesPlus1);
    r := r.(trelpriend := false);
  }

  class SimVars {
    var pars: ModelPars
    var rng: Rng
    var dataptr: DataRef
    var iiAlloc: Handler      // called on each newly allocated layer slot
    var newEvent: Handler     // called for each transmission event
    var newPriInf: Handler    // called for a new primary individual
    var newInf: Handler       // called for a new individual with events
    var endInf: Handler       // called when an individual's last event is done
    var infNoEvent: Handler   // called for an individual without any event

    /** Every slot holds its default routine. */
    predicate DefaultRegistry()
      reads this
    {
      && iiAlloc == DefaultIiAlloc && newEvent == DefaultEvent
      && newPriInf == DummySvIi && newInf == DummySvIi
      && endInf == DummyTwoPars && infNoEvent == DummyTwoPars
    }

    /** Copies the parameters, keeps the generator, clears the data pointer and
        puts the default routine back in every slot, whatever was registered
        before. */
    method SimInit(p: ModelPars, r: Rng)
      modifies this
      ensures pars == p && rng == r && dataptr == Null
      ensures DefaultRegistry()
    {
      pars := p;
      rng := r;
      dataptr := Null;
      iiAlloc := DefaultIiAlloc;
      newEvent := DefaultEvent;
      newPriInf := DummySvIi;
      newInf := DummySvIi;
      endInf := DummyTwoPars;
      infNoEvent := DummyTwoPars;
    }
  }
}
