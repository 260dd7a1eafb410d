/** The model parameter record, its defaults and the routine that validates
    the provided parameters and solves for the missing ones.

    Every numeric parameter is a `Double`; NaN means "not provided".  The
    numerics the solver delegates (the logarithm and the three root finders)
    are supplied as a `Numerics` record of functions: the model fixes what is
    asked of them and what is done with their answers, not how they compute. */
module ModelParameters {
  import opened Doubles

  /** The four kinds of communicable period a primary individual may be given. */
  datatype PriCommPer = PriMain | PriAlt | PriMainInt | PriAltInt

  /** How the number of individuals attending a transmission event is drawn. */
  datatype GroupType = GroupLogAttendeesPlus1 | GroupOther(code: nat)

  /** The time origin of the output timelines. */
  datatype TimeType = TimePriCreated | TimeOther(code: nat)

  datatype ModelPars = ModelPars(
    tbar: Double, p: Double, mu: Double, gAve: Double, lambda: Double,
    lambdap: Double, pinf: Double, R0: Double, kappa: Double,
    lbar: Double, kappal: Double,
    q: Double, mbar: Double, kappaq: Double,
    pit: Double, itbar: Double, kappait: Double,
    pim: Double, imbar: Double, kappaim: Double,
    t95: Double, m95: Double, l95: Double, it95: Double, im95: Double,
    ttpr: Double, mtpr: Double, tdeltat: Double, tmax: Double,
    nstart: nat, popsize: nat,
    pricommpertype: set<PriCommPer>, grouptype: GroupType,
    trelpriend: bool, timetype: TimeType)

  /** What a root finder reports: a return code (0 on success) and the value
      left in the variable it solved for. */
  datatype RootResult = RootResult(ret: int, x: Double)

  datatype Numerics = Numerics(
    log: Double -> Double,                    // the C library logarithm
    solveP: Double -> RootResult,             // p such that mu(p) = mu, for mu > 1
    solveX95: (Double, Double) -> RootResult, // 95th percentile of a gamma(ave, kappa)
    solveKappa: (Double, Double) -> RootResult) // kappa of a gamma(ave) with that 95th percentile

  // ---------------------------------------------------------------------------
  // Defaults

  /** True when every numeric parameter that has no default of its own is NaN. */
  predicate OthersUnset(r: ModelPars)
  {
    && r.tbar.NaN? && r.p.NaN? && r.mu.NaN? && r.gAve.NaN? && r.lambda.NaN?
    && r.lambdap.NaN? && r.pinf.NaN? && r.R0.NaN? && r.kappa.NaN?
    && r.lbar.NaN? && r.kappal.NaN? && r.mbar.NaN? && r.kappaq.NaN?
    && r.itbar.NaN? && r.kappait.NaN? && r.pim.NaN? && r.imbar.NaN? && r.kappaim.NaN?
    && r.t95.NaN? && r.m95.NaN? && r.l95.NaN? && r.it95.NaN? && r.im95.NaN?
    && r.ttpr.NaN? && r.mtpr.NaN? && r.tdeltat.NaN?
  }

  // ---------------------------------------------------------------------------
  // Specification of the solver

  function Provided(a: Double): nat { if a.NaN? then 0 else 1 }

  /** How many of tbar, lambda, (p or mu) and R0 were provided. */
  function R0Presence(pars: ModelPars): nat
  {
    Provided(pars.tbar) + Provided(pars.lambda)
    + (if !pars.p.NaN? || !pars.mu.NaN? then 1 else 0) + Provided(pars.R0)
  }

  /** Exactly one of a shape parameter and a 95th percentile was provided. */
  predicate ExactlyOneOf(kappa: Double, x95: Double)
  {
    Provided(kappa) + Provided(x95) == 1
  }

  /** The mean number of infections per event, -p/((1-p) log(1-p)), or 1 when p is 0. */
  function MuOfP(p: Double, num: Numerics): Double
  {
    if Gt(p, Num(0.0)) then Div(Neg(p), Mul(Sub(Num(1.0), p), num.log(Sub(Num(1.0), p))))
    else Num(1.0)
  }

  /** The first range check of the R0 group that fails, or 0. */
  function R0GroupCheck(pars: ModelPars): int
  {
    if !pars.p.NaN? && Lt(pars.p, Num(0.0)) then -1
    else if !pars.tbar.NaN? && Le(pars.tbar, Num(0.0)) then -2
    else if !pars.lambda.NaN? && Le(pars.lambda, Num(0.0)) then -3
    else if !pars.R0.NaN? && Le(pars.R0, Num(0.0)) then -4
    else 0
  }

  /** The R0 group after mu has been derived from p (when p was provided). */
  function WithMu(pars: ModelPars, num: Numerics): ModelPars
  {
    if pars.p.NaN? then pars else pars.(mu := MuOfP(pars.p, num))
  }

  /** The R0 group with its one missing member among R0, lambda, tbar (or else mu) computed. */
  function WithMissing(m: ModelPars): ModelPars
  {
    if m.R0.NaN? then m.(R0 := Mul(Mul(m.lambda, m.tbar), m.mu))
    else if m.lambda.NaN? then m.(lambda := Div(m.R0, Mul(m.tbar, m.mu)))
    else if m.tbar.NaN? then m.(tbar := Div(m.R0, Mul(m.lambda, m.mu)))
    else m.(mu := Div(m.R0, Mul(m.lambda, m.tbar)))
  }

  /** Result code and parameter record of the R0-group solver. */
  function R0GroupSolution(pars: ModelPars, num: Numerics): (int, ModelPars)
  {
    if R0GroupCheck(pars) == -1 then (-1, pars)
    else
      var m := WithMu(pars, num);
      if R0GroupCheck(pars) != 0 then (R0GroupCheck(pars), m)
      else
        var s := WithMissing(m);
        if !s.p.NaN? then (0, s)
        else if Gt(s.mu, Num(1.0)) then
          var rr := num.solveP(s.mu);
          (rr.ret, s.(p := rr.x))
        else (0, s.(p := Num(0.0)))
  }

  /** Result code, shape and 95th percentile from the gamma-group solver. */
  function GammaGroupSolution(ave: Double, kappa: Double, x95: Double, num: Numerics): (int, Double, Double)
  {
    if !Ge(ave, Num(0.0)) then (-1, kappa, x95)
    else if x95.NaN? then
      if !Gt(kappa, Num(0.0)) then (-1, kappa, x95)
      else if Ne(kappa, PosInf) then
        var rr := num.solveX95(ave, kappa);
        (rr.ret, kappa, rr.x)
      else (0, kappa, ave)
    else if !Ge(x95, ave) then (-1, kappa, x95)
    else if Ne(x95, ave) then
      var rr := num.solveKappa(ave, x95);
      (rr.ret, rr.x, x95)
    else (0, PosInf, x95)
  }

  function InterruptedMainSolution(pars: ModelPars, num: Numerics): (int, ModelPars)
  {
    if !Truthy(pars.pit) then (0, pars)
    else if !ExactlyOneOf(pars.kappait, pars.it95) then (-5, pars)
    else
      var g := GammaGroupSolution(pars.itbar, pars.kappait, pars.it95, num);
      (if g.0 != 0 then -6 else 0, pars.(kappait := g.1, it95 := g.2))
  }

  /** The interrupted-alternate group once the alternate group has been solved. */
  function InterruptedAltSolution(pars: ModelPars, num: Numerics): (int, ModelPars)
  {
    var a := if pars.pim.NaN? then pars.(pim := pars.pit) else pars;
    if !Gt(a.pim, Num(0.0)) then (0, a)
    else if a.imbar.NaN? && a.kappaim.NaN? && a.im95.NaN? then
      (0, a.(imbar := a.itbar, kappaim := a.kappait, im95 := a.it95))
    else
      var b := if a.imbar.NaN? then a.(imbar := a.itbar) else a;
      if !ExactlyOneOf(b.kappaim, b.im95) then (-9, b)
      else
        var g := GammaGroupSolution(b.imbar, b.kappaim, b.im95, num);
        (if g.0 != 0 then -10 else 0, b.(kappaim := g.1, im95 := g.2))
  }

  function AlternateSolution(pars: ModelPars, num: Numerics): (int, ModelPars)
  {
    if !Gt(pars.q, Num(0.0)) then (0, pars)
    else if !ExactlyOneOf(pars.kappaq, pars.m95) then (-7, pars)
    else
      var g := GammaGroupSolution(pars.mbar, pars.kappaq, pars.m95, num);
      var a := pars.(kappaq := g.1, m95 := g.2);
      if g.0 != 0 then (-8, a)
      else InterruptedAltSolution(a, num)
  }

  function LatentSolution(pars: ModelPars, num: Numerics): (int, ModelPars)
  {
    if pars.kappal.NaN? && pars.l95.NaN? then (0, pars)
    else if !ExactlyOneOf(pars.kappal, pars.l95) then (-11, pars)
    else
      var g := GammaGroupSolution(pars.lbar, pars.kappal, pars.l95, num);
      (if g.0 != 0 then -12 else 0, pars.(kappal := g.1, l95 := g.2))
  }

  /** The alternate group is requested and its own gamma distribution solves. */
  predicate AlternateMainPasses(pars: ModelPars, num: Numerics)
  {
    Gt(pars.q, Num(0.0)) && ExactlyOneOf(pars.kappaq, pars.m95)
    && GammaGroupSolution(pars.mbar, pars.kappaq, pars.m95, num).0 == 0
  }

  /** The interrupted-alternate probability, borrowed from `pit` when not given. */
  function BorrowedPim(pars: ModelPars): Double
  {
    if pars.pim.NaN? then pars.pit else pars.pim
  }

  /** The interrupted-alternate mean, borrowed from `itbar` when not given. */
  function BorrowedImbar(pars: ModelPars): Double
  {
    if pars.imbar.NaN? then pars.itbar else pars.imbar
  }

  /** The R0 group and the main communicable-period group both solve. */
  predicate MainGroupsPass(pars: ModelPars, num: Numerics)
  {
    R0Presence(pars) == 3 && R0GroupSolution(pars, num).0 == 0
    && var r0 := R0GroupSolution(pars, num).1;
       ExactlyOneOf(r0.kappa, r0.t95) && GammaGroupSolution(r0.tbar, r0.kappa, r0.t95, num).0 == 0
  }

  /** The code of the alternate group reads neither the solved R0 group nor
      the main and interrupted-main gamma parameters. */
  lemma AlternateCodeIgnoresEarlierGroups(x: ModelPars, y: ModelPars, num: Numerics)
    requires x.q == y.q && x.mbar == y.mbar && x.kappaq == y.kappaq && x.m95 == y.m95
    requires x.pit == y.pit && x.itbar == y.itbar
    requires x.pim == y.pim && x.imbar == y.imbar && x.kappaim == y.kappaim && x.im95 == y.im95
    ensures AlternateSolution(x, num).0 == AlternateSolution(y, num).0
  {
  }

  /** The code of the latent group reads only the latent parameters. */
  lemma LatentCodeIgnoresEarlierGroups(x: ModelPars, y: ModelPars, num: Numerics)
    requires x.lbar == y.lbar && x.kappal == y.kappal && x.l95 == y.l95
    ensures LatentSolution(x, num).0 == LatentSolution(y, num).0
  {
  }

  /** Result code and parameter record of the whole solver: the first group
      that fails decides the code. */
  function ParsSolution(pars: ModelPars, num: Numerics): (int, ModelPars)
  {
    if R0Presence(pars) != 3 then (-1, pars)
    else
      var r := R0GroupSolution(pars, num);
      if r.0 != 0 then (-2, r.1)
      else if !ExactlyOneOf(r.1.kappa, r.1.t95) then (-3, r.1)
      else
        var g := GammaGroupSolution(r.1.tbar, r.1.kappa, r.1.t95, num);
        var m := r.1.(kappa := g.1, t95 := g.2);
        if g.0 != 0 then (-4, m)
        else
          var i := InterruptedMainSolution(m, num);
          if i.0 != 0 then i
          else
            var a := AlternateSolution(i.1, num);
            if a.0 != 0 then a
            else LatentSolution(a.1, num)
  }

  // ---------------------------------------------------------------------------
  // The solver, step by step

  /** Checks the range of tbar, lambda, p and R0, derives mu from p, computes
      the one missing member of the group and, when p is missing, solves for it. */
  method SolveR0Group(pars: ModelPars, num: Numerics) returns (code: int, r: ModelPars)
    ensures (code, r) == R0GroupSolution(pars, num)
    ensures R0GroupCheck(pars) != 0 ==> code == R0GroupCheck(pars)
    ensures R0GroupCheck(pars) == 0 && code != 0 ==>
              pars.p.NaN? && Gt(r.mu, Num(1.0)) && code == num.solveP(r.mu).ret
    ensures r == pars.(tbar := r.tbar, p := r.p, mu := r.mu, lambda := r.lambda, R0 := r.R0)
  {
    r := pars;
    if !r.p.NaN? {
      if Lt(r.p, Num(0.0)) {
        return -1, r;
      }
      r := r.(mu := if Gt(r.p, Num(0.0)) then Div(Neg(r.p), Mul(Sub(Num(1.0), r.p), num.log(Sub(Num(1.0), r.p)))) else Num(1.0));
    }
    if !r.tbar.NaN? && Le(r.tbar, Num(0.0)) {
      return -2, r;
    }
    if !r.lambda.NaN? && Le(r.lambda, Num(0.0)) {
      return -3, r;
    }
    if !r.R0.NaN? && Le(r.R0, Num(0.0)) {
      return -4, r;
    }
    if r.R0.NaN? {
      r := r.(R0 := Mul(Mul(r.lambda, r.tbar), r.mu));
    } else if r.lambda.NaN? {
      r := r.(lambda := Div(r.R0, Mul(r.tbar, r.mu)));
    } else if r.tbar.NaN? {
      r := r.(tbar := Div(r.R0, Mul(r.lambda, r.mu)));
    } else {
      r := r.(mu := Div(r.R0, Mul(r.lambda, r.tbar)));
    }
    if r.p.NaN? {
      if Gt(r.mu, Num(1.0)) {
        r := r.(p := Num(0.999));
        var rr := num.solveP(r.mu);
        r := r.(p := rr.x);
        if rr.ret != 0 {
          return rr.ret, r;
        }
      } else {
        r := r.(p := Num(0.0));
      }
    }
    return 0, r;
  }

  /** Solves a gamma distribution given by its mean and either its shape
      `kappa` or its 95th percentile `x95`, filling in the other one. */
  method SolveGammaGroup(ave: Double, kappa: Double, x95: Double, num: Numerics)
    returns (code: int, kappa': Double, x95': Double)
    ensures (code, kappa', x95') == GammaGroupSolution(ave, kappa, x95, num)
    ensures !Ge(ave, Num(0.0)) ==> code == -1
    ensures x95.NaN? && !Gt(kappa, Num(0.0)) ==> code == -1
    ensures !x95.NaN? && !Ge(x95, ave) ==> code == -1
    ensures Ge(ave, Num(0.0)) && x95.NaN? && kappa == PosInf ==> code == 0 && x95' == ave && kappa' == PosInf
    ensures Ge(ave, Num(0.0)) && Eq(x95, ave) ==> code == 0 && kappa' == PosInf && x95' == x95
  {
    kappa', x95' := kappa, x95;
    if !Ge(ave, Num(0.0)) {
      return -1, kappa', x95';
    }
    if x95'.NaN? {
      if !Gt(kappa', Num(0.0)) {
        return -1, kappa', x95';
      }
      if Ne(kappa', PosInf) {
        x95' := ave;
        var rr := num.solveX95(ave, kappa');
        x95' := rr.x;
        if rr.ret != 0 {
          return rr.ret, kappa', x95';
        }
      } else {
        x95' := ave;
      }
    } else {
      if !Ge(x95', ave) {
        return -1, kappa', x95';
      }
      if Ne(x95', ave) {
        kappa' := Num(1.0);
        var rr := num.solveKappa(ave, x95');
        kappa' := rr.x;
        if rr.ret != 0 {
          return rr.ret, kappa', x95';
        }
      } else {
        kappa' := PosInf;
      }
    }
    return 0, kappa', x95';
  }

  /** The interrupted-main group: solved only when `pit` is non-zero. */
  method SolveInterruptedMain(pars: ModelPars, num: Numerics) returns (code: int, r: ModelPars)
    ensures (code, r) == InterruptedMainSolution(pars, num)
    ensures !Truthy(pars.pit) ==> code == 0 && r == pars
    ensures code == -5 <==> Truthy(pars.pit) && !ExactlyOneOf(pars.kappait, pars.it95)
    ensures code == -6 <==> Truthy(pars.pit) && ExactlyOneOf(pars.kappait, pars.it95)
                            && GammaGroupSolution(pars.itbar, pars.kappait, pars.it95, num).0 != 0
    ensures code == 0 || code == -5 || code == -6
    ensures r == pars.(kappait := r.kappait, it95 := r.it95)
  {
    r := pars;
    if Truthy(r.pit) {
      if !ExactlyOneOf(r.kappait, r.it95) {
        return -5, r;
      }
      var c, k, x := SolveGammaGroup(r.itbar, r.kappait, r.it95, num);
      r := r.(kappait := k, it95 := x);
      if c != 0 {
        return -6, r;
      }
    }
    return 0, r;
  }

  /** The alternate group, solved only when `q > 0`, followed by the
      interrupted-alternate group, which borrows the interrupted-main values
      it was not given. */
  method SolveAlternate(pars: ModelPars, num: Numerics) returns (code: int, r: ModelPars)
    ensures (code, r) == AlternateSolution(pars, num)
    ensures !Gt(pars.q, Num(0.0)) ==> code == 0 && r == pars
    ensures code == -7 <==> Gt(pars.q, Num(0.0)) && !ExactlyOneOf(pars.kappaq, pars.m95)
    ensures code == -8 <==> Gt(pars.q, Num(0.0)) && ExactlyOneOf(pars.kappaq, pars.m95)
                            && GammaGroupSolution(pars.mbar, pars.kappaq, pars.m95, num).0 != 0
    ensures code == -9 <==> AlternateMainPasses(pars, num) && Gt(BorrowedPim(pars), Num(0.0))
                            && !(pars.imbar.NaN? && pars.kappaim.NaN? && pars.im95.NaN?)
                            && !ExactlyOneOf(pars.kappaim, pars.im95)
    ensures code == -10 <==> AlternateMainPasses(pars, num) && Gt(BorrowedPim(pars), Num(0.0))
                             && ExactlyOneOf(pars.kappaim, pars.im95)
                             && GammaGroupSolution(BorrowedImbar(pars), pars.kappaim, pars.im95, num).0 != 0
    ensures -10 <= code <= -7 || code == 0
    ensures r == pars.(kappaq := r.kappaq, m95 := r.m95, pim := r.pim, imbar := r.imbar,
                       kappaim := r.kappaim, im95 := r.im95)
  {
    r := pars;
    if Gt(r.q, Num(0.0)) {
      if !ExactlyOneOf(r.kappaq, r.m95) {
        return -7, r;
      }
      var c, k, x := SolveGammaGroup(r.mbar, r.kappaq, r.m95, num);
      r := r.(kappaq := k, m95 := x);
      if c != 0 {
        return -8, r;
      }
      if r.pim.NaN? {
        r := r.(pim := r.pit);
      }
      if Gt(r.pim, Num(0.0)) {
        if r.imbar.NaN? && r.kappaim.NaN? && r.im95.NaN? {
          r := r.(imbar := r.itbar, kappaim := r.kappait, im95 := r.it95);
        } else {
          if r.imbar.NaN? {
            r := r.(imbar := r.itbar);
          }
          if !ExactlyOneOf(r.kappaim, r.im95) {
            return -9, r;
          }
          c, k, x := SolveGammaGroup(r.imbar, r.kappaim, r.im95, num);
          r := r.(kappaim := k, im95 := x);
          if c != 0 {
            return -10, r;
          }
        }
      }
    }
    return 0, r;
  }

  /** The latent-period group, solved only when kappal or l95 was provided. */
  method SolveLatent(pars: ModelPars, num: Numerics) returns (code: int, r: ModelPars)
    ensures (code, r) == LatentSolution(pars, num)
    ensures pars.kappal.NaN? && pars.l95.NaN? ==> code == 0 && r == pars
    ensures code == -11 <==> !(pars.kappal.NaN? && pars.l95.NaN?) && !ExactlyOneOf(pars.kappal, pars.l95)
    ensures code == -12 <==> ExactlyOneOf(pars.kappal, pars.l95)
                             && GammaGroupSolution(pars.lbar, pars.kappal, pars.l95, num).0 != 0
    ensures code == 0 || code == -11 || code == -12
    ensures r == pars.(kappal := r.kappal, l95 := r.l95)
  {
    r := pars;
    if !r.kappal.NaN? || !r.l95.NaN? {
      if !ExactlyOneOf(r.kappal, r.l95) {
        return -11, r;
      }
      var c, k, x := SolveGammaGroup(r.lbar, r.kappal, r.l95, num);
      r := r.(kappal := k, l95 := x);
      if c != 0 {
        return -12, r;
      }
    }
    return 0, r;
  }

  /** Validates the provided parameters and solves for the missing ones,
      group by group; the first failing step decides the (negative) code. */
  method SolvePars(pars: ModelPars, num: Numerics) returns (code: int, r: ModelPars)
    ensures (code, r) == ParsSolution(pars, num)
    ensures code == -1 <==> R0Presence(pars) != 3
    ensures code == -2 <==> R0Presence(pars) == 3 && R0GroupSolution(pars, num).0 != 0
    ensures code == -3 <==> R0Presence(pars) == 3 && R0GroupSolution(pars, num).0 == 0
                            && !ExactlyOneOf(R0GroupSolution(pars, num).1.kappa, R0GroupSolution(pars, num).1.t95)
    ensures code == -4 <==> R0Presence(pars) == 3 && R0GroupSolution(pars, num).0 == 0
                            && (var r0 := R0GroupSolution(pars, num).1;
                                ExactlyOneOf(r0.kappa, r0.t95) && GammaGroupSolution(r0.tbar, r0.kappa, r0.t95, num).0 != 0)
    ensures MainGroupsPass(pars, num) ==>
              var i, a, l := InterruptedMainSolution(pars, num).0, AlternateSolution(pars, num).0, LatentSolution(pars, num).0;
              code == if i != 0 then i else if a != 0 then a else l
    ensures code == 0 || (-12 <= code <= -1)
  {
    r := pars;
    if R0Presence(r) != 3 {
      return -1, r;
    }
    var c: int;
    c, r := SolveR0Group(r, num);
    if c != 0 {
      return -2, r;
    }
    if !ExactlyOneOf(r.kappa, r.t95) {
      return -3, r;
    }
    var k, x;
    c, k, x := SolveGammaGroup(r.tbar, r.kappa, r.t95, num);
    r := r.(kappa := k, t95 := x);
    if c != 0 {
      return -4, r;
    }
    c, r := SolveInterruptedMain(r, num);
    if c != 0 {
      return c, r;
    }
    AlternateCodeIgnoresEarlierGroups(r, pars, num);
    LatentCodeIgnoresEarlierGroups(r, pars, num);
    c, r := SolveAlternate(r, num);
    if c != 0 {
      return c, r;
    }
    LatentCodeIgnoresEarlierGroups(r, pars, num);
    code, r := SolveLatent(r, num);
  }

  // ---------------------------------------------------------------------------
  // Properties of the solver

  /** R0 = lambda * tbar * mu, in exact arithmetic, over four finite numbers. */
  predicate R0Holds(R0: Double, lambda: Double, tbar: Double, mu: Double)
  {
    R0.Num? && lambda.Num? && tbar.Num? && mu.Num? && R0.v == lambda.v * tbar.v * mu.v
  }

  /** Whichever member of the R0 group was computed, the group ends up
      satisfying R0 = lambda * tbar * mu in exact arithmetic (whenever the
      four values are finite numbers). */
  lemma R0Relation(pars: ModelPars, num: Numerics)
    requires R0GroupSolution(pars, num).0 == 0
    requires var r := R0GroupSolution(pars, num).1;
             r.R0.Num? && r.lambda.Num? && r.tbar.Num? && r.mu.Num?
    ensures var r := R0GroupSolution(pars, num).1;
            R0Holds(r.R0, r.lambda, r.tbar, r.mu)
  {
    R0GroupShape(pars, num);
    MissingRelation(WithMu(pars, num));
  }

  /** After passing its range checks, the R0 group differs from WithMissing(WithMu(..)) in p alone. */
  lemma R0GroupShape(pars: ModelPars, num: Numerics)
    requires R0GroupSolution(pars, num).0 == 0
    ensures R0GroupCheck(pars) == 0
    ensures var r := R0GroupSolution(pars, num).1;
            var s := WithMissing(WithMu(pars, num));
            r.R0 == s.R0 && r.lambda == s.lambda && r.tbar == s.tbar && r.mu == s.mu
  {
  }

  lemma MissingRelation(m: ModelPars)
    requires var s := WithMissing(m); s.R0.Num? && s.lambda.Num? && s.tbar.Num? && s.mu.Num?
    ensures var s := WithMissing(m); R0Holds(s.R0, s.lambda, s.tbar, s.mu)
  {
    if m.R0.NaN? {
      MulFinite(Mul(m.lambda, m.tbar), m.mu);
      MulFinite(m.lambda, m.tbar);
    } else if m.lambda.NaN? {
      SolvedFactor(m.R0, m.tbar, m.mu);
      var l := Div(m.R0, Mul(m.tbar, m.mu)).v;
      assert l * m.tbar.v * m.mu.v == l * (m.tbar.v * m.mu.v);
    } else if m.tbar.NaN? {
      SolvedFactor(m.R0, m.lambda, m.mu);
      var t := Div(m.R0, Mul(m.lambda, m.mu)).v;
      assert m.lambda.v * t * m.mu.v == t * (m.lambda.v * m.mu.v);
    } else {
      SolvedFactor(m.R0, m.lambda, m.tbar);
    }
  }

  /** If R0 / (x * y) is a finite number while x and y are, it times x * y is R0. */
  lemma SolvedFactor(R0: Double, x: Double, y: Double)
    requires Div(R0, Mul(x, y)).Num? && x.Num? && y.Num?
    ensures R0.Num? && Div(R0, Mul(x, y)).v * (x.v * y.v) == R0.v
  {
    MulFinite(x, y);
    DivFinite(R0, Mul(x, y));
  }

  /** With exactly three members of the group provided and p = 0 among them,
      mu is 1. */
  lemma ZeroPGivesUnitMu(pars: ModelPars, num: Numerics)
    requires R0Presence(pars) == 3 && pars.p == Num(0.0)
    requires R0GroupSolution(pars, num).0 == 0
    ensures R0GroupSolution(pars, num).1.mu == Num(1.0)
  {
  }

  /** When p is missing it is solved for: the root finder is consulted only
      when mu > 1, and otherwise p is set to 0. */
  lemma MissingPSolved(pars: ModelPars, num: Numerics)
    requires pars.p.NaN? && R0GroupCheck(pars) == 0
    ensures var r := R0GroupSolution(pars, num).1;
            if Gt(r.mu, Num(1.0)) then r.p == num.solveP(r.mu).x && R0GroupSolution(pars, num).0 == num.solveP(r.mu).ret
            else r.p == Num(0.0) && R0GroupSolution(pars, num).0 == 0
  {
  }

  /** The defaults alone never pass validation: none of tbar, lambda, p, mu, R0 is provided. */
  lemma DefaultsAreIncomplete(pars: ModelPars, num: Numerics)
    requires OthersUnset(pars)
    ensures ParsSolution(pars, num).0 == -1
  {
  }

  /** The optional groups are skipped with the default q = 0 and pit = 0 and
      no latent-period shape: once the main groups pass, the solver succeeds. */
  lemma DefaultsSkipOptionalGroups(pars: ModelPars, num: Numerics)
    requires pars.q == Num(0.0) && pars.pit == Num(0.0)
    requires pars.kappal.NaN? && pars.l95.NaN?
    requires R0Presence(pars) == 3 && R0GroupSolution(pars, num).0 == 0
    requires var r := R0GroupSolution(pars, num).1;
             ExactlyOneOf(r.kappa, r.t95) && GammaGroupSolution(r.tbar, r.kappa, r.t95, num).0 == 0
    ensures ParsSolution(pars, num).0 == 0
  {
  }

  /** With q > 0 and the alternate group solved: a missing pim takes pit; a
      positive pim with none of imbar, kappaim, im95 copies the interrupted-main
      values; otherwise a missing imbar takes itbar and exactly one of
      kappaim and im95 is required. */
  lemma InterruptedAltDefaults(pars: ModelPars, num: Numerics)
    ensures var r := InterruptedAltSolution(pars, num).1;
            var pim := if pars.pim.NaN? then pars.pit else pars.pim;
            && r.pim == pim
            && (Gt(pim, Num(0.0)) && pars.imbar.NaN? && pars.kappaim.NaN? && pars.im95.NaN? ==>
                  InterruptedAltSolution(pars, num).0 == 0
                  && r.imbar == pars.itbar && r.kappaim == pars.kappait && r.im95 == pars.it95)
            && (Gt(pim, Num(0.0)) && !(pars.imbar.NaN? && pars.kappaim.NaN? && pars.im95.NaN?) ==>
                  r.imbar == (if pars.imbar.NaN? then pars.itbar else pars.imbar)
                  && (InterruptedAltSolution(pars, num).0 == -9 <==> !ExactlyOneOf(pars.kappaim, pars.im95)))
  {
  }
}
