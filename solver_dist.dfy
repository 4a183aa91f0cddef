/** The uniform-distribution helpers of `aamodel/solver.py` (class
    `uniform_dist`) and the per-cell formulas of `mdp_solver.init_R_S`.

    Three of these helpers differ from what their own comments and their
    reachable-but-dead code evidently intend. Each one appears twice: once as
    written (`...AsWritten`), with a lemma that exhibits the discrepancy on a
    concrete input, and once corrected, with the intended property proved.
    The decision process in `MdpSolver` uses the corrected forms. */
module SolverDist {
  import opened Common
  import UniformDistribution

  /** Number of steps into which the action interval [0, 1] is cut. */
  const DISCRETIZATION: nat := 100

  // ---------------------------------------------------------------------
  // get_theta_1
  // ---------------------------------------------------------------------

  /** The privileged threshold that spends the budget `alpha` exactly, given
      the unprivileged threshold `theta0`; when nobody is privileged any
      longer the source picks the midpoint of the privileged range. */
  function GetTheta1(theta0: real, phi0: real, sigma: real, tau: real, alpha: real): (r: real)
    ensures phi0 != 1.0 ==> r == UniformDistribution.Theta1FromTheta0(theta0, phi0, sigma, tau, alpha)
    ensures phi0 != 1.0 && sigma != 0.0 ==>
      UniformDistribution.UnprivShare(theta0, phi0, sigma) + UniformDistribution.PrivShare(r, phi0, sigma, tau) == alpha
    ensures phi0 == 1.0 ==> r == tau + sigma / 2.0
    ensures phi0 == 1.0 && 0.0 <= sigma ==> tau <= r <= tau + sigma
  {
    if phi0 == 1.0 then tau + sigma / 2.0
    else (sigma * (1.0 - alpha) + (1.0 - phi0) * tau - phi0 * theta0) / (1.0 - phi0)
  }

  // ---------------------------------------------------------------------
  // expected_priv_payoff
  // ---------------------------------------------------------------------

  /** `expected_priv_payoff` as written: below `tau` it returns the mean of
      [0, tau + sigma] rather than the mean of the privileged range
      [tau, tau + sigma]. */
  function ExpectedPrivPayoffAsWritten(theta1: real, phi0: real, sigma: real, tau: real): (r: Result<real>)
    ensures r.Err? <==> tau <= theta1 && theta1 - tau <= sigma && sigma == 0.0
    ensures r.Err? ==> r.error == ZeroDivision
    ensures theta1 < tau ==> r == Ok((1.0 - phi0) * (tau + sigma) / 2.0)
    ensures tau <= theta1 ==> r == ExpectedPrivPayoff(theta1, phi0, sigma, tau)
  {
    if theta1 < tau then Ok((1.0 - phi0) * (tau + sigma) / 2.0)
    else if theta1 - tau > sigma then Ok(0.0)
    else if sigma == 0.0 then Err(ZeroDivision)
    else Ok(((1.0 - phi0) / (2.0 * sigma)) * ((sigma + tau) * (sigma + tau) - theta1 * theta1))
  }

  /** As written, lowering the privileged threshold from `tau` to below `tau`
      (which serves no additional privileged agent) lowers the payoff from
      0.75 to 0.5 when phi0 = 0, sigma = tau = 0.5. */
  lemma PrivPayoffAsWrittenDropsBelowTau()
    ensures ExpectedPrivPayoffAsWritten(0.25, 0.0, 0.5, 0.5) == Ok(0.5)
    ensures ExpectedPrivPayoffAsWritten(0.5, 0.0, 0.5, 0.5) == Ok(0.75)
  {
  }

  /** Bound of the quadratic branch: between `tau` and `tau + sigma` the
      privileged payoff lies between 0 and the payoff with everyone served. */
  lemma QuadraticBranchBounds(theta1: real, phi0: real, sigma: real, tau: real)
    requires phi0 <= 1.0 && 0.0 < sigma && 0.0 <= tau <= theta1 <= tau + sigma
    ensures 0.0 <= ((1.0 - phi0) / (2.0 * sigma)) * ((sigma + tau) * (sigma + tau) - theta1 * theta1)
                <= (1.0 - phi0) * (tau + sigma / 2.0)
  {
    var c := (1.0 - phi0) / (2.0 * sigma);
    var top := sigma + tau;
    assert 0.0 <= c;
    assert theta1 * theta1 <= top * top by { SquareMono(theta1, top); }
    assert tau * tau <= theta1 * theta1 by { SquareMono(tau, theta1); }
    var d := top * top - theta1 * theta1;
    assert 0.0 <= d <= top * top - tau * tau;
    assert 0.0 <= c * d by { MulNonneg(c, d); }
    assert c * d <= c * (top * top - tau * tau) by { MulLeft(d, top * top - tau * tau, c); }
    assert top * top - tau * tau == sigma * (sigma + 2.0 * tau);
    assert c * (sigma * (sigma + 2.0 * tau)) == (1.0 - phi0) * (tau + sigma / 2.0) by {
      assert c * sigma == (1.0 - phi0) / 2.0 by { DivCancel(1.0 - phi0, 2.0 * sigma); }
    }
  }

  /** The payoff of serving every privileged agent is not negative. */
  lemma FullPrivPayoffNonneg(phi0: real, sigma: real, tau: real)
    ensures 0.0 <= sigma && 0.0 <= tau && phi0 <= 1.0 ==> 0.0 <= (1.0 - phi0) * (tau + sigma / 2.0)
  {
    if 0.0 <= sigma && 0.0 <= tau && phi0 <= 1.0 {
      MulNonneg(1.0 - phi0, tau + sigma / 2.0);
    }
  }

  /** `expected_priv_payoff` with the first branch returning the payoff of
      serving every privileged agent, which is where the quadratic branch
      arrives at `theta1 == tau`. */
  function ExpectedPrivPayoff(theta1: real, phi0: real, sigma: real, tau: real): (r: Result<real>)
    ensures r.Err? <==> tau <= theta1 && theta1 - tau <= sigma && sigma == 0.0
    ensures r.Err? ==> r.error == ZeroDivision
    ensures r.Ok? && phi0 <= 1.0 && 0.0 <= sigma && 0.0 <= tau ==>
      0.0 <= r.value <= (1.0 - phi0) * (tau + sigma / 2.0)
    ensures theta1 < tau ==> r == Ok((1.0 - phi0) * (tau + sigma / 2.0))
    ensures tau <= theta1 && tau + sigma < theta1 ==> r == Ok(0.0)
  {
    if theta1 < tau then
      FullPrivPayoffNonneg(phi0, sigma, tau);
      Ok((1.0 - phi0) * (tau + sigma / 2.0))
    else if theta1 - tau > sigma then
      FullPrivPayoffNonneg(phi0, sigma, tau);
      Ok(0.0)
    else if sigma == 0.0 then Err(ZeroDivision)
    else
      assert phi0 <= 1.0 && 0.0 <= tau ==>
        0.0 <= ((1.0 - phi0) / (2.0 * sigma)) * ((sigma + tau) * (sigma + tau) - theta1 * theta1)
            <= (1.0 - phi0) * (tau + sigma / 2.0) by {
        if phi0 <= 1.0 && 0.0 <= tau && 0.0 < sigma { QuadraticBranchBounds(theta1, phi0, sigma, tau); }
      }
      Ok(((1.0 - phi0) / (2.0 * sigma)) * ((sigma + tau) * (sigma + tau) - theta1 * theta1))
  }

  /** The corrected privileged payoff never grows when the threshold is
      raised: a higher bar serves a subset of the agents. */
  lemma PrivPayoffMonotone(t: real, u: real, phi0: real, sigma: real, tau: real)
    requires t <= u && phi0 <= 1.0 && 0.0 < sigma && 0.0 <= tau
    ensures ExpectedPrivPayoff(t, phi0, sigma, tau).Ok? && ExpectedPrivPayoff(u, phi0, sigma, tau).Ok?
    ensures ExpectedPrivPayoff(u, phi0, sigma, tau).value <= ExpectedPrivPayoff(t, phi0, sigma, tau).value
  {
    var c := (1.0 - phi0) / (2.0 * sigma);
    assert 0.0 <= c;
    if u - tau > sigma {
    } else if u < tau {
    } else if t < tau {
      // `u` is in the quadratic branch, `t` at the top value
    } else {
      assert t * t <= u * u by { SquareMono(t, u); }
      var top := (sigma + tau) * (sigma + tau);
      assert c * (top - u * u) <= c * (top - t * t) by { MulLeft(top - u * u, top - t * t, c); }
    }
  }

  /** Where the threshold lies in the privileged range, this helper agrees
      with the closed form of `uniform_distribution.py`. */
  lemma PrivPayoffAgreesWithUniform(theta0: real, phi0: real, sigma: real, tau: real, alpha: real)
    requires phi0 != 1.0 && sigma != 0.0
    requires tau <= GetTheta1(theta0, phi0, sigma, tau, alpha) <= tau + sigma
    ensures ExpectedPrivPayoff(GetTheta1(theta0, phi0, sigma, tau, alpha), phi0, sigma, tau)
         == Ok(UniformDistribution.PrivPayoff(theta0, phi0, sigma, tau, alpha))
  {
  }

  // ---------------------------------------------------------------------
  // expected_unpriv_payoff
  // ---------------------------------------------------------------------

  /** Payoff from the unprivileged group for threshold `theta0` (the unused
      `tau` parameter of the source is dropped). */
  function ExpectedUnprivPayoff(theta0: real, phi0: real, sigma: real): (r: Result<real>)
    ensures r.Err? <==> theta0 <= sigma && sigma == 0.0
    ensures r.Err? ==> r.error == ZeroDivision
    ensures sigma < theta0 ==> r == Ok(0.0)
    ensures theta0 <= sigma && sigma != 0.0 ==> r == Ok(UniformDistribution.UnprivPayoff(theta0, phi0, sigma))
    ensures r.Ok? && 0.0 <= phi0 && 0.0 <= theta0 && sigma <= 1.0 ==> 0.0 <= r.value <= phi0
  {
    if theta0 > sigma then Ok(0.0)
    else if sigma == 0.0 then Err(ZeroDivision)
    else
      assert 0.0 <= phi0 && 0.0 <= theta0 && sigma <= 1.0 ==>
        0.0 <= UniformDistribution.UnprivPayoff(theta0, phi0, sigma) <= phi0 by {
        if 0.0 <= phi0 && 0.0 <= theta0 && sigma <= 1.0 {
          UniformDistribution.UnprivPayoffBelowShare(theta0, phi0, sigma);
        }
      }
      Ok((phi0 / (2.0 * sigma)) * (sigma * sigma - theta0 * theta0))
  }

  // ---------------------------------------------------------------------
  // expected_payoff
  // ---------------------------------------------------------------------

  /** `expected_payoff` up to its first unconditional return: the
      privileged term is added to, not multiplied by, its factor, and the
      all-unprivileged branch does not cap `theta0` at `sigma`. */
  function ExpectedPayoffAsWritten(theta0: real, N: nat, nUnpriv: nat, sigma: real, tau: real, alpha: real): (r: Result<real>)
    ensures r.Err? <==> N == 0 || sigma == 0.0
    ensures r.Err? ==> r.error == ZeroDivision
  {
    if N == 0 then Err(ZeroDivision)
    else
      var phi0 := nUnpriv as real / N as real;
      var theta1 := GetTheta1(theta0, phi0, sigma, tau, alpha);
      if sigma == 0.0 then Err(ZeroDivision)
      else if phi0 == 1.0 then Ok((1.0 / (2.0 * sigma)) * (sigma * sigma - theta0 * theta0))
      else Ok((phi0 / (2.0 * sigma)) * (sigma * sigma - theta0 * theta0)
              + ((1.0 - phi0) / (2.0 * sigma))
              + ((sigma + tau) * (sigma + tau) - theta1 * theta1))
  }

  /** As written, the expected payoff (a fraction of the population) can be
      above 1 (everyone privileged, sigma = 1, tau = 0, alpha = 0.5,
      theta0 = 0) and below 0 (everyone unprivileged, theta0 = 1 above
      sigma = 0.5). */
  lemma ExpectedPayoffAsWrittenOutOfRange()
    ensures ExpectedPayoffAsWritten(0.0, 1, 0, 1.0, 0.0, 0.5) == Ok(1.25)
    ensures ExpectedPayoffAsWritten(1.0, 1, 1, 0.5, 0.0, 0.5) == Ok(-0.75)
  {
    assert GetTheta1(0.0, 0.0, 1.0, 0.0, 0.5) == 0.5;
  }

  /** `expected_payoff` as its guarded tail computes it: the sum of the two
      group payoffs, after checking that each and their sum is a fraction. */
  function ExpectedPayoff(theta0: real, N: nat, nUnpriv: nat, sigma: real, tau: real, alpha: real): (r: Result<real>)
    ensures r.Ok? ==> 0.0 <= r.value <= 1.0
    ensures N == 0 ==> r == Err(ZeroDivision)
    ensures N != 0 && sigma == 0.0 && theta0 <= 0.0 ==> r == Err(ZeroDivision)
  {
    if N == 0 then Err(ZeroDivision)
    else
      var phi0 := nUnpriv as real / N as real;
      var theta1 := GetTheta1(theta0, phi0, sigma, tau, alpha);
      SumOfFractions(ExpectedPrivPayoff(theta1, phi0, sigma, tau), ExpectedUnprivPayoff(theta0, phi0, sigma))
  }

  /** The three assertions and the sum at the end of `expected_payoff`; an
      error raised while computing either term propagates. */
  function SumOfFractions(pr: Result<real>, un: Result<real>): (r: Result<real>)
    ensures r.Ok? <==> pr.Ok? && un.Ok? && 0.0 <= pr.value <= 1.0 && 0.0 <= un.value <= 1.0 && pr.value + un.value <= 1.0
    ensures r.Ok? ==> r.value == pr.value + un.value && 0.0 <= r.value <= 1.0
  {
    if pr.Err? then Err(pr.error)
    else if un.Err? then Err(un.error)
    else if !(0.0 <= pr.value <= 1.0 && 0.0 <= un.value <= 1.0 && 0.0 <= pr.value + un.value <= 1.0) then
      Err(AssertionFailed)
    else Ok(pr.value + un.value)
  }

  /** For a positive population, a proper `sigma` and `tau`, and a
      nonnegative threshold, none of the three assertions in
      `expected_payoff` fails and the payoff is the sum of the group
      payoffs. */
  lemma ExpectedPayoffWithinUnit(theta0: real, N: nat, nUnpriv: nat, sigma: real, tau: real, alpha: real)
    requires 1 <= N && nUnpriv <= N
    requires 0.0 < sigma && 0.0 <= tau && sigma + tau <= 1.0 && 0.0 <= theta0
    ensures ExpectedPayoff(theta0, N, nUnpriv, sigma, tau, alpha).Ok?
    ensures var phi0 := nUnpriv as real / N as real;
      ExpectedPayoff(theta0, N, nUnpriv, sigma, tau, alpha).value
      == ExpectedPrivPayoff(GetTheta1(theta0, phi0, sigma, tau, alpha), phi0, sigma, tau).value
         + ExpectedUnprivPayoff(theta0, phi0, sigma).value
  {
    var phi0 := nUnpriv as real / N as real;
    FractionUnit(nUnpriv, N);
    SumWithinUnit(theta0, GetTheta1(theta0, phi0, sigma, tau, alpha), phi0, sigma, tau);
  }

  lemma SumWithinUnit(theta0: real, theta1: real, phi0: real, sigma: real, tau: real)
    requires Unit(phi0) && 0.0 < sigma && 0.0 <= tau && sigma + tau <= 1.0 && 0.0 <= theta0
    ensures var pr := ExpectedPrivPayoff(theta1, phi0, sigma, tau);
      var un := ExpectedUnprivPayoff(theta0, phi0, sigma);
      pr.Ok? && un.Ok? && SumOfFractions(pr, un) == Ok(pr.value + un.value)
  {
    AllServedBelowShare(phi0, sigma, tau);
    FractionsAdd(ExpectedPrivPayoff(theta1, phi0, sigma, tau), ExpectedUnprivPayoff(theta0, phi0, sigma),
                 (1.0 - phi0) * (tau + sigma / 2.0), phi0);
  }

  /** Serving every privileged agent pays at most the privileged share. */
  lemma AllServedBelowShare(phi0: real, sigma: real, tau: real)
    requires Unit(phi0) && 0.0 < sigma && 0.0 <= tau && sigma + tau <= 1.0
    ensures (1.0 - phi0) * (tau + sigma / 2.0) <= 1.0 - phi0
  {
    ScaledBelow(1.0 - phi0, tau + sigma / 2.0);
  }

  lemma FractionsAdd(pr: Result<real>, un: Result<real>, top: real, phi0: real)
    requires pr.Ok? && 0.0 <= pr.value <= top <= 1.0 - phi0
    requires un.Ok? && 0.0 <= un.value <= phi0
    ensures SumOfFractions(pr, un) == Ok(pr.value + un.value)
  {
  }

  // ---------------------------------------------------------------------
  // action_bounds
  // ---------------------------------------------------------------------

  /** The interval of unprivileged thresholds the solver may choose; the
      assertion that the interval is not empty becomes an error result. */
  function ActionBounds(phi0: real, sigma: real, alpha: real): (r: Result<UniformDistribution.Interval>)
    ensures r.Ok? ==> 0.0 <= r.value.lower <= r.value.upper <= 1.0
    ensures r.Err? ==> r.error == AssertionFailed
    ensures phi0 == 0.0 ==> r == Ok(UniformDistribution.Interval(0.0, 1.0))
  {
    if phi0 == 0.0 then Ok(UniformDistribution.Interval(0.0, 1.0))
    else
      var lower := Max(sigma * (1.0 - alpha / phi0), 0.0);
      var upper := Min(sigma * (1.0 - alpha) / phi0, 1.0);
      if lower <= upper then Ok(UniformDistribution.Interval(lower, upper))
      else Err(AssertionFailed)
  }

  /** The assertion in `action_bounds` holds for every fraction `phi0`, every
      `sigma` in [0, 1] and every budget `alpha` in [0, 1]; the interval it
      returns contains the allowed interval of `uniform_distribution.py`
      (same lower end, upper end capped at 1 rather than at `sigma`). */
  lemma ActionBoundsContainAllowed(phi0: real, sigma: real, alpha: real)
    requires Unit(phi0) && Unit(sigma) && Unit(alpha)
    ensures ActionBounds(phi0, sigma, alpha).Ok?
    ensures ActionBounds(phi0, sigma, alpha).value.lower == UniformDistribution.AllowedActions(phi0, sigma, alpha).lower
    ensures UniformDistribution.AllowedActions(phi0, sigma, alpha).upper <= ActionBounds(phi0, sigma, alpha).value.upper
  {
    if phi0 != 0.0 {
      var l := sigma * (1.0 - alpha / phi0);
      var u := sigma * (1.0 - alpha) / phi0;
      ActionBoundsWithin(phi0, sigma, alpha, l, u);
      UniformDistribution.UncappedBoundsOrdered(phi0, sigma, alpha);
    }
  }

  /** For `phi0 != 0` the bounds are the uncapped ones `l` and `u`, capped. */
  lemma ActionBoundsWithin(phi0: real, sigma: real, alpha: real, l: real, u: real)
    requires phi0 != 0.0 && l == sigma * (1.0 - alpha / phi0) && u == sigma * (1.0 - alpha) / phi0
    ensures Max(l, 0.0) <= Min(u, 1.0) ==> ActionBounds(phi0, sigma, alpha) == Ok(UniformDistribution.Interval(Max(l, 0.0), Min(u, 1.0)))
  {
  }

  /** The discretised action range `range(lower_action, upper_action)` of
      `mdp_solver.run` for the state with unprivileged fraction `phi0`. */
  function ActionRange(phi0: real, sigma: real, alpha: real): (r: (int, int))
    requires Unit(phi0) && Unit(sigma) && Unit(alpha)
    ensures 0 <= r.0 <= r.1 <= DISCRETIZATION
  {
    ActionBoundsContainAllowed(phi0, sigma, alpha);
    var b := ActionBounds(phi0, sigma, alpha).value;
    assert b.lower * DISCRETIZATION as real <= b.upper * DISCRETIZATION as real;
    (Trunc(b.lower * DISCRETIZATION as real), Trunc(b.upper * DISCRETIZATION as real))
  }

  // ---------------------------------------------------------------------
  // init_R_S: transition of one table cell
  // ---------------------------------------------------------------------

  /** Unprivileged fraction that is left once the unprivileged agents above
      `theta0` have been served (`phi_0_post` of `init_R_S`). */
  function Phi0PostDraft(theta0: real, phi0: real, sigma: real): (r: real)
    requires sigma != 0.0
    ensures theta0 <= sigma ==> Ok(r) == UniformDistribution.Phi0Post(theta0, phi0, sigma)
    ensures 0.0 <= theta0 && 0.0 <= phi0 && sigma <= 1.0 ==> 0.0 <= r <= phi0
  {
    if theta0 > sigma then phi0
    else phi0 - (phi0 / (2.0 * sigma)) * (sigma * sigma - theta0 * theta0)
  }

  /** Unprivileged fraction of the next generation when a fraction `x` is
      unprivileged: children of unprivileged parents stay so unless they
      ascend: with chance `1 - pD` a child inherits its parent's class, and
      with chance `pD` (`pA` for a privileged parent) its class is redrawn
      as that of a random member of the population. */
  function Mobility(x: real, pA: real, pD: real): (r: real)
    ensures Unit(x) && Unit(pA) && Unit(pD) ==> Unit(r)
    ensures pA == 0.0 && pD == 0.0 ==> r == x
  {
    assert Unit(x) && Unit(pA) && Unit(pD) ==> Unit(x * (1.0 - pD) + (x * x) * pD + (1.0 - x) * pA * x) by {
      if Unit(x) && Unit(pA) && Unit(pD) { MobilityBounds(x, pA, pD); }
    }
    x * (1.0 - pD) + (x * x) * pD + (1.0 - x) * pA * x
  }

  lemma MobilityBounds(x: real, pA: real, pD: real)
    requires Unit(x) && Unit(pA) && Unit(pD)
    ensures Unit(x * (1.0 - pD) + (x * x) * pD + (1.0 - x) * pA * x)
  {
    MobilityNonneg(x, pA, pD);
    MobilityAtMostOne(x, pA, pD);
  }

  lemma MobilityNonneg(x: real, pA: real, pD: real)
    requires Unit(x) && Unit(pA) && Unit(pD)
    ensures 0.0 <= x * (1.0 - pD) + (x * x) * pD + (1.0 - x) * pA * x
  {
    MulNonneg(x, 1.0 - pD);
    MulNonneg(x, x);
    MulNonneg(x * x, pD);
    MulNonneg(1.0 - x, pA);
    MulNonneg((1.0 - x) * pA, x);
  }

  /** The distance to 1 factors into nonnegative products. */
  lemma MobilityAtMostOne(x: real, pA: real, pD: real)
    requires Unit(x) && Unit(pA) && Unit(pD)
    ensures x * (1.0 - pD) + (x * x) * pD + (1.0 - x) * pA * x <= 1.0
  {
    ScaledBelow(pA, x);
    MulNonneg(1.0 - x, 1.0 - x * pA);
    MulNonneg(1.0 - x, x);
    MulNonneg((1.0 - x) * x, pD);
    assert 1.0 - (x * (1.0 - pD) + (x * x) * pD + (1.0 - x) * pA * x)
        == (1.0 - x) * (1.0 - x * pA) + ((1.0 - x) * x) * pD;
  }

  /** `self.S[s, a]` as written: the post-opportunity fraction itself, not a
      state index, computed even when `theta0` is above `sigma`. */
  function NextStateAsWritten(s: nat, a: nat, N: nat, sigma: real): (r: int)
    requires 1 <= N && sigma != 0.0
    ensures 0.0 < sigma <= 1.0 && a as real / DISCRETIZATION as real <= sigma && s <= N ==> 0 <= r <= 1
  {
    var phi0 := s as real / N as real;
    var theta0 := a as real / DISCRETIZATION as real;
    var post := phi0 - (phi0 / (2.0 * sigma)) * (sigma * sigma - theta0 * theta0);
    assert 0.0 < sigma <= 1.0 && theta0 <= sigma && s <= N ==> Unit(post) by {
      if 0.0 < sigma <= 1.0 && theta0 <= sigma && s <= N {
        FractionUnit(s, N);
        PostFormulaUnit(theta0, phi0, sigma, post);
      }
    }
    Trunc(post)
  }

  /** The post-opportunity formula as a value: a fraction whenever the
      threshold is served. */
  lemma PostFormulaUnit(theta0: real, phi0: real, sigma: real, post: real)
    requires 0.0 < sigma <= 1.0 && 0.0 <= theta0 <= sigma && Unit(phi0)
    requires post == phi0 - (phi0 / (2.0 * sigma)) * (sigma * sigma - theta0 * theta0)
    ensures Unit(post)
  {
    assert post == Phi0PostDraft(theta0, phi0, sigma);
  }

  /** As written, a population that is entirely unprivileged, offered no
      opportunity (theta0 = sigma = 0.5) and with no mobility, is sent to
      state 1 instead of staying in state N = 10. */
  lemma NextStateAsWrittenLosesState()
    ensures NextStateAsWritten(10, 50, 10, 0.5) == 1
    ensures NextState(10, 50, 10, 0.5, 0.0, 0.0) == 10
  {
    assert Phi0PostDraft(0.5, 1.0, 0.5) == 1.0;
    assert Mobility(1.0, 0.0, 0.0) == 1.0;
  }

  /** The commented-out formula of `init_R_S`: the number of unprivileged
      agents in the next generation. */
  function NextState(s: nat, a: nat, N: nat, sigma: real, pA: real, pD: real): (r: int)
    requires 1 <= N && sigma != 0.0
    ensures s <= N && 0.0 < sigma <= 1.0 && Unit(pA) && Unit(pD) ==> 0 <= r <= N
    ensures pA == 0.0 && pD == 0.0 && sigma < a as real / DISCRETIZATION as real ==> r == s
  {
    var phi0 := s as real / N as real;
    var theta0 := a as real / DISCRETIZATION as real;
    var n := Mobility(Phi0PostDraft(theta0, phi0, sigma), pA, pD) * N as real;
    assert s <= N && 0.0 < sigma <= 1.0 && Unit(pA) && Unit(pD) ==> 0 <= Trunc(n) <= N by {
      if s <= N && 0.0 < sigma <= 1.0 && Unit(pA) && Unit(pD) {
        CellCountRange(s, a, N, sigma, pA, pD, phi0, theta0, n);
        TruncWithin(n, N);
      }
    }
    assert pA == 0.0 && pD == 0.0 && sigma < theta0 ==> Trunc(n) == s by {
      if pA == 0.0 && pD == 0.0 && sigma < theta0 {
        CellCountStill(s, a, N, sigma, phi0, theta0, n);
        TruncWhole(n, s);
      }
    }
    Trunc(n)
  }

  /** The count `n = Mobility(post) * N` of `NextState`, before it is
      truncated, lies within the population. */
  lemma CellCountRange(s: nat, a: nat, N: nat, sigma: real, pA: real, pD: real, phi0: real, theta0: real, n: real)
    requires 1 <= N && s <= N && 0.0 < sigma <= 1.0 && Unit(pA) && Unit(pD)
    requires phi0 == s as real / N as real && theta0 == a as real / DISCRETIZATION as real
    requires n == Mobility(Phi0PostDraft(theta0, phi0, sigma), pA, pD) * N as real
    ensures 0.0 <= n <= N as real
  {
    FractionUnit(s, N);
    CellWithinPopulation(theta0, phi0, sigma, pA, pD, N as real);
  }

  /** Without movement and with a threshold nobody meets, the count of
      `NextState` is the current one. */
  lemma CellCountStill(s: nat, a: nat, N: nat, sigma: real, phi0: real, theta0: real, n: real)
    requires 1 <= N && sigma != 0.0 && sigma < theta0
    requires phi0 == s as real / N as real && theta0 == a as real / DISCRETIZATION as real
    requires n == Mobility(Phi0PostDraft(theta0, phi0, sigma), 0.0, 0.0) * N as real
    ensures n == s as real
  {
    assert Phi0PostDraft(theta0, phi0, sigma) == phi0;
    assert Mobility(phi0, 0.0, 0.0) == phi0;
    DivCancel(s as real, N as real);
  }

  lemma CellWithinPopulation(theta0: real, phi0: real, sigma: real, pA: real, pD: real, n: real)
    requires Unit(phi0) && 0.0 <= theta0 && 0.0 < sigma <= 1.0 && Unit(pA) && Unit(pD) && 0.0 <= n
    ensures 0.0 <= Mobility(Phi0PostDraft(theta0, phi0, sigma), pA, pD) * n <= n
  {
    var post := Phi0PostDraft(theta0, phi0, sigma);
    assert Unit(post);
    ScaledBelow(n, Mobility(post, pA, pD));
  }

  /** As written, every action that serves somebody (theta0 <= sigma) maps
      every state to 0 or 1, so the table forgets the population. */
  lemma NextStateAsWrittenIsBoolean(s: nat, a: nat, N: nat, sigma: real)
    requires 1 <= N && s <= N && 0.0 < sigma <= 1.0
    requires a as real / DISCRETIZATION as real <= sigma
    ensures NextStateAsWritten(s, a, N, sigma) == 0 || NextStateAsWritten(s, a, N, sigma) == 1
  {
  }
}
