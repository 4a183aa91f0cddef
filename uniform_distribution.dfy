/** Closed-form allocation arithmetic for abilities drawn from Uniform[0,1]
    (aamodel/uniform_distribution.py). An individual's success probability is
    `a * sigma` when unprivileged and `a * sigma + tau` when privileged; an
    opportunity goes to every unprivileged individual at or above `theta0`
    and to every privileged one at or above `theta1`. The class keeps no
    state, so every method is a function here; the batched numpy forms are
    the scalar functions mapped over a sequence of thresholds. */
module UniformDistribution {
  import opened Common

  datatype Interval = Interval(lower: real, upper: real)

  /** The documented parameter domain of the class, with `sigma > 0` so that
      the payoff formulas can divide by it. */
  predicate ValidParams(phi0: real, sigma: real, tau: real, alpha: real)
  {
    Unit(phi0) && 0.0 < sigma <= 1.0 && 0.0 <= tau && sigma + tau <= 1.0 && Unit(alpha)
  }

  // ---- allowed_actions ----

  /** `allowed_actions`: the unprivileged thresholds that keep the allocation
      within the budget `alpha`; the source asserts the result is ordered
      inside `[0, sigma]`. */
  function AllowedActions(phi0: real, sigma: real, alpha: real): (r: Interval)
    requires Unit(phi0) && Unit(sigma) && Unit(alpha)
    ensures 0.0 <= r.lower <= r.upper <= sigma
  {
    if phi0 == 0.0 then Interval(0.0, sigma)
    else
      UncappedBoundsOrdered(phi0, sigma, alpha);
      Interval(Max(sigma * (1.0 - alpha / phi0), 0.0), Min(sigma * (1.0 - alpha) / phi0, sigma))
  }

  /** The uncapped bounds of `allowed_actions` are ordered, the lower one never
      exceeds `sigma` and the upper one is never negative. */
  lemma UncappedBoundsOrdered(phi0: real, sigma: real, alpha: real)
    requires 0.0 < phi0 <= 1.0 && 0.0 <= sigma && Unit(alpha)
    ensures sigma * (1.0 - alpha / phi0) <= sigma * (1.0 - alpha) / phi0
    ensures sigma * (1.0 - alpha / phi0) <= sigma
    ensures 0.0 <= sigma * (1.0 - alpha) / phi0
  {
    var k := alpha / phi0;
    var l := sigma * (1.0 - k);
    var num := sigma * (1.0 - alpha);
    assert 0.0 <= k by { DivMono(0.0, alpha, phi0); }
    assert l <= sigma by { MulLeft(1.0 - k, 1.0, sigma); }
    assert 0.0 <= num by { MulNonneg(sigma, 1.0 - alpha); }
    assert 0.0 <= num / phi0 by { DivMono(0.0, num, phi0); }
    assert l <= num / phi0 by { LowerTimesPhi0(phi0, sigma, alpha); }
  }

  lemma LowerTimesPhi0(phi0: real, sigma: real, alpha: real)
    requires 0.0 < phi0 <= 1.0 && 0.0 <= sigma
    ensures sigma * (1.0 - alpha / phi0) <= sigma * (1.0 - alpha) / phi0
  {
    var k := alpha / phi0;
    var l := sigma * (1.0 - k);
    var num := sigma * (1.0 - alpha);
    assert phi0 * k == alpha by { DivCancel(alpha, phi0); }
    assert phi0 * l == phi0 * sigma - sigma * (phi0 * k);
    assert phi0 * sigma <= sigma by { MulLeft(phi0, 1.0, sigma); }
    assert phi0 * l <= num;
    assert (phi0 * l) / phi0 <= num / phi0 by { DivMono(phi0 * l, num, phi0); }
    assert (phi0 * l) / phi0 == l by { DivCancel(l, phi0); }
  }

  /** With no unprivileged population every threshold is allowed. */
  lemma AllowedActionsAtNoUnprivileged(sigma: real, alpha: real)
    requires Unit(sigma) && Unit(alpha)
    ensures AllowedActions(0.0, sigma, alpha) == Interval(0.0, sigma)
  {
  }

  /** Multiplying the allowed interval by `phi0`. */
  lemma AllowedProducts(theta0: real, phi0: real, sigma: real, alpha: real)
    requires 0.0 < phi0 <= 1.0 && Unit(sigma) && Unit(alpha)
    requires AllowedActions(phi0, sigma, alpha).lower <= theta0 <= AllowedActions(phi0, sigma, alpha).upper
    ensures phi0 * sigma - sigma * alpha <= phi0 * theta0 <= sigma * (1.0 - alpha)
  {
    var l := sigma * (1.0 - alpha / phi0);
    var u := sigma * (1.0 - alpha) / phi0;
    assert l <= theta0 <= u;
    UpperProduct(theta0, phi0, sigma, alpha, u);
    LowerProduct(theta0, phi0, sigma, alpha, l);
  }

  lemma UpperProduct(theta0: real, phi0: real, sigma: real, alpha: real, u: real)
    requires 0.0 < phi0 && u == sigma * (1.0 - alpha) / phi0 && theta0 <= u
    ensures phi0 * theta0 <= sigma * (1.0 - alpha)
  {
    MulLeft(theta0, u, phi0);
    DivCancel(sigma * (1.0 - alpha), phi0);
  }

  lemma LowerProduct(theta0: real, phi0: real, sigma: real, alpha: real, l: real)
    requires 0.0 < phi0 && l == sigma * (1.0 - alpha / phi0) && l <= theta0
    ensures phi0 * sigma - sigma * alpha <= phi0 * theta0
  {
    MulLeft(l, theta0, phi0);
    DivCancel(alpha, phi0);
    assert phi0 * l == phi0 * sigma - sigma * (phi0 * (alpha / phi0));
  }

  // ---- theta_1_from_theta_0 ----

  /** Share of the whole population that is unprivileged and receives an
      opportunity at threshold `theta0 <= sigma`. */
  function UnprivShare(theta0: real, phi0: real, sigma: real): real
    requires sigma != 0.0
  {
    phi0 * (sigma - theta0) / sigma
  }

  /** Share of the whole population that is privileged and receives an
      opportunity at threshold `theta1` in `[tau, tau + sigma]`. */
  function PrivShare(theta1: real, phi0: real, sigma: real, tau: real): real
    requires sigma != 0.0
  {
    (1.0 - phi0) * (tau + sigma - theta1) / sigma
  }

  /** `theta_1_from_theta_0`: the privileged threshold for which the two
      groups' shares add up to exactly the budget `alpha`. */
  function Theta1FromTheta0(theta0: real, phi0: real, sigma: real, tau: real, alpha: real): (r: real)
    ensures phi0 != 1.0 && sigma != 0.0 ==>
      UnprivShare(theta0, phi0, sigma) + PrivShare(r, phi0, sigma, tau) == alpha
  {
    if phi0 == 1.0 then tau + sigma
    else
      var t1 := (sigma * (1.0 - alpha) + (1.0 - phi0) * tau - phi0 * theta0) / (1.0 - phi0);
      BudgetBalanced(theta0, t1, phi0, sigma, tau, alpha);
      t1
  }

  lemma BudgetBalanced(theta0: real, theta1: real, phi0: real, sigma: real, tau: real, alpha: real)
    requires phi0 != 1.0
    requires theta1 == (sigma * (1.0 - alpha) + (1.0 - phi0) * tau - phi0 * theta0) / (1.0 - phi0)
    ensures sigma != 0.0 ==> UnprivShare(theta0, phi0, sigma) + PrivShare(theta1, phi0, sigma, tau) == alpha
  {
    var q := 1.0 - phi0;
    assert q * theta1 == sigma * (1.0 - alpha) + q * tau - phi0 * theta0;
    assert q * (tau + sigma - theta1) == q * (tau + sigma) - q * theta1;
    assert phi0 * (sigma - theta0) + q * (tau + sigma - theta1) == sigma * alpha;
  }

  /** With no privileged population the privileged threshold is irrelevant and
      fixed at the top of the privileged range, whatever `theta0` is. */
  lemma Theta1AtNoPrivileged(theta0: real, sigma: real, tau: real, alpha: real)
    ensures Theta1FromTheta0(theta0, 1.0, sigma, tau, alpha) == tau + sigma
  {
  }

  /** Every allowed `theta0` yields a `theta1` inside the range of privileged
      success probabilities, so the privileged group can fill its share. */
  lemma Theta1WithinPrivilegedRange(theta0: real, phi0: real, sigma: real, tau: real, alpha: real)
    requires Unit(phi0) && Unit(sigma) && Unit(alpha)
    requires AllowedActions(phi0, sigma, alpha).lower <= theta0 <= AllowedActions(phi0, sigma, alpha).upper
    ensures tau <= Theta1FromTheta0(theta0, phi0, sigma, tau, alpha) <= tau + sigma
  {
    if phi0 == 0.0 {
      Theta1AllUnprivileged(theta0, sigma, tau, alpha);
    } else if phi0 < 1.0 {
      AllowedProducts(theta0, phi0, sigma, alpha);
      Theta1Interior(theta0, phi0, sigma, tau, alpha);
    }
  }

  lemma Theta1AllUnprivileged(theta0: real, sigma: real, tau: real, alpha: real)
    requires Unit(sigma) && Unit(alpha)
    ensures tau <= Theta1FromTheta0(theta0, 0.0, sigma, tau, alpha) <= tau + sigma
  {
    var t1 := Theta1FromTheta0(theta0, 0.0, sigma, tau, alpha);
    var spare := sigma * (1.0 - alpha);
    assert t1 == spare + tau;
    assert 0.0 <= spare <= sigma by { ScaledBelow(sigma, 1.0 - alpha); }
  }

  /** The closed form of `theta1` for `0 < phi0 < 1` lands in
      `[tau, tau + sigma]` once `phi0 * theta0` is within its allowed range. */
  lemma Theta1Interior(theta0: real, phi0: real, sigma: real, tau: real, alpha: real)
    requires 0.0 < phi0 < 1.0
    requires phi0 * sigma - sigma * alpha <= phi0 * theta0 <= sigma * (1.0 - alpha)
    ensures tau <= Theta1FromTheta0(theta0, phi0, sigma, tau, alpha) <= tau + sigma
  {
    var q := 1.0 - phi0;
    var num := sigma * (1.0 - alpha) + q * tau - phi0 * theta0;
    assert q * tau <= num <= q * (tau + sigma);
    QuotientWithin(num, q, tau, tau + sigma);
  }

  /** Dividing by a positive `q` maps `[q * lo, q * hi]` onto `[lo, hi]`. */
  lemma QuotientWithin(num: real, q: real, lo: real, hi: real)
    requires 0.0 < q && q * lo <= num <= q * hi
    ensures lo <= num / q <= hi
  {
    DivMono(q * lo, num, q);
    DivCancel(lo, q);
    DivMono(num, q * hi, q);
    DivCancel(hi, q);
  }

  /** The converse of `Theta1WithinPrivilegedRange` when both groups are
      present: a threshold in `[0, sigma]` below the allowed interval serves
      more than `alpha` of the unprivileged alone, so the balancing `theta1`
      lies above every privileged success probability. */
  lemma Theta1AboveRange(theta0: real, phi0: real, sigma: real, tau: real, alpha: real)
    requires 0.0 < phi0 < 1.0 && 0.0 < sigma <= 1.0 && Unit(alpha) && 0.0 <= theta0
    requires theta0 < AllowedActions(phi0, sigma, alpha).lower
    ensures tau + sigma < Theta1FromTheta0(theta0, phi0, sigma, tau, alpha)
  {
    var l := sigma * (1.0 - alpha / phi0);
    assert theta0 < l;
    LowerProductStrict(theta0, phi0, sigma, alpha, l);
    var q := 1.0 - phi0;
    var num := sigma * (1.0 - alpha) + q * tau - phi0 * theta0;
    assert q * (tau + sigma) < num;
    QuotientAbove(num, q, tau + sigma);
  }

  /** The other half of the converse: a threshold in `[0, sigma]` above the
      allowed interval leaves the privileged more than their whole group can
      take, so the balancing `theta1` lies below every privileged success
      probability. */
  lemma Theta1BelowRange(theta0: real, phi0: real, sigma: real, tau: real, alpha: real)
    requires 0.0 < phi0 < 1.0 && 0.0 < sigma <= 1.0 && Unit(alpha) && theta0 <= sigma
    requires AllowedActions(phi0, sigma, alpha).upper < theta0
    ensures Theta1FromTheta0(theta0, phi0, sigma, tau, alpha) < tau
  {
    var u := sigma * (1.0 - alpha) / phi0;
    assert u < theta0;
    UpperProductStrict(theta0, phi0, sigma, alpha, u);
    var q := 1.0 - phi0;
    var num := sigma * (1.0 - alpha) + q * tau - phi0 * theta0;
    assert num < q * tau;
    QuotientBelow(num, q, tau);
  }

  /** `allowed_actions` is exact: with both groups present, a threshold in
      `[0, sigma]` is allowed if and only if the `theta1` that balances the
      budget is one the privileged group can meet. */
  lemma AllowedIffTheta1InRange(theta0: real, phi0: real, sigma: real, tau: real, alpha: real)
    requires 0.0 < phi0 < 1.0 && 0.0 < sigma <= 1.0 && Unit(alpha) && 0.0 <= theta0 <= sigma
    ensures AllowedActions(phi0, sigma, alpha).lower <= theta0 <= AllowedActions(phi0, sigma, alpha).upper
      <==> tau <= Theta1FromTheta0(theta0, phi0, sigma, tau, alpha) <= tau + sigma
  {
    var r := AllowedActions(phi0, sigma, alpha);
    if theta0 < r.lower {
      Theta1AboveRange(theta0, phi0, sigma, tau, alpha);
    } else if r.upper < theta0 {
      Theta1BelowRange(theta0, phi0, sigma, tau, alpha);
    } else {
      Theta1WithinPrivilegedRange(theta0, phi0, sigma, tau, alpha);
    }
  }

  lemma LowerProductStrict(theta0: real, phi0: real, sigma: real, alpha: real, l: real)
    requires 0.0 < phi0 && l == sigma * (1.0 - alpha / phi0) && theta0 < l
    ensures phi0 * theta0 < phi0 * sigma - sigma * alpha
  {
    MulLeftStrict(theta0, l, phi0);
    DivCancel(alpha, phi0);
    assert phi0 * l == phi0 * sigma - sigma * (phi0 * (alpha / phi0));
  }

  lemma UpperProductStrict(theta0: real, phi0: real, sigma: real, alpha: real, u: real)
    requires 0.0 < phi0 && u == sigma * (1.0 - alpha) / phi0 && u < theta0
    ensures sigma * (1.0 - alpha) < phi0 * theta0
  {
    MulLeftStrict(u, theta0, phi0);
    DivCancel(sigma * (1.0 - alpha), phi0);
  }

  /** Dividing by a positive `q` keeps a numerator above `q * lo` above `lo`. */
  lemma QuotientAbove(num: real, q: real, lo: real)
    requires 0.0 < q && q * lo < num
    ensures lo < num / q
  {
    DivCancel(num, q);
    if num / q <= lo {
      MulLeft(num / q, lo, q);
      assert false;
    }
  }

  /** Dividing by a positive `q` keeps a numerator below `q * hi` below `hi`. */
  lemma QuotientBelow(num: real, q: real, hi: real)
    requires 0.0 < q && num < q * hi
    ensures num / q < hi
  {
    DivCancel(num, q);
    if hi <= num / q {
      MulLeft(hi, num / q, q);
      assert false;
    }
  }

  // ---- get_payoff ----

  /** Expected fraction of the population that is unprivileged, receives an
      opportunity and succeeds: the share served times the mean success
      probability `(sigma + theta0) / 2` of a served unprivileged individual. */
  function UnprivPayoff(theta0: real, phi0: real, sigma: real): (r: real)
    requires sigma != 0.0
    ensures r == UnprivShare(theta0, phi0, sigma) * ((sigma + theta0) / 2.0)
  {
    assert sigma * sigma - theta0 * theta0 == (sigma - theta0) * (sigma + theta0);
    (phi0 / (2.0 * sigma)) * (sigma * sigma - theta0 * theta0)
  }

  /** Expected fraction of the population that is privileged, receives an
      opportunity and succeeds: inside the privileged range the share served
      times the mean success probability `(tau + sigma + theta1) / 2`; nobody
      privileged is served when `theta1` lies above every privileged success
      probability. */
  function PrivPayoff(theta0: real, phi0: real, sigma: real, tau: real, alpha: real): (r: real)
    requires sigma != 0.0
    ensures var t1 := Theta1FromTheta0(theta0, phi0, sigma, tau, alpha);
      t1 <= tau + sigma ==> r == PrivShare(t1, phi0, sigma, tau) * ((tau + sigma + t1) / 2.0)
    ensures tau + sigma < Theta1FromTheta0(theta0, phi0, sigma, tau, alpha) ==> r == 0.0
  {
    var theta1 := Theta1FromTheta0(theta0, phi0, sigma, tau, alpha);
    if tau + sigma < theta1 then 0.0
    else
      assert (sigma + tau) * (sigma + tau) - theta1 * theta1 == (tau + sigma - theta1) * (tau + sigma + theta1);
      ((1.0 - phi0) / (2.0 * sigma)) * ((sigma + tau) * (sigma + tau) - theta1 * theta1)
  }

  /** `get_payoff` for one threshold: aborts when `theta0 > sigma` (the first
      assertion), on a division by `sigma == 0`, and when the payoff leaves
      `[0, alpha]` (the last assertion). */
  function GetPayoff(theta0: real, phi0: real, sigma: real, tau: real, alpha: real): (r: Result<real>)
    ensures r.Ok? ==> 0.0 <= r.value <= alpha
    ensures theta0 > sigma ==> r == Err(AssertionFailed)
    ensures theta0 <= sigma && sigma == 0.0 ==> r == Err(ZeroDivision)
  {
    if !(theta0 <= sigma) then Err(AssertionFailed)
    else if sigma == 0.0 then Err(ZeroDivision)
    else
      var p := UnprivPayoff(theta0, phi0, sigma) + PrivPayoff(theta0, phi0, sigma, tau, alpha);
      if 0.0 <= p <= alpha then Ok(p) else Err(AssertionFailed)
  }

  /** The final assertion of `get_payoff` never fires on an allowed threshold:
      the payoff exists, equals the sum of the two group terms, and lies in
      `[0, alpha]`. */
  lemma PayoffWithinBudget(theta0: real, phi0: real, sigma: real, tau: real, alpha: real)
    requires ValidParams(phi0, sigma, tau, alpha)
    requires AllowedActions(phi0, sigma, alpha).lower <= theta0 <= AllowedActions(phi0, sigma, alpha).upper
    ensures GetPayoff(theta0, phi0, sigma, tau, alpha).Ok?
    ensures GetPayoff(theta0, phi0, sigma, tau, alpha).value
      == UnprivPayoff(theta0, phi0, sigma) + PrivPayoff(theta0, phi0, sigma, tau, alpha)
  {
    var t1 := Theta1FromTheta0(theta0, phi0, sigma, tau, alpha);
    var u := UnprivPayoff(theta0, phi0, sigma);
    var p := PrivPayoff(theta0, phi0, sigma, tau, alpha);
    var shares := UnprivShare(theta0, phi0, sigma) + PrivShare(t1, phi0, sigma, tau);
    assert tau <= t1 <= tau + sigma by { Theta1WithinPrivilegedRange(theta0, phi0, sigma, tau, alpha); }
    assert 0.0 <= u + p <= shares by { PayoffBelowShares(theta0, phi0, sigma, tau, alpha); }
    assert shares <= alpha by { SharesWithinBudget(theta0, phi0, sigma, tau, alpha); }
  }

  /** Each group's payoff is its share weighted by a mean success probability
      in `[0, 1]`, so the payoff is at most the share allocated. */
  lemma PayoffBelowShares(theta0: real, phi0: real, sigma: real, tau: real, alpha: real)
    requires ValidParams(phi0, sigma, tau, alpha)
    requires 0.0 <= theta0 <= sigma
    requires tau <= Theta1FromTheta0(theta0, phi0, sigma, tau, alpha) <= tau + sigma
    ensures var t1 := Theta1FromTheta0(theta0, phi0, sigma, tau, alpha);
      0.0 <= UnprivPayoff(theta0, phi0, sigma) + PrivPayoff(theta0, phi0, sigma, tau, alpha)
          <= UnprivShare(theta0, phi0, sigma) + PrivShare(t1, phi0, sigma, tau)
  {
    UnprivPayoffBelowShare(theta0, phi0, sigma);
    PrivPayoffBelowShare(theta0, phi0, sigma, tau, alpha);
  }

  lemma UnprivPayoffBelowShare(theta0: real, phi0: real, sigma: real)
    requires 0.0 <= phi0 && 0.0 <= theta0 <= sigma <= 1.0 && sigma != 0.0
    ensures 0.0 <= UnprivPayoff(theta0, phi0, sigma) <= UnprivShare(theta0, phi0, sigma) <= phi0
  {
    var u := UnprivPayoff(theta0, phi0, sigma);
    var s0 := UnprivShare(theta0, phi0, sigma);
    var m0 := (sigma + theta0) / 2.0;
    assert u == s0 * m0;
    assert 0.0 <= s0 <= phi0 by { ShareBounds(phi0, sigma - theta0, sigma); }
    assert 0.0 <= s0 * m0 <= s0 by { ScaledBelow(s0, m0); }
  }

  lemma PrivPayoffBelowShare(theta0: real, phi0: real, sigma: real, tau: real, alpha: real)
    requires phi0 <= 1.0 && 0.0 < sigma && 0.0 <= tau && sigma + tau <= 1.0
    requires tau <= Theta1FromTheta0(theta0, phi0, sigma, tau, alpha) <= tau + sigma
    ensures var t1 := Theta1FromTheta0(theta0, phi0, sigma, tau, alpha);
      0.0 <= PrivPayoff(theta0, phi0, sigma, tau, alpha) <= PrivShare(t1, phi0, sigma, tau)
  {
    var t1 := Theta1FromTheta0(theta0, phi0, sigma, tau, alpha);
    var s1 := PrivShare(t1, phi0, sigma, tau);
    PrivScaledWithin(PrivPayoff(theta0, phi0, sigma, tau, alpha), s1, t1, phi0, sigma, tau);
  }

  /** The privileged term as plain values: a share times a mean in `[0, 1]`. */
  lemma PrivScaledWithin(p: real, s1: real, t1: real, phi0: real, sigma: real, tau: real)
    requires phi0 <= 1.0 && 0.0 < sigma && 0.0 <= tau && sigma + tau <= 1.0 && tau <= t1 <= tau + sigma
    requires s1 == (1.0 - phi0) * (tau + sigma - t1) / sigma && p == s1 * ((tau + sigma + t1) / 2.0)
    ensures 0.0 <= p <= s1
  {
    ShareBounds(1.0 - phi0, tau + sigma - t1, sigma);
    ScaledWithin(p, s1, (tau + sigma + t1) / 2.0);
  }

  /** A share scaled by a mean in `[0, 1]` stays within the share. */
  lemma ScaledWithin(p: real, s: real, m: real)
    requires p == s * m && 0.0 <= s && Unit(m)
    ensures 0.0 <= p <= s
  {
    ScaledBelow(s, m);
  }

  /** A group's share of the population served, `w * x / sigma`, lies in
      `[0, w]` when the served part `x` of its range lies in `[0, sigma]`. */
  lemma ShareBounds(w: real, x: real, sigma: real)
    requires 0.0 <= w && 0.0 <= x <= sigma && 0.0 < sigma
    ensures 0.0 <= w * x / sigma <= w
  {
    assert 0.0 <= w * x by { MulNonneg(w, x); }
    assert w * x <= w * sigma by { MulLeft(x, sigma, w); }
    DivMono(0.0, w * x, sigma);
    DivMono(w * x, w * sigma, sigma);
    DivCancel(w, sigma);
    assert (w * sigma) / sigma == w;
  }

  /** An allowed threshold never spends more than the budget. */
  lemma SharesWithinBudget(theta0: real, phi0: real, sigma: real, tau: real, alpha: real)
    requires ValidParams(phi0, sigma, tau, alpha)
    requires AllowedActions(phi0, sigma, alpha).lower <= theta0
    ensures var t1 := Theta1FromTheta0(theta0, phi0, sigma, tau, alpha);
      UnprivShare(theta0, phi0, sigma) + PrivShare(t1, phi0, sigma, tau) <= alpha
  {
    if phi0 == 1.0 {
      // theta0 >= sigma * (1 - alpha), so the unprivileged share is at most alpha
      assert sigma * (1.0 - alpha / 1.0) <= theta0;
      assert sigma - theta0 <= sigma * alpha;
      assert UnprivShare(theta0, phi0, sigma) <= alpha by {
        assert UnprivShare(theta0, phi0, sigma) == (sigma - theta0) / sigma;
        DivMono(sigma - theta0, sigma * alpha, sigma);
        DivCancel(alpha, sigma);
        assert (sigma * alpha) / sigma == alpha;
      }
    }
  }

  // ---- phi_0_post ----

  /** `phi_0_post`: the unprivileged fraction left once opportunities are
      allocated. Aborts when `theta0 > sigma` and on `sigma == 0`; otherwise it
      is `phi0` minus the unprivileged payoff term and stays within
      `[0, phi0]` for `0 <= theta0`. */
  function Phi0Post(theta0: real, phi0: real, sigma: real): (r: Result<real>)
    ensures r.Ok? <==> theta0 <= sigma && sigma != 0.0
    ensures r.Ok? ==> r.value == phi0 - UnprivPayoff(theta0, phi0, sigma)
    ensures r.Ok? && 0.0 <= theta0 && sigma <= 1.0 && 0.0 <= phi0 ==> 0.0 <= r.value <= phi0
  {
    if !(theta0 <= sigma) then Err(AssertionFailed)
    else if sigma == 0.0 then Err(ZeroDivision)
    else
      var post := phi0 - (phi0 / (2.0 * sigma)) * (sigma * sigma - theta0 * theta0);
      Phi0PostBounded(theta0, phi0, sigma);
      Ok(post)
  }

  lemma Phi0PostBounded(theta0: real, phi0: real, sigma: real)
    requires theta0 <= sigma && sigma != 0.0
    ensures 0.0 <= theta0 && sigma <= 1.0 && 0.0 <= phi0 ==>
      0.0 <= phi0 - UnprivPayoff(theta0, phi0, sigma) <= phi0
  {
    if 0.0 <= theta0 && sigma <= 1.0 && 0.0 <= phi0 {
      UnprivPayoffBelowShare(theta0, phi0, sigma);
    }
  }

  // ---- Batched forms: the scalar operations applied element-wise ----

  /** `theta_1_from_theta_0` over an array of unprivileged thresholds. */
  function Theta1Batch(thetas: seq<real>, phi0: real, sigma: real, tau: real, alpha: real): (r: seq<real>)
    ensures |r| == |thetas|
    ensures forall i :: 0 <= i < |thetas| ==> r[i] == Theta1FromTheta0(thetas[i], phi0, sigma, tau, alpha)
  {
    seq(|thetas|, i requires 0 <= i < |thetas| => Theta1FromTheta0(thetas[i], phi0, sigma, tau, alpha))
  }

  /** `get_payoff` over an array: the first assertion checks every element
      before anything is computed, the last one checks every payoff. */
  function GetPayoffs(thetas: seq<real>, phi0: real, sigma: real, tau: real, alpha: real): (r: Result<seq<real>>)
    ensures r.Ok? <==> sigma != 0.0 && forall i :: 0 <= i < |thetas| ==> GetPayoff(thetas[i], phi0, sigma, tau, alpha).Ok?
    ensures r.Ok? ==> (|r.value| == |thetas| &&
      forall i :: 0 <= i < |thetas| ==> Ok(r.value[i]) == GetPayoff(thetas[i], phi0, sigma, tau, alpha))
    ensures (exists i :: 0 <= i < |thetas| && thetas[i] > sigma) ==> r == Err(AssertionFailed)
  {
    if exists i :: 0 <= i < |thetas| && thetas[i] > sigma then Err(AssertionFailed)
    else if sigma == 0.0 then Err(ZeroDivision)
    else if forall i :: 0 <= i < |thetas| ==> GetPayoff(thetas[i], phi0, sigma, tau, alpha).Ok? then
      Ok(seq(|thetas|, i requires 0 <= i < |thetas| => GetPayoff(thetas[i], phi0, sigma, tau, alpha).value))
    else Err(AssertionFailed)
  }

  /** `phi_0_post` over an array. */
  function Phi0PostBatch(thetas: seq<real>, phi0: real, sigma: real): (r: Result<seq<real>>)
    ensures r.Ok? <==> sigma != 0.0 && forall i :: 0 <= i < |thetas| ==> thetas[i] <= sigma
    ensures r.Ok? ==> (|r.value| == |thetas| &&
      forall i :: 0 <= i < |thetas| ==> Ok(r.value[i]) == Phi0Post(thetas[i], phi0, sigma))
  {
    if exists i :: 0 <= i < |thetas| && thetas[i] > sigma then Err(AssertionFailed)
    else if sigma == 0.0 then Err(ZeroDivision)
    else Ok(seq(|thetas|, i requires 0 <= i < |thetas| => Phi0Post(thetas[i], phi0, sigma).value))
  }

  /** The batched `get_payoff` never aborts on a batch of allowed thresholds,
      and every payoff in it lies in `[0, alpha]`. */
  lemma PayoffsWithinBudget(thetas: seq<real>, phi0: real, sigma: real, tau: real, alpha: real)
    requires ValidParams(phi0, sigma, tau, alpha)
    requires forall i :: 0 <= i < |thetas| ==>
      AllowedActions(phi0, sigma, alpha).lower <= thetas[i] <= AllowedActions(phi0, sigma, alpha).upper
    ensures GetPayoffs(thetas, phi0, sigma, tau, alpha).Ok?
    ensures forall i :: 0 <= i < |thetas| ==> 0.0 <= GetPayoffs(thetas, phi0, sigma, tau, alpha).value[i] <= alpha
  {
    forall i | 0 <= i < |thetas|
      ensures GetPayoff(thetas[i], phi0, sigma, tau, alpha).Ok?
    {
      PayoffWithinBudget(thetas[i], phi0, sigma, tau, alpha);
    }
  }
}
