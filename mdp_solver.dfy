/** The Markov-decision-process solver of `aamodel/solver.py` (class
    `mdp_solver`): a state is the number `s` of unprivileged agents out of
    `N`, an action is an unprivileged threshold `a / DISCRETIZATION`, the
    reward table `R` holds the expected payoff of an action and the
    transition table `S` the state it leads to; `run` repeats Bellman sweeps
    of the action-value table `Q` until two successive tables differ by less
    than `epsilon`. */
module Mdp {
  import opened Common
  import opened SolverDist

  /** Parameters for which the tables can be built: a population, a proper
      spread `sigma` with head start `tau`, a budget and mobility
      probabilities in [0, 1]. */
  predicate ValidConfig(N: nat, sigma: real, tau: real, alpha: real, pA: real, pD: real)
  {
    1 <= N && 0.0 < sigma <= 1.0 && 0.0 <= tau && sigma + tau <= 1.0 && Unit(alpha) && Unit(pA) && Unit(pD)
  }

  /** The unprivileged threshold of action `a`. */
  function Theta0(a: nat): (r: real)
    ensures r * DISCRETIZATION as real == a as real
    ensures a <= DISCRETIZATION ==> Unit(r)
  {
    a as real / DISCRETIZATION as real
  }

  /** One row per state, one column per action. */
  predicate Shaped<T>(t: array2<T>, N: nat)
  {
    t.Length0 == N + 1 && t.Length1 == DISCRETIZATION + 1
  }

  /** `R[s, a]` is the expected payoff of action `a` with `s` unprivileged agents. */
  predicate IsRewardTable(R: array2<real>, N: nat, sigma: real, tau: real, alpha: real)
    reads R
  {
    Shaped(R, N) &&
    forall s: nat, a: nat :: s <= N && a <= DISCRETIZATION ==>
      ExpectedPayoff(Theta0(a), N, s, sigma, tau, alpha) == Ok(R[s, a])
  }

  /** `S[s, a]` is the state that action `a` leads to from state `s`. */
  predicate IsTransitionTable(S: array2<int>, N: nat, sigma: real, pA: real, pD: real)
    reads S
  {
    1 <= N && sigma != 0.0 && Shaped(S, N) &&
    forall s: nat, a: nat :: s <= N && a <= DISCRETIZATION ==> S[s, a] == NextState(s, a, N, sigma, pA, pD)
  }

  /** `init_R_S`: fills both tables cell by cell. */
  method InitRS(N: nat, sigma: real, tau: real, alpha: real, pA: real, pD: real)
    returns (R: array2<real>, S: array2<int>)
    requires ValidConfig(N, sigma, tau, alpha, pA, pD)
    ensures fresh(R) && fresh(S)
    ensures IsRewardTable(R, N, sigma, tau, alpha) && IsTransitionTable(S, N, sigma, pA, pD)
  {
    R := new real[N + 1, DISCRETIZATION + 1]((i, j) => 0.0);
    S := new int[N + 1, DISCRETIZATION + 1]((i, j) => 0);
    for s := 0 to N + 1
      invariant forall s': nat, a: nat :: s' < s && a <= DISCRETIZATION ==>
        ExpectedPayoff(Theta0(a), N, s', sigma, tau, alpha) == Ok(R[s', a])
        && S[s', a] == NextState(s', a, N, sigma, pA, pD)
    {
      for a := 0 to DISCRETIZATION + 1
        invariant forall s': nat, a': nat :: s' < s && a' <= DISCRETIZATION ==>
          ExpectedPayoff(Theta0(a'), N, s', sigma, tau, alpha) == Ok(R[s', a'])
          && S[s', a'] == NextState(s', a', N, sigma, pA, pD)
        invariant forall a': nat :: a' < a ==>
          ExpectedPayoff(Theta0(a'), N, s, sigma, tau, alpha) == Ok(R[s, a'])
          && S[s, a'] == NextState(s, a', N, sigma, pA, pD)
      {
        ExpectedPayoffWithinUnit(Theta0(a), N, s, sigma, tau, alpha);
        R[s, a] := ExpectedPayoff(Theta0(a), N, s, sigma, tau, alpha).value;
        S[s, a] := NextState(s, a, N, sigma, pA, pD);
      }
    }
  }

  /** The largest element of a non-empty sequence (`np.max`). */
  function SeqMax(xs: seq<real>): (m: real)
    requires |xs| > 0
    ensures forall i :: 0 <= i < |xs| ==> xs[i] <= m
    ensures exists i :: 0 <= i < |xs| && xs[i] == m
    decreases |xs|
  {
    if |xs| == 1 then xs[0] else Max(SeqMax(xs[..|xs| - 1]), xs[|xs| - 1])
  }

  /** Maxima of two sequences that are close elementwise are as close. */
  lemma SeqMaxLipschitz(xs: seq<real>, ys: seq<real>, d: real)
    requires |xs| == |ys| > 0
    requires forall i :: 0 <= i < |xs| ==> Abs(xs[i] - ys[i]) <= d
    ensures Abs(SeqMax(xs) - SeqMax(ys)) <= d
  {
    MaximaClose(xs, ys, d, SeqMax(xs), SeqMax(ys));
  }

  /** The argument of `SeqMaxLipschitz` on the two maxima as values. */
  lemma MaximaClose(xs: seq<real>, ys: seq<real>, d: real, mx: real, my: real)
    requires |xs| == |ys|
    requires forall i :: 0 <= i < |xs| ==> Abs(xs[i] - ys[i]) <= d
    requires forall i :: 0 <= i < |xs| ==> xs[i] <= mx
    requires forall i :: 0 <= i < |ys| ==> ys[i] <= my
    requires exists i :: 0 <= i < |xs| && xs[i] == mx
    requires exists i :: 0 <= i < |ys| && ys[i] == my
    ensures Abs(mx - my) <= d
  {
    var i :| 0 <= i < |xs| && xs[i] == mx;
    var j :| 0 <= j < |ys| && ys[j] == my;
    assert ys[i] <= my && Abs(xs[i] - ys[i]) <= d;
    assert xs[j] <= mx && Abs(xs[j] - ys[j]) <= d;
  }

  /** Row `row` of a table. */
  function Row(q: array2<real>, row: int): (r: seq<real>)
    requires 0 <= row < q.Length0
    reads q
    ensures |r| == q.Length1
    ensures forall j :: 0 <= j < q.Length1 ==> r[j] == q[row, j]
  {
    seq(q.Length1, j requires 0 <= j < q.Length1 reads q => q[row, j])
  }

  /** `np.max(Q[row])`. */
  function RowMax(q: array2<real>, row: int): real
    requires 0 <= row < q.Length0 && 0 < q.Length1
    reads q
  {
    SeqMax(Row(q, row))
  }

  /** Computes `np.max(q[row])` by a scan. */
  method RowMaxOf(q: array2<real>, row: int) returns (m: real)
    requires 0 <= row < q.Length0 && 0 < q.Length1
    ensures m == RowMax(q, row)
  {
    ghost var xs := Row(q, row);
    m := q[row, 0];
    assert xs[..1] == [xs[0]];
    for j := 1 to q.Length1
      invariant m == SeqMax(xs[..j])
    {
      SeqMaxStep(xs, j);
      m := Max(m, q[row, j]);
    }
    assert xs[..q.Length1] == xs;
  }

  /** Extending a prefix by one element extends its maximum by that element. */
  lemma SeqMaxStep(xs: seq<real>, j: int)
    requires 1 <= j < |xs|
    ensures SeqMax(xs[..j + 1]) == Max(SeqMax(xs[..j]), xs[j])
  {
    assert xs[..j + 1][..j] == xs[..j];
  }

  /** `np.max(np.abs(p - q))`: the largest elementwise distance of two
      tables of the same shape. */
  method MaxAbsDiff(p: array2<real>, q: array2<real>) returns (e: real)
    requires p.Length0 == q.Length0 && p.Length1 == q.Length1 && 0 < p.Length0 && 0 < p.Length1
    ensures forall i, j :: 0 <= i < p.Length0 && 0 <= j < p.Length1 ==> Abs(p[i, j] - q[i, j]) <= e
    ensures exists i, j :: 0 <= i < p.Length0 && 0 <= j < p.Length1 && e == Abs(p[i, j] - q[i, j])
  {
    e := Abs(p[0, 0] - q[0, 0]);
    ghost var wi, wj := 0, 0;
    for i := 0 to p.Length0
      invariant 0 <= wi < p.Length0 && 0 <= wj < p.Length1 && e == Abs(p[wi, wj] - q[wi, wj])
      invariant forall i', j :: 0 <= i' < i && 0 <= j < p.Length1 ==> Abs(p[i', j] - q[i', j]) <= e
    {
      for j := 0 to p.Length1
        invariant 0 <= wi < p.Length0 && 0 <= wj < p.Length1 && e == Abs(p[wi, wj] - q[wi, wj])
        invariant forall i', j' :: 0 <= i' < i && 0 <= j' < p.Length1 ==> Abs(p[i', j'] - q[i', j']) <= e
        invariant forall j' :: 0 <= j' < j ==> Abs(p[i, j'] - q[i, j']) <= e
      {
        if Abs(p[i, j] - q[i, j]) > e {
          e := Abs(p[i, j] - q[i, j]);
          wi, wj := i, j;
        }
      }
    }
  }

  /** Every reward is a fraction and every transition a state. */
  predicate TablesInRange(R: array2<real>, S: array2<int>, N: nat)
    reads R, S
  {
    Shaped(R, N) && Shaped(S, N) &&
    (forall s, a :: 0 <= s <= N && 0 <= a <= DISCRETIZATION ==> Unit(R[s, a])) &&
    (forall s, a :: 0 <= s <= N && 0 <= a <= DISCRETIZATION ==> 0 <= S[s, a] <= N)
  }

  /** The tables built by `InitRS` hold fractions and states only. */
  lemma BuiltTablesInRange(R: array2<real>, S: array2<int>, N: nat, sigma: real, tau: real, alpha: real, pA: real, pD: real)
    requires ValidConfig(N, sigma, tau, alpha, pA, pD)
    requires IsRewardTable(R, N, sigma, tau, alpha) && IsTransitionTable(S, N, sigma, pA, pD)
    ensures TablesInRange(R, S, N)
  {
    forall s, a | 0 <= s <= N && 0 <= a <= DISCRETIZATION
      ensures Unit(R[s, a]) && 0 <= S[s, a] <= N
    {
      assert ExpectedPayoff(Theta0(a), N, s, sigma, tau, alpha) == Ok(R[s, a]);
      assert S[s, a] == NextState(s, a, N, sigma, pA, pD);
    }
  }

  /** `r + gamma * m` stays below the geometric bound `1 / (1 - gamma)`
      when `m` does (both written multiplied out by `1 - gamma`). */
  lemma GeometricBound(gamma: real, r: real, m: real)
    requires 0.0 <= gamma < 1.0 && Unit(r) && 0.0 <= m && m * (1.0 - gamma) <= 1.0
    ensures 0.0 <= r + gamma * m && (r + gamma * m) * (1.0 - gamma) <= 1.0
  {
    MulNonneg(gamma, m);
    assert (1.0 - gamma) * r <= 1.0 - gamma by { ScaledBelow(1.0 - gamma, r); }
    assert gamma * (m * (1.0 - gamma)) <= gamma by { MulLeft(m * (1.0 - gamma), 1.0, gamma); }
    assert (r + gamma * m) * (1.0 - gamma) == (1.0 - gamma) * r + gamma * (m * (1.0 - gamma));
  }

  /** Rows of two tables that are close elementwise have close maxima. */
  lemma RowMaxClose(q1: array2<real>, q2: array2<real>, row: int, d: real)
    requires q1.Length0 == q2.Length0 && q1.Length1 == q2.Length1 && 0 <= row < q1.Length0 && 0 < q1.Length1
    requires forall i, j :: 0 <= i < q1.Length0 && 0 <= j < q1.Length1 ==> Abs(q1[i, j] - q2[i, j]) <= d
    ensures Abs(RowMax(q1, row) - RowMax(q2, row)) <= d
  {
    SeqMaxLipschitz(Row(q1, row), Row(q2, row), d);
  }

  /** Two payoffs `r + gamma * x` differ by `gamma` times the difference of
      their continuation values. */
  lemma DiscountedDifference(gamma: real, x1: real, x2: real, r: real, d: real, v1: real, v2: real)
    requires 0.0 <= gamma && Abs(x1 - x2) <= d
    requires v1 == r + gamma * x1 && v2 == r + gamma * x2
    ensures Abs(v1 - v2) <= gamma * d
  {
    assert v1 - v2 == gamma * (x1 - x2);
    if x1 - x2 >= 0.0 {
      MulLeft(x1 - x2, d, gamma);
      MulNonneg(gamma, x1 - x2);
    } else {
      MulLeft(x2 - x1, d, gamma);
      MulNonneg(gamma, x2 - x1);
      assert gamma * (x1 - x2) == -(gamma * (x2 - x1));
    }
  }

  /** The `int`-converted bounds `lower_action, upper_action` of state `s`
      in `run`: the actions `a` with `lower_action <= a < upper_action` are
      the ones swept. */
  function StateActions(s: nat, N: nat, sigma: real, alpha: real): (r: (int, int))
    requires 1 <= N && s <= N && Unit(sigma) && Unit(alpha)
    ensures 0 <= r.0 <= r.1 <= DISCRETIZATION
  {
    FractionUnit(s, N);
    ActionRange(s as real / N as real, sigma, alpha)
  }

  /** The sweep can serve an action whose reward exceeds the budget, which is
      what the diagnostic `print` in `run` reports: with `N = 2`,
      `sigma = 0.4`, `tau = 0.6` and `alpha = 0.1`, state 1 sweeps the actions
      32 to 71, because `action_bounds` caps the upper end at 1 rather than at
      `sigma`; action 50 (`theta_0 = 0.5 > sigma`) serves no unprivileged
      agent and leaves a privileged threshold of 0.82, whose payoff 0.20475 is
      above `alpha`. */
  lemma SweptRewardAboveBudget()
    ensures StateActions(1, 2, 0.4, 0.1) == (32, 72)
    ensures ExpectedPayoff(Theta0(50), 2, 1, 0.4, 0.6, 0.1) == Ok(0.20475)
  {
    assert GetTheta1(0.5, 0.5, 0.4, 0.6, 0.1) == 0.82;
  }

  /** `|z - y| <= b` when `z == x` and `|x - y| <= c <= b`. */
  lemma Residual(x: real, y: real, z: real, c: real, b: real)
    requires z == x && Abs(x - y) <= c <= b
    ensures Abs(y - z) <= b
  {
  }

  class MdpSolver {
    const N: nat
    const sigma: real
    const tau: real
    const pA: real
    const pD: real
    const gamma: real
    const alpha: real
    const epsilon: real
    /** The action bounds of every state; they depend on the parameters
        only, so they are computed once rather than in every sweep. */
    const actions: seq<(int, int)>
    var Q: array2<real>
    var R: array2<real>
    var S: array2<int>

    /** Tables built from the solver's own parameters. */
    predicate Built()
      reads this`R, this`S, R, S
    {
      ValidConfig(N, sigma, tau, alpha, pA, pD) &&
      IsRewardTable(R, N, sigma, tau, alpha) && IsTransitionTable(S, N, sigma, pA, pD) &&
      |actions| == N + 1 && forall s: nat :: s <= N ==> actions[s] == StateActions(s, N, sigma, alpha)
    }

    /** What the sweeps rely on about the tables. */
    predicate Tables()
      reads this`R, this`S, R, S
    {
      ValidConfig(N, sigma, tau, alpha, pA, pD) && TablesInRange(R, S, N) &&
      |actions| == N + 1 && forall s :: 0 <= s <= N ==> 0 <= actions[s].0 <= actions[s].1 <= DISCRETIZATION
    }

    /** Every action value lies between 0 and `1 / (1 - gamma)`, the
        discounted sum of a payoff of at most 1 per generation. */
    predicate Bounded(q: array2<real>)
      reads q
    {
      forall i, j :: 0 <= i < q.Length0 && 0 <= j < q.Length1 ==> 0.0 <= q[i, j] && q[i, j] * (1.0 - gamma) <= 1.0
    }

    predicate Valid()
      reads this, R, S, Q
    {
      Tables() && Shaped(Q, N) && (0.0 <= gamma < 1.0 ==> Bounded(Q))
    }

    constructor(N: nat, sigma: real, tau: real, pA: real, pD: real, gamma: real, alpha: real, epsilon: real)
      requires ValidConfig(N, sigma, tau, alpha, pA, pD)
      ensures Valid() && Built()
      ensures this.N == N && this.sigma == sigma && this.tau == tau && this.pA == pA && this.pD == pD
      ensures this.gamma == gamma && this.alpha == alpha && this.epsilon == epsilon
      ensures fresh(Q) && forall i, j :: 0 <= i < Q.Length0 && 0 <= j < Q.Length1 ==> Q[i, j] == 0.0
    {
      this.N := N;
      this.sigma := sigma;
      this.tau := tau;
      this.pA := pA;
      this.pD := pD;
      this.gamma := gamma;
      this.alpha := alpha;
      this.epsilon := epsilon;
      this.actions := seq(N + 1, s requires 0 <= s <= N => StateActions(s, N, sigma, alpha));
      Q := new real[N + 1, DISCRETIZATION + 1]((i, j) => 0.0);
      var r, t := InitRS(N, sigma, tau, alpha, pA, pD);
      R, S := r, t;
      BuiltTablesInRange(r, t, N, sigma, tau, alpha, pA, pD);
    }

    /** `Q_new[s, a]` of one sweep of `run` from the table `q`: payoff plus
        discounted best value of the next state for an allowed action, 0 for
        the others. */
    function SweepValue(q: array2<real>, s: nat, a: nat): (r: real)
      requires Tables() && Shaped(q, N) && s <= N && a <= DISCRETIZATION
      reads this`R, this`S, R, S, q
      ensures !(actions[s].0 <= a < actions[s].1) ==> r == 0.0
    {
      var (lo, hi) := actions[s];
      if lo <= a < hi then R[s, a] + gamma * RowMax(q, S[s, a]) else 0.0
    }

    /** Bellman optimality of a swept value: an allowed action is worth its
        payoff plus the discounted value of the best action of the state it
        leads to, which no other action of that state exceeds. */
    lemma SweepValueIsBest(q: array2<real>, s: nat, a: nat)
      requires Tables() && Shaped(q, N) && s <= N && a <= DISCRETIZATION && 0.0 <= gamma
      requires actions[s].0 <= a < actions[s].1
      ensures exists j :: 0 <= j < q.Length1 && SweepValue(q, s, a) == R[s, a] + gamma * q[S[s, a], j]
      ensures forall j :: 0 <= j < q.Length1 ==> R[s, a] + gamma * q[S[s, a], j] <= SweepValue(q, s, a)
    {
      var row := S[s, a];
      var m := RowMax(q, row);
      var xs := Row(q, row);
      var i :| 0 <= i < |xs| && xs[i] == m;
      assert SweepValue(q, s, a) == R[s, a] + gamma * q[row, i];
      forall j | 0 <= j < q.Length1
        ensures R[s, a] + gamma * q[row, j] <= SweepValue(q, s, a)
      {
        assert q[row, j] == xs[j];
        MulLeft(q[row, j], m, gamma);
      }
    }

    /** The body of `run`'s loop up to the distance test: a fresh table
        with one Bellman sweep of `Q`. */
    method Sweep() returns (qn: array2<real>)
      requires Valid()
      ensures fresh(qn) && Shaped(qn, N)
      ensures forall s: nat, a: nat :: s <= N && a <= DISCRETIZATION ==> qn[s, a] == SweepValue(Q, s, a)
    {
      qn := new real[N + 1, DISCRETIZATION + 1]((i, j) => 0.0);
      for s := 0 to N + 1
        invariant forall s': nat, a: nat :: s' < s && a <= DISCRETIZATION ==> qn[s', a] == SweepValue(Q, s', a)
        invariant forall s': nat, a: nat :: s <= s' <= N && a <= DISCRETIZATION ==> qn[s', a] == 0.0
      {
        SweepRow(qn, s);
      }
    }

    /** Row `s` of `Sweep`: fills the allowed actions of a zeroed row and
        leaves the other rows alone. */
    method SweepRow(qn: array2<real>, s: nat)
      requires Valid() && Shaped(qn, N) && qn != Q && qn != R && s <= N
      requires forall a: nat :: a <= DISCRETIZATION ==> qn[s, a] == 0.0
      modifies qn
      ensures forall a: nat :: a <= DISCRETIZATION ==> qn[s, a] == SweepValue(Q, s, a)
      ensures forall s', a' :: 0 <= s' < qn.Length0 && s' != s && 0 <= a' < qn.Length1 ==> qn[s', a'] == old(qn[s', a'])
    {
      var (lo, hi) := actions[s];
      for a := lo to hi
        invariant forall a': nat :: a' <= DISCRETIZATION ==> qn[s, a'] == (if lo <= a' < a then SweepValue(Q, s, a') else 0.0)
        invariant forall s', a' :: 0 <= s' < qn.Length0 && s' != s && 0 <= a' < qn.Length1 ==> qn[s', a'] == old(qn[s', a'])
      {
        var m := RowMaxOf(Q, S[s, a]);
        qn[s, a] := R[s, a] + gamma * m;
      }
    }

    /** A sweep is a contraction by `gamma`: tables within `d` of each other
        are swept into tables within `gamma * d`. */
    lemma SweepContracts(q1: array2<real>, q2: array2<real>, d: real)
      requires Tables() && Shaped(q1, N) && Shaped(q2, N) && 0.0 <= gamma
      requires forall i, j :: 0 <= i < q1.Length0 && 0 <= j < q1.Length1 ==> Abs(q1[i, j] - q2[i, j]) <= d
      ensures forall s: nat, a: nat :: s <= N && a <= DISCRETIZATION ==>
        Abs(SweepValue(q1, s, a) - SweepValue(q2, s, a)) <= gamma * d
    {
      assert 0.0 <= d by { assert Abs(q1[0, 0] - q2[0, 0]) <= d; }
      forall s: nat, a: nat | s <= N && a <= DISCRETIZATION
        ensures Abs(SweepValue(q1, s, a) - SweepValue(q2, s, a)) <= gamma * d
      {
        RowMaxClose(q1, q2, S[s, a], d);
        CellContracts(q1, q2, s, a, d);
      }
    }

    /** One cell of `SweepContracts`. */
    lemma CellContracts(q1: array2<real>, q2: array2<real>, s: nat, a: nat, d: real)
      requires Tables() && Shaped(q1, N) && Shaped(q2, N) && 0.0 <= gamma && 0.0 <= d
      requires s <= N && a <= DISCRETIZATION
      requires Abs(RowMax(q1, S[s, a]) - RowMax(q2, S[s, a])) <= d
      ensures Abs(SweepValue(q1, s, a) - SweepValue(q2, s, a)) <= gamma * d
    {
      var (lo, hi) := actions[s];
      if lo <= a < hi {
        var row := S[s, a];
        DiscountedDifference(gamma, RowMax(q1, row), RowMax(q2, row), R[s, a], d,
                             SweepValue(q1, s, a), SweepValue(q2, s, a));
      } else {
        MulNonneg(gamma, d);
      }
    }

    /** With a discount below 1, a sweep keeps the action values within
        their bound. */
    lemma SweepBounded(q: array2<real>)
      requires Tables() && Shaped(q, N) && 0.0 <= gamma < 1.0 && Bounded(q)
      ensures forall s: nat, a: nat :: s <= N && a <= DISCRETIZATION ==>
        0.0 <= SweepValue(q, s, a) && SweepValue(q, s, a) * (1.0 - gamma) <= 1.0
    {
      forall s: nat, a: nat | s <= N && a <= DISCRETIZATION
        ensures 0.0 <= SweepValue(q, s, a) && SweepValue(q, s, a) * (1.0 - gamma) <= 1.0
      {
        var row := S[s, a];
        assert 0 <= row <= N;
        RowMaxBounded(q, row);
        CellBounded(q, s, a);
      }
    }

    /** The best action value of a row of a bounded table is bounded. */
    lemma RowMaxBounded(q: array2<real>, row: int)
      requires Bounded(q) && 0 <= row < q.Length0 && 0 < q.Length1
      ensures 0.0 <= RowMax(q, row) && RowMax(q, row) * (1.0 - gamma) <= 1.0
    {
      var j :| 0 <= j < q.Length1 && Row(q, row)[j] == RowMax(q, row);
      assert q[row, j] == RowMax(q, row);
    }

    /** One cell of `SweepBounded`. */
    lemma CellBounded(q: array2<real>, s: nat, a: nat)
      requires Tables() && Shaped(q, N) && 0.0 <= gamma < 1.0 && s <= N && a <= DISCRETIZATION
      requires 0.0 <= RowMax(q, S[s, a]) && RowMax(q, S[s, a]) * (1.0 - gamma) <= 1.0
      ensures 0.0 <= SweepValue(q, s, a) && SweepValue(q, s, a) * (1.0 - gamma) <= 1.0
    {
      var (lo, hi) := actions[s];
      if lo <= a < hi {
        assert Unit(R[s, a]);
        GeometricBound(gamma, R[s, a], RowMax(q, S[s, a]));
      }
    }

    /** A table swept from a bounded one is bounded. */
    lemma SweptBounded(q: array2<real>, qn: array2<real>)
      requires Tables() && Shaped(q, N) && Shaped(qn, N) && 0.0 <= gamma < 1.0 && Bounded(q)
      requires forall s: nat, a: nat :: s <= N && a <= DISCRETIZATION ==> qn[s, a] == SweepValue(q, s, a)
      ensures Bounded(qn)
    {
      SweepBounded(q);
      forall i, j | 0 <= i < qn.Length0 && 0 <= j < qn.Length1
        ensures 0.0 <= qn[i, j] && qn[i, j] * (1.0 - gamma) <= 1.0
      {
        assert qn[i, j] == SweepValue(q, i, j);
      }
    }

    /** Every cell of `q` is within `gamma * epsilon` of its swept value. */
    ghost predicate Settled(q: array2<real>)
      requires Tables() && Shaped(q, N)
      reads this`R, this`S, R, S, q
    {
      forall s: nat, a: nat :: s <= N && a <= DISCRETIZATION ==> Abs(SweepValue(q, s, a) - q[s, a]) <= gamma * epsilon
    }

    /** Once a sweep moves no value by `e` or more, with `e` below
        `epsilon`, the swept table is within `gamma * epsilon` of its own
        sweep. */
    lemma SweptResidual(q: array2<real>, qn: array2<real>, e: real)
      requires Tables() && Shaped(q, N) && Shaped(qn, N) && 0.0 <= gamma && e < epsilon
      requires forall s: nat, a: nat :: s <= N && a <= DISCRETIZATION ==> qn[s, a] == SweepValue(q, s, a)
      requires forall i, j :: 0 <= i < q.Length0 && 0 <= j < q.Length1 ==> Abs(q[i, j] - qn[i, j]) <= e
      ensures Settled(qn)
    {
      assert 0.0 <= e by { assert Abs(q[0, 0] - qn[0, 0]) <= e; }
      var c, b := gamma * e, gamma * epsilon;
      assert c <= b by { MulLeft(e, epsilon, gamma); }
      forall s: nat, a: nat | s <= N && a <= DISCRETIZATION
        ensures Abs(SweepValue(qn, s, a) - qn[s, a]) <= b
      {
        var row := S[s, a];
        assert 0 <= row <= N;
        RowMaxClose(q, qn, row, e);
        CellResidual(q, qn, s, a, e, c, b);
      }
    }

    /** One cell of `SweptResidual`, with `c = gamma * e` and `b = gamma * epsilon`. */
    lemma CellResidual(q: array2<real>, qn: array2<real>, s: nat, a: nat, e: real, c: real, b: real)
      requires Tables() && Shaped(q, N) && Shaped(qn, N) && 0.0 <= gamma && 0.0 <= e
      requires c == gamma * e && c <= b && s <= N && a <= DISCRETIZATION
      requires qn[s, a] == SweepValue(q, s, a)
      requires Abs(RowMax(q, S[s, a]) - RowMax(qn, S[s, a])) <= e
      ensures Abs(SweepValue(qn, s, a) - qn[s, a]) <= b
    {
      CellContracts(q, qn, s, a, e);
      Residual(SweepValue(q, s, a), SweepValue(qn, s, a), qn[s, a], c, b);
    }

    /** One pass of `run`'s loop: the table is replaced by its sweep, and
        `e` is the largest change; a change below `epsilon` leaves a table
        within `gamma * epsilon` of its own sweep. */
    method SweepOnce() returns (e: real)
      requires Valid()
      modifies this`Q
      ensures Valid() && fresh(Q)
      ensures forall s: nat, a: nat :: s <= N && a <= DISCRETIZATION ==> Q[s, a] == SweepValue(old(Q), s, a)
      ensures forall i, j :: 0 <= i < Q.Length0 && 0 <= j < Q.Length1 ==> Abs(old(Q)[i, j] - Q[i, j]) <= e
      ensures exists i, j :: 0 <= i < Q.Length0 && 0 <= j < Q.Length1 && e == Abs(old(Q)[i, j] - Q[i, j])
      ensures e < epsilon && 0.0 <= gamma ==> Settled(Q)
    {
      var q := Q;
      var qn := Sweep();
      e := MaxAbsDiff(q, qn);
      Q := qn;
      if 0.0 <= gamma < 1.0 {
        SweptBounded(q, qn);
      }
      if e < epsilon && 0.0 <= gamma {
        SweptResidual(q, qn, e);
      }
    }

    /** `run`, bounded by `fuel` sweeps. Every sweep replaces `Q` by the
        sweep of the previous table `prev`; the loop stops at the first sweep
        that moves no value by `epsilon` or more, and otherwise after `fuel`
        sweeps. On convergence the returned table is within
        `gamma * epsilon` of its own sweep. */
    method Run(fuel: nat) returns (converged: bool, result: array2<real>, sweeps: nat, ghost prev: array2<real>)
      requires Valid()
      modifies this`Q
      ensures Valid() && result == Q && Shaped(prev, N)
      ensures sweeps <= fuel && (converged || sweeps == fuel)
      ensures sweeps == 0 ==> Q == old(Q)
      ensures sweeps == 1 ==> prev == old(Q)
      ensures sweeps > 0 ==> forall s: nat, a: nat :: s <= N && a <= DISCRETIZATION ==> Q[s, a] == SweepValue(prev, s, a)
      ensures converged <==>
        sweeps > 0 && forall i, j :: 0 <= i < Q.Length0 && 0 <= j < Q.Length1 ==> Abs(prev[i, j] - Q[i, j]) < epsilon
      ensures converged && 0.0 <= gamma ==> Settled(Q)
    {
      converged := false;
      result := Q;
      prev := Q;
      sweeps := 0;
      while sweeps < fuel && !converged
        invariant Valid() && result == Q && Shaped(prev, N)
        invariant sweeps <= fuel
        invariant sweeps == 0 ==> Q == old(Q)
        invariant sweeps == 1 ==> prev == old(Q)
        invariant sweeps > 0 ==> forall s: nat, a: nat :: s <= N && a <= DISCRETIZATION ==> Q[s, a] == SweepValue(prev, s, a)
        invariant converged <==>
          sweeps > 0 && forall i, j :: 0 <= i < Q.Length0 && 0 <= j < Q.Length1 ==> Abs(prev[i, j] - Q[i, j]) < epsilon
        invariant converged && 0.0 <= gamma ==> Settled(Q)
        decreases fuel - sweeps
      {
        prev := Q;
        var e := SweepOnce();
        result := Q;
        converged := e < epsilon;
        sweeps := sweeps + 1;
      }
    }
  }
}
