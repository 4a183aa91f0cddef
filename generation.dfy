/** A generation: `N` agents sharing one set of parameters, and the number
    of them that are privileged. A step advances every agent with the
    share of unprivileged agents measured before the step, counts the
    successes, and recounts the privileged offspring.

    `Generation` is a class over `Agent` objects, which its step updates in
    place; the functions over sequences of `AgentState` snapshots
    (`InitialStates`, `NextStates`, `Successes`, `CountPrivileged`) are the
    specifications its constructor and `Step` are proved against. */
module Generations {
  import opened Common
  import opened Agents

  /** Number of privileged agents among the first `n` of `sts`. */
  function PrivilegedAmong(sts: seq<AgentState>, n: nat): (r: nat)
    requires n <= |sts|
    ensures r <= n
  {
    if n == 0 then 0
    else PrivilegedAmong(sts, n - 1) + (if sts[n - 1].c == Privileged then 1 else 0)
  }

  /** Number of unprivileged agents among the first `n` of `sts`. */
  function UnprivilegedAmong(sts: seq<AgentState>, n: nat): (r: nat)
    requires n <= |sts|
    ensures r <= n
  {
    if n == 0 then 0
    else UnprivilegedAmong(sts, n - 1) + (if sts[n - 1].c == NotPrivileged then 1 else 0)
  }

  /** Number of privileged agents in `sts`. */
  function CountPrivileged(sts: seq<AgentState>): (r: nat)
    ensures r <= |sts|
  {
    PrivilegedAmong(sts, |sts|)
  }

  /** Number of unprivileged agents in `sts`. */
  function CountUnprivileged(sts: seq<AgentState>): (r: nat)
    ensures r <= |sts|
  {
    UnprivilegedAmong(sts, |sts|)
  }

  /** Every agent is either privileged or not. */
  lemma {:induction false} CountSplit(sts: seq<AgentState>, n: nat)
    requires n <= |sts|
    ensures PrivilegedAmong(sts, n) + UnprivilegedAmong(sts, n) == n
  {
    if n > 0 {
      CountSplit(sts, n - 1);
    }
  }

  /** When exactly the first `k` agents are privileged, `k` of the first
      `n >= k` are. */
  lemma {:induction false} CountPrefix(sts: seq<AgentState>, k: nat, n: nat)
    requires n <= |sts|
    requires forall i :: 0 <= i < |sts| ==> (sts[i].c == Privileged <==> i < k)
    ensures PrivilegedAmong(sts, n) == if n < k then n else k
  {
    if n > 0 {
      CountPrefix(sts, k, n - 1);
    }
  }

  /** No agent has been considered, given an opportunity or has succeeded. */
  predicate Idle(sts: seq<AgentState>)
  {
    forall i :: 0 <= i < |sts| ==> !sts[i].maybeGiven && !sts[i].given && !sts[i].succeeded
  }

  /** The circumstance the constructor gives agent `i`: the first
      `nPrivileged` agents are privileged, the rest are not. */
  function InitialPrivilege(i: nat, nPrivileged: nat): Privilege
  {
    if i < nPrivileged then Privileged else NotPrivileged
  }

  /** The agents a new generation holds, one per drawn ability. */
  function InitialStates(abilities: seq<real>, nPrivileged: nat, sigma: real, tau: real, pA: real, pD: real)
    : (r: seq<AgentState>)
    requires nPrivileged <= |abilities|
    ensures |r| == |abilities| && Idle(r)
    ensures CountPrivileged(r) == nPrivileged
    ensures forall i :: 0 <= i < |r| ==> r[i].a == abilities[i] && r[i].sigma == sigma && r[i].tau == tau
    ensures forall i :: 0 <= i < |r| ==> r[i].pA == pA && r[i].pD == pD
  {
    var r := seq(|abilities|, i requires 0 <= i < |abilities| =>
      Initial(abilities[i], InitialPrivilege(i, nPrivileged), sigma, tau, pA, pD));
    CountPrefix(r, nPrivileged, |r|);
    r
  }

  /** Every agent after one step, each given the same `phi0`. */
  function NextStates(sts: seq<AgentState>, theta0: real, theta1: real, phi0: real, draws: seq<Draws>)
    : (r: seq<AgentState>)
    requires |draws| == |sts|
    ensures |r| == |sts| && Idle(r)
    ensures forall i :: 0 <= i < |r| ==> r[i] == AgentStep(sts[i], theta0, theta1, phi0, draws[i]).0
  {
    seq(|sts|, i requires 0 <= i < |sts| => AgentStep(sts[i], theta0, theta1, phi0, draws[i]).0)
  }

  /** Number of agents among the first `n` whose step succeeds. */
  function SuccessesAmong(sts: seq<AgentState>, theta0: real, theta1: real, phi0: real, draws: seq<Draws>, n: nat)
    : (r: nat)
    requires |draws| == |sts| && n <= |sts|
    ensures r <= n
  {
    if n == 0 then 0
    else
      SuccessesAmong(sts, theta0, theta1, phi0, draws, n - 1)
        + (if AgentStep(sts[n - 1], theta0, theta1, phi0, draws[n - 1]).1 then 1 else 0)
  }

  /** Number of agents whose step succeeds. */
  function Successes(sts: seq<AgentState>, theta0: real, theta1: real, phi0: real, draws: seq<Draws>): (r: nat)
    requires |draws| == |sts|
    ensures r <= |sts|
  {
    SuccessesAmong(sts, theta0, theta1, phi0, draws, |sts|)
  }

  /** When every agent clears both thresholds and draws at most its
      success probability, everybody succeeds. */
  lemma {:induction false} AllSucceed(sts: seq<AgentState>, theta0: real, theta1: real, phi0: real, draws: seq<Draws>, n: nat)
    requires |draws| == |sts| && n <= |sts|
    requires forall i :: 0 <= i < |sts| ==>
      theta0 <= sts[i].successProb && theta1 <= sts[i].successProb && draws[i].success <= sts[i].successProb
    ensures SuccessesAmong(sts, theta0, theta1, phi0, draws, n) == n
  {
    if n > 0 {
      AllSucceed(sts, theta0, theta1, phi0, draws, n - 1);
      assert AgentStep(sts[n - 1], theta0, theta1, phi0, draws[n - 1]).1;
    }
  }

  /** When everybody succeeds and nobody moves, the whole next generation
      is privileged. */
  lemma EveryonePromoted(sts: seq<AgentState>, theta0: real, theta1: real, phi0: real, draws: seq<Draws>)
    requires |draws| == |sts|
    requires forall i :: 0 <= i < |sts| ==>
      theta0 <= sts[i].successProb && theta1 <= sts[i].successProb && draws[i].success <= sts[i].successProb
    requires forall i :: 0 <= i < |sts| ==> sts[i].pA == 0.0 && sts[i].pD == 0.0 && 0.0 < draws[i].moveFirst
    ensures Successes(sts, theta0, theta1, phi0, draws) == |sts|
    ensures CountPrivileged(NextStates(sts, theta0, theta1, phi0, draws)) == |sts|
  {
    AllSucceed(sts, theta0, theta1, phi0, draws, |sts|);
    var next := NextStates(sts, theta0, theta1, phi0, draws);
    forall i | 0 <= i < |sts|
      ensures next[i].c == Privileged
    {
      StepWithoutMovement(sts[i], theta0, theta1, phi0, draws[i]);
    }
    CountPrefix(next, |sts|, |sts|);
  }

  class Generation {
    const N: nat
    const sigma: real
    const tau: real
    const pA: real
    const pD: real
    const agents: seq<Agent>
    var nPrivileged: int

    /** The snapshots of the agents, in order. */
    ghost function States(): (r: seq<AgentState>)
      reads agents
      ensures |r| == |agents|
      ensures forall i :: 0 <= i < |agents| ==> r[i] == agents[i].State()
    {
      seq(|agents|, i reads agents requires 0 <= i < |agents| => agents[i].State())
    }

    /** `N` distinct agents, all carrying the generation's parameters and
        idle between steps, of which `nPrivileged` are privileged. */
    ghost predicate Valid()
      reads this, agents
    {
      && |agents| == N
      && (forall i, j :: 0 <= i < j < |agents| ==> agents[i] != agents[j])
      && (forall i :: 0 <= i < |agents| ==>
            agents[i].sigma == sigma && agents[i].tau == tau && agents[i].pA == pA && agents[i].pD == pD)
      && Idle(States())
      && nPrivileged == CountPrivileged(States())
    }

    /** `generation(a_dist, sigma, tau, n_privileged, p_A, p_D, N)`, with
        `abilities` the first draw of `a_dist` for each agent in order. */
    constructor(abilities: seq<real>, sigma: real, tau: real, nPrivileged: nat, pA: real, pD: real, N: nat)
      requires nPrivileged <= N && |abilities| == N
      requires forall i :: 0 <= i < N ==>
        Unit(SuccessProb(abilities[i], InitialPrivilege(i, nPrivileged), sigma, tau))
      ensures Valid()
      ensures this.N == N && this.nPrivileged == nPrivileged
      ensures this.sigma == sigma && this.tau == tau && this.pA == pA && this.pD == pD
      ensures States() == InitialStates(abilities, nPrivileged, sigma, tau, pA, pD)
      ensures forall i :: 0 <= i < N ==> fresh(agents[i])
    {
      ghost var init := InitialStates(abilities, nPrivileged, sigma, tau, pA, pD);
      var built: seq<Agent> := [];
      var i := 0;
      while i < N
        invariant 0 <= i <= N && |built| == i
        invariant forall j :: 0 <= j < i ==> fresh(built[j]) && built[j].State() == init[j]
        invariant forall j, k :: 0 <= j < k < i ==> built[j] != built[k]
      {
        var agent := new Agent(abilities[i], InitialPrivilege(i, nPrivileged), sigma, tau, pA, pD);
        built := built + [agent];
        i := i + 1;
      }
      this.N := N;
      this.sigma := sigma;
      this.tau := tau;
      this.pA := pA;
      this.pD := pD;
      this.agents := built;
      this.nPrivileged := nPrivileged;
      new;
      assert States() == init;
    }

    /** `phi_0`: the share of unprivileged agents, `1 - n_privileged / N`;
        Python raises `ZeroDivisionError` on an empty generation. */
    function Phi0(): (r: Result<real>)
      reads this
      ensures r.Err? <==> N == 0
      ensures r.Err? ==> r.error == ZeroDivision
    {
      if N == 0 then Err(ZeroDivision) else Ok(1.0 - nPrivileged as real / N as real)
    }

    /** In a valid generation `phi_0` is the fraction of agents that are
        unprivileged, a number in `[0, 1]`. */
    lemma Phi0IsUnprivilegedShare()
      requires Valid() && N > 0
      ensures Phi0() == Ok(CountUnprivileged(States()) as real / N as real)
      ensures Unit(Phi0().value)
    {
      var sts := States();
      CountSplit(sts, |sts|);
      var k := CountUnprivileged(sts);
      assert nPrivileged == N - k;
      ComplementFraction(k, N);
      FractionUnit(k, N);
    }

    /** Steps one agent, which moves from `st` to `next`. */
    static method Advance(agent: Agent, theta0: real, theta1: real, phi0: real, d: Draws, ghost st: AgentState, ghost next: AgentState)
      returns (succeeded: bool, privileged: bool)
      requires agent.State() == st
      requires next == AgentStep(st, theta0, theta1, phi0, d).0
      modifies agent
      ensures agent.State() == next
      ensures succeeded == AgentStep(st, theta0, theta1, phi0, d).1
      ensures privileged == (next.c == Privileged)
    {
      succeeded := agent.Step(theta0, theta1, phi0, d);
      privileged := agent.IsPrivileged();
    }

    /** The loop of `step`: each agent steps in order with the same `phi0`
        while the successes and the privileged offspring are counted. */
    method StepAgents(theta0: real, theta1: real, phi0: real, draws: seq<Draws>,
                      ghost before: seq<AgentState>, ghost after: seq<AgentState>)
      returns (successes: nat)
      requires |agents| == N && |draws| == N && |before| == N && |after| == N
      requires forall i, j :: 0 <= i < j < |agents| ==> agents[i] != agents[j]
      requires forall j {:trigger agents[j]} :: 0 <= j < N ==> agents[j].State() == before[j]
      requires forall j :: 0 <= j < N ==> after[j] == AgentStep(before[j], theta0, theta1, phi0, draws[j]).0
      modifies this`nPrivileged, agents
      ensures forall j {:trigger agents[j]} :: 0 <= j < N ==> agents[j].State() == after[j]
      ensures nPrivileged == PrivilegedAmong(after, N)
      ensures successes == SuccessesAmong(before, theta0, theta1, phi0, draws, N)
    {
      successes := 0;
      nPrivileged := 0;
      var i := 0;
      while i < N
        invariant 0 <= i <= N
        invariant forall j {:trigger agents[j]} :: 0 <= j < i ==> agents[j].State() == after[j]
        invariant forall j {:trigger agents[j]} :: i <= j < N ==> agents[j].State() == before[j]
        invariant nPrivileged == PrivilegedAmong(after, i)
        invariant successes == SuccessesAmong(before, theta0, theta1, phi0, draws, i)
      {
        var succeeded, privileged := Advance(agents[i], theta0, theta1, phi0, draws[i], before[i], after[i]);
        if succeeded {
          successes := successes + 1;
        }
        if privileged {
          nPrivileged := nPrivileged + 1;
        }
        i := i + 1;
      }
    }

    /** `step(theta_0, theta_1)`: every agent steps with the `phi_0` of the
        generation before the step; the result counts the successes. An
        empty generation raises before anything changes. */
    method Step(theta0: real, theta1: real, draws: seq<Draws>) returns (r: Result<nat>)
      requires Valid() && |draws| == N
      modifies this`nPrivileged, agents
      ensures Valid()
      ensures N == 0 ==> r == Err(ZeroDivision) && nPrivileged == old(nPrivileged)
      ensures N > 0 ==>
        var phi0 := old(Phi0()).value;
        && r == Ok(Successes(old(States()), theta0, theta1, phi0, draws))
        && States() == NextStates(old(States()), theta0, theta1, phi0, draws)
    {
      if N == 0 {
        return Err(ZeroDivision);
      }
      var phi0 := 1.0 - nPrivileged as real / N as real;
      ghost var before := States();
      ghost var after := NextStates(before, theta0, theta1, phi0, draws);
      var successes := StepAgents(theta0, theta1, phi0, draws, before, after);
      assert States() == after;
      r := Ok(successes);
    }
  }
}
