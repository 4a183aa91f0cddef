/** One agent of the mobility model: its privilege, its ability, the success
    probability fixed when it is created, and the three flags that record
    what happened to it during the current opportunity allocation.

    The agent's fields are updated in place by its methods, so the agent is
    a class; `AgentState` is a snapshot of all its fields, and the pure
    functions over snapshots (`GiveOpportunity`, `Offspring`, `AgentStep`)
    are the specifications the methods are proved against. Every random
    draw of the source (`random()` and the ability distribution) is an
    argument. */
module Agents {
  import opened Common

  /** The circumstance `c` of an agent. */
  datatype Privilege = Privileged | NotPrivileged

  /** All fields of an agent at one moment. */
  datatype AgentState = AgentState(
    c: Privilege,
    a: real,              // ability
    sigma: real,          // ability multiplier
    tau: real,            // privilege multiplier
    pA: real,             // movement probability of privileged agents
    pD: real,             // movement probability of unprivileged agents
    successProb: real,
    maybeGiven: bool,     // considered for an opportunity
    given: bool,          // allocated an opportunity
    succeeded: bool)      // allocated an opportunity and succeeded

  /** The random numbers one agent consumes in one generation step: the
      success draw, the two movement draws of its offspring, and the
      offspring's ability. */
  datatype Draws = Draws(success: real, moveFirst: real, moveSecond: real, ability: real)

  /** `a * sigma + int(is_privileged) * tau`. A privileged agent's
      success probability lies `tau` above an unprivileged one's of the
      same ability, in `[tau, tau + sigma]` against `[0, sigma]` for an
      ability in `[0, 1]`. */
  function SuccessProb(a: real, c: Privilege, sigma: real, tau: real): (r: real)
    ensures Unit(a) && 0.0 <= sigma && c == NotPrivileged ==> 0.0 <= r <= sigma
    ensures Unit(a) && 0.0 <= sigma && c == Privileged ==> tau <= r <= tau + sigma
  {
    var base := a * sigma;
    assert Unit(a) && 0.0 <= sigma ==> 0.0 <= base <= sigma by {
      if Unit(a) && 0.0 <= sigma { ScaledBelow(sigma, a); }
    }
    base + (if c == Privileged then tau else 0.0)
  }

  lemma SuccessProbRange(a: real, sigma: real, tau: real)
    requires Unit(a) && 0.0 <= sigma && 0.0 <= tau
    ensures SuccessProb(a, Privileged, sigma, tau) - SuccessProb(a, NotPrivileged, sigma, tau) == tau
    ensures 0.0 <= SuccessProb(a, NotPrivileged, sigma, tau) <= sigma
    ensures tau <= SuccessProb(a, Privileged, sigma, tau) <= tau + sigma
  {
  }

  /** A newly constructed agent: its success probability is fixed from
      its first ability, and it has not been considered, given an
      opportunity or succeeded. */
  function Initial(a: real, c: Privilege, sigma: real, tau: real, pA: real, pD: real): (st: AgentState)
    ensures st.c == c && st.a == a && st.sigma == sigma && st.tau == tau && st.pA == pA && st.pD == pD
    ensures !st.maybeGiven && !st.given && !st.succeeded
    ensures st.successProb == SuccessProb(a, c, sigma, tau)
  {
    AgentState(c, a, sigma, tau, pA, pD, SuccessProb(a, c, sigma, tau), false, false, false)
  }

  /** The threshold that applies to an agent: `theta_1` for the
      privileged, `theta_0` for everybody else. */
  function Threshold(c: Privilege, theta0: real, theta1: real): real
  {
    if c == Privileged then theta1 else theta0
  }

  /** `maybe_give_opportunity`: the new snapshot and the returned flag. */
  function GiveOpportunity(st: AgentState, theta0: real, theta1: real, draw: real): (r: (AgentState, bool))
    ensures r.0.maybeGiven
    ensures r.0.given <==> st.successProb >= Threshold(st.c, theta0, theta1)
    ensures r.0.succeeded <==> r.0.given && draw <= st.successProb
    ensures r.1 == r.0.succeeded
    ensures r.1 ==> r.0.c == Privileged
    ensures !r.1 ==> r.0.c == st.c
    ensures r.0.(c := st.c, maybeGiven := st.maybeGiven, given := st.given, succeeded := st.succeeded) == st
  {
    var given := st.successProb >= Threshold(st.c, theta0, theta1);
    var succeeded := given && draw <= st.successProb;
    var c := if succeeded then Privileged else st.c;
    (st.(c := c, maybeGiven := true, given := given, succeeded := succeeded), succeeded)
  }

  /** `maybe_give_opportunity` never demotes an agent. */
  lemma OpportunityNeverDemotes(st: AgentState, theta0: real, theta1: real, draw: real)
    requires st.c == Privileged
    ensures GiveOpportunity(st, theta0, theta1, draw).0.c == Privileged
  {
  }

  /** An agent whose success probability is 1 is given the opportunity and
      succeeds, whatever thresholds in `[0, 1]` and draw in `[0, 1)`. */
  lemma CertainSuccess(st: AgentState, theta0: real, theta1: real, draw: real)
    requires st.successProb == 1.0 && Unit(theta0) && Unit(theta1) && 0.0 <= draw < 1.0
    ensures GiveOpportunity(st, theta0, theta1, draw).1
    ensures GiveOpportunity(st, theta0, theta1, draw).0.c == Privileged
  {
  }

  /** The privilege of the offspring: a privileged parent's child falls
      only on two low draws (`<= p_A`, then `<= phi_0`), an unprivileged
      parent's child rises only on a low then a high draw (`<= p_D`, then
      `> phi_0`). */
  function OffspringPrivilege(c: Privilege, pA: real, pD: real, phi0: real, d1: real, d2: real): (r: Privilege)
    ensures c == Privileged ==> (r == NotPrivileged <==> d1 <= pA && d2 <= phi0)
    ensures c == NotPrivileged ==> (r == Privileged <==> d1 <= pD && d2 > phi0)
  {
    if c == Privileged then
      (if d1 <= pA && d2 <= phi0 then NotPrivileged else Privileged)
    else
      (if d1 <= pD && d2 > phi0 then Privileged else NotPrivileged)
  }

  /** With no movement (`p_A = p_D = 0`) and a positive first draw, the
      offspring inherits the parent's privilege. */
  lemma NoMovementInherits(c: Privilege, phi0: real, d1: real, d2: real)
    requires 0.0 < d1
    ensures OffspringPrivilege(c, 0.0, 0.0, phi0, d1, d2) == c
  {
  }

  /** `produce_offspring`, which may only follow an allocation: the
      privilege is drawn anew, the ability is redrawn, the flags are
      cleared, and the success probability is left as it was. */
  function Offspring(st: AgentState, phi0: real, draws: Draws): (r: AgentState)
    requires st.maybeGiven
    ensures !r.maybeGiven && !r.given && !r.succeeded
    ensures r.c == OffspringPrivilege(st.c, st.pA, st.pD, phi0, draws.moveFirst, draws.moveSecond)
    ensures r.a == draws.ability && r.successProb == st.successProb
    ensures r.sigma == st.sigma && r.tau == st.tau && r.pA == st.pA && r.pD == st.pD
  {
    var c := OffspringPrivilege(st.c, st.pA, st.pD, phi0, draws.moveFirst, draws.moveSecond);
    st.(c := c, a := draws.ability, maybeGiven := false, given := false, succeeded := false)
  }

  /** `step`: an allocation followed by offspring production; the flag is
      the allocation's. */
  function AgentStep(st: AgentState, theta0: real, theta1: real, phi0: real, draws: Draws): (r: (AgentState, bool))
    ensures r.1 <==> st.successProb >= Threshold(st.c, theta0, theta1) && draws.success <= st.successProb
    ensures r.0.c == OffspringPrivilege(if r.1 then Privileged else st.c, st.pA, st.pD, phi0, draws.moveFirst, draws.moveSecond)
    ensures !r.0.maybeGiven && !r.0.given && !r.0.succeeded
    ensures r.0.a == draws.ability && r.0.successProb == st.successProb
    ensures r.0.sigma == st.sigma && r.0.tau == st.tau && r.0.pA == st.pA && r.0.pD == st.pD
  {
    var (mid, succeeded) := GiveOpportunity(st, theta0, theta1, draws.success);
    (Offspring(mid, phi0, draws), succeeded)
  }

  /** Without movement, one step makes a successful agent's offspring
      privileged and otherwise passes the parent's privilege on. */
  lemma StepWithoutMovement(st: AgentState, theta0: real, theta1: real, phi0: real, draws: Draws)
    requires st.pA == 0.0 && st.pD == 0.0 && 0.0 < draws.moveFirst
    ensures var r := AgentStep(st, theta0, theta1, phi0, draws);
      r.0.c == (if r.1 then Privileged else st.c)
  {
    var mid := GiveOpportunity(st, theta0, theta1, draws.success).0;
    NoMovementInherits(mid.c, phi0, draws.moveFirst, draws.moveSecond);
  }

  class Agent {
    var c: Privilege
    var a: real
    const sigma: real
    const tau: real
    const pA: real
    const pD: real
    const successProb: real
    var maybeGiven: bool
    var given: bool
    var succeeded: bool

    /** The snapshot of every field. */
    function State(): AgentState
      reads this
    {
      AgentState(c, a, sigma, tau, pA, pD, successProb, maybeGiven, given, succeeded)
    }

    /** `agent(a_dist, c, sigma, tau, p_A, p_D)`, with `ability` the first
        draw of `a_dist`; the source asserts the success probability is in
        `[0, 1]`. */
    constructor(ability: real, c: Privilege, sigma: real, tau: real, pA: real, pD: real)
      requires Unit(SuccessProb(ability, c, sigma, tau))
      ensures State() == Initial(ability, c, sigma, tau, pA, pD)
      ensures Unit(successProb)
    {
      this.c := c;
      this.a := ability;
      this.sigma := sigma;
      this.tau := tau;
      this.pA := pA;
      this.pD := pD;
      this.successProb := SuccessProb(ability, c, sigma, tau);
      this.maybeGiven := false;
      this.given := false;
      this.succeeded := false;
    }

    /** `is_privileged`: the class recorded in the agent's snapshot. */
    predicate IsPrivileged()
      reads this
      ensures IsPrivileged() <==> State().c == Privileged
    {
      c == Privileged
    }

    method MaybeGiveOpportunity(theta0: real, theta1: real, draw: real) returns (success: bool)
      modifies this
      ensures (State(), success) == GiveOpportunity(old(State()), theta0, theta1, draw)
    {
      var threshold := if IsPrivileged() then theta1 else theta0;
      maybeGiven := true;
      given := successProb >= threshold;
      succeeded := given && draw <= successProb;
      if succeeded {
        c := Privileged;
      }
      success := succeeded;
    }

    method ProduceOffspring(phi0: real, draws: Draws)
      requires maybeGiven
      modifies this
      ensures State() == Offspring(old(State()), phi0, draws)
    {
      if IsPrivileged() {
        c := if draws.moveFirst <= pA && draws.moveSecond <= phi0 then NotPrivileged else Privileged;
      } else {
        c := if draws.moveFirst <= pD && draws.moveSecond > phi0 then Privileged else NotPrivileged;
      }
      a := draws.ability;
      maybeGiven := false;
      given := false;
      succeeded := false;
    }

    method Step(theta0: real, theta1: real, phi0: real, draws: Draws) returns (success: bool)
      modifies this
      ensures (State(), success) == AgentStep(old(State()), theta0, theta1, phi0, draws)
    {
      success := MaybeGiveOpportunity(theta0, theta1, draws.success);
      ProduceOffspring(phi0, draws);
    }
  }
}
