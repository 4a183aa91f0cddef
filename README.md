# Intergenerational mobility under affirmative action, in Dafny

This project models the core of the `aamodel` package, which simulates how
opportunities are allocated in a population. Each individual is privileged or
unprivileged. Its chance of success is `a * sigma` for ability `a`, and a
privileged individual adds `tau` to that. A budget `alpha` of opportunities is
shared out by two thresholds:

- `theta_0` for the unprivileged;
- `theta_1` for the privileged.

Successful individuals become privileged. A child then draws its class: a
privileged parent's child becomes unprivileged when a first draw falls at or
below `p_A` and a second at or below `phi_0`, and an unprivileged parent's
child becomes privileged when a first draw falls at or below `p_D` and a
second above `phi_0`. Every other child keeps its parent's class.

The model has six modules:

- `Common` (`common.dfy`): the `Result` type for Python exceptions
  (`ZeroDivision`, `AssertionFailed`), `Max`/`Min`/`Abs`, truncation toward zero
  (`int(x)`), and the real-arithmetic lemmas the other modules use.
- `UniformDistribution` (`uniform_distribution.dfy`): the closed-form
  allocation arithmetic for abilities uniform on [0, 1]. The class keeps no
  state, so it is modelled as functions and lemmas. The batched numpy forms are
  the scalar functions mapped over a sequence.
- `SolverDist` (`solver_dist.dfy`): the `uniform_dist` helpers of the draft
  solver and the per-cell formulas of `mdp_solver.init_R_S`. Three of these
  helpers are wrong as written (see "Findings"). Each is modelled as written,
  with a lemma that exhibits the fault, and as corrected, with the intended
  property proved.
- `Mdp` (`mdp_solver.dfy`): the value-iteration solver `mdp_solver`, with its
  tables as `array2`s.
  - `InitRS` fills the reward and transition tables in nested loops.
  - `Sweep` builds a fresh action-value table from the current one.
  - `Run` repeats sweeps until two successive tables differ by less than
    `epsilon`.
  - The lemmas prove that a sweep contracts distances by `gamma` and keeps
    action values within `1 / (1 - gamma)`. On convergence the table is within
    `gamma * epsilon` of its own sweep.
- `Agents` (`agent.dfy`): the agent state machine. `Agent` is a class whose
  methods update its fields in place. Each method is proved equal to a pure
  transition function on `AgentState` snapshots, and the source's promises are
  proved about those functions.
- `Generations` (`generation.dfy`): a population of `Agent` objects.
  - Its invariant ties `nPrivileged` to the number of privileged agents.
  - `Step` advances every agent with the pre-step `phi_0`, counts the
    successes, and recounts the privileged.

Every random number the source draws (`random()` and `a_dist()`) is a parameter
of the model. This makes each transition a deterministic function of its
inputs.

## Model

| member | source | states |
|---|---|---|
| UniformDistribution.AllowedActions | aamodel/uniform_distribution.py:37-68 | for `phi_0`, `sigma`, `alpha` in [0, 1] the returned interval satisfies `0 <= lower <= upper <= sigma`, so the assertion at line 67 never fails |
| UniformDistribution.AllowedActionsAtNoUnprivileged | aamodel/uniform_distribution.py:57-62 | with `phi_0 = 0` every threshold is allowed: the interval is `[0, sigma]` |
| UniformDistribution.UncappedBoundsOrdered | aamodel/uniform_distribution.py:64-66 | for `0 < phi_0 <= 1` the uncapped lower bound is at most the uncapped upper bound and at most `sigma`, and the uncapped upper bound is not negative |
| UniformDistribution.AllowedProducts | aamodel/uniform_distribution.py:64-66 | a threshold inside the allowed interval satisfies `phi_0*sigma - sigma*alpha <= phi_0*theta_0 <= sigma*(1 - alpha)` |
| UniformDistribution.Theta1FromTheta0 | aamodel/uniform_distribution.py:97-103 | for `phi_0 != 1` and `sigma != 0` the unprivileged and privileged shares served add up to exactly `alpha` |
| UniformDistribution.BudgetBalanced | aamodel/uniform_distribution.py:97-98 | the closed form of `theta_1` balances the budget: `phi_0(sigma - theta_0)/sigma + (1 - phi_0)(tau + sigma - theta_1)/sigma = alpha` |
| UniformDistribution.Theta1AtNoPrivileged | aamodel/uniform_distribution.py:99-103 | with `phi_0 = 1` the result is `tau + sigma`, whatever `theta_0` is |
| UniformDistribution.Theta1WithinPrivilegedRange | aamodel/uniform_distribution.py:97-103 | every allowed `theta_0` yields a `theta_1` in `[tau, tau + sigma]`, an allocation the privileged group can fill |
| UniformDistribution.Theta1AllUnprivileged | aamodel/uniform_distribution.py:97-98 | with `phi_0 = 0` the closed form lies in `[tau, tau + sigma]` |
| UniformDistribution.Theta1Interior | aamodel/uniform_distribution.py:97-98 | for `0 < phi_0 < 1`, once `phi_0*theta_0` is within the allowed products, `theta_1` lies in `[tau, tau + sigma]` |
| UniformDistribution.Theta1AboveRange | aamodel/uniform_distribution.py:37-68 | for `0 < phi_0 < 1`, a threshold in `[0, sigma]` below the allowed interval forces `theta_1` above `tau + sigma`: the budget cannot be spent exactly |
| UniformDistribution.Theta1BelowRange | aamodel/uniform_distribution.py:37-68 | for `0 < phi_0 < 1`, a threshold in `[0, sigma]` above the allowed interval forces `theta_1` below `tau`: the privileged cannot absorb the rest of the budget |
| UniformDistribution.AllowedIffTheta1InRange | aamodel/uniform_distribution.py:37-68 | for `0 < phi_0 < 1` and a threshold in `[0, sigma]`: the threshold is allowed if and only if the balancing `theta_1` lies in `[tau, tau + sigma]` |
| UniformDistribution.UnprivPayoff | aamodel/uniform_distribution.py:146 | the unprivileged term is the share served times the mean success probability `(sigma + theta_0)/2` of those served |
| UniformDistribution.PrivPayoff | aamodel/uniform_distribution.py:138-143 | inside the privileged range the privileged term is the share served times the mean success probability `(tau + sigma + theta_1)/2`; above the range (`tau + sigma < theta_1`) it is 0 |
| UniformDistribution.GetPayoff | aamodel/uniform_distribution.py:131-150 | aborts with the assertion when `theta_0 > sigma` and with a division error when `sigma = 0`; any payoff it returns lies in `[0, alpha]` |
| UniformDistribution.PayoffWithinBudget | aamodel/uniform_distribution.py:127-149 | for parameters in the documented domain and an allowed `theta_0`, `get_payoff` does not abort and returns unprivileged plus privileged term |
| UniformDistribution.PayoffBelowShares | aamodel/uniform_distribution.py:138-148 | the total payoff is at least 0 and at most the total share of the population served |
| UniformDistribution.UnprivPayoffBelowShare | aamodel/uniform_distribution.py:146 | `0 <= unprivileged term <= unprivileged share <= phi_0` |
| UniformDistribution.PrivPayoffBelowShare | aamodel/uniform_distribution.py:138-143 | inside the privileged range `0 <= privileged term <= privileged share` |
| UniformDistribution.SharesWithinBudget | aamodel/uniform_distribution.py:72-74 | an allowed threshold never allocates more than the budget `alpha` |
| UniformDistribution.Phi0Post | aamodel/uniform_distribution.py:153-173 | succeeds exactly when `theta_0 <= sigma` and `sigma != 0`; the result is `phi_0` minus the unprivileged payoff term and lies in `[0, phi_0]` |
| UniformDistribution.Phi0PostBounded | aamodel/uniform_distribution.py:172-173 | for `0 <= theta_0 <= sigma <= 1` the post-allocation fraction lies in `[0, phi_0]` |
| UniformDistribution.Theta1Batch | aamodel/uniform_distribution.py:96-104 | the batch has one `theta_1` per `theta_0`, each the scalar result |
| UniformDistribution.GetPayoffs | aamodel/uniform_distribution.py:131-150 | the batch aborts if any `theta_0 > sigma`; it succeeds exactly when every element does, and then holds each scalar payoff |
| UniformDistribution.Phi0PostBatch | aamodel/uniform_distribution.py:172-173 | succeeds exactly when `sigma != 0` and every `theta_0 <= sigma`; element `i` is the scalar result for `theta_0[i]` |
| UniformDistribution.PayoffsWithinBudget | aamodel/uniform_distribution.py:149 | a batch of allowed thresholds never trips the final assertion: every payoff lies in `[0, alpha]` |
| SolverDist.GetTheta1 | aamodel/solver.py:43-48 | exactly `tau + sigma/2`, the midpoint of `[tau, tau + sigma]`, when `phi_0 = 1`; otherwise the closed form of `theta_1_from_theta_0`, whose shares add up to `alpha` when `sigma != 0` |
| SolverDist.ExpectedPrivPayoffAsWritten | aamodel/solver.py:52-57 | below `tau` the value `(1 - phi_0)(tau + sigma)/2` of line 54; from `tau` upwards exactly the corrected `ExpectedPrivPayoff`, so the two differ only below `tau`; a division error only in the quadratic branch with `sigma = 0` |
| SolverDist.PrivPayoffAsWrittenDropsBelowTau | aamodel/solver.py:53-54 | as written, lowering `theta_1` below `tau` lowers the payoff (0.75 to 0.5 at `phi_0 = 0`, `sigma = tau = 0.5`) |
| SolverDist.ExpectedPrivPayoff | aamodel/solver.py:52-57 | the corrected payoff: a division error exactly in the quadratic branch with `sigma = 0`; below `tau` exactly that payoff `(1 - phi_0)(tau + sigma/2)` of serving every privileged agent, above `tau + sigma` exactly 0, and any value between 0 and that payoff |
| SolverDist.PrivPayoffMonotone | aamodel/solver.py:52-57 | the corrected payoff never grows when `theta_1` is raised |
| SolverDist.PrivPayoffAgreesWithUniform | aamodel/solver.py:57 | inside the privileged range the helper agrees with the privileged term of `get_payoff` in uniform_distribution.py |
| SolverDist.ExpectedUnprivPayoff | aamodel/solver.py:62-65 | 0 when `theta_0 > sigma`; a division error exactly when `theta_0 <= sigma = 0`; for `theta_0 <= sigma` it is the unprivileged term of `get_payoff`; for `0 <= theta_0` and `sigma <= 1` any value returned lies in `[0, phi_0]` |
| SolverDist.ExpectedPayoffAsWritten | aamodel/solver.py:70-78 | the reachable code as written: fails exactly when `N = 0` or `sigma = 0` |
| SolverDist.ExpectedPayoffAsWrittenOutOfRange | aamodel/solver.py:74-78 | as written the expected payoff, a fraction of the population, can be 1.25 or -0.75 |
| SolverDist.ExpectedPayoff | aamodel/solver.py:85-90 | the guarded sum of the two group payoffs: any value returned lies in [0, 1]; `N = 0` is a division error |
| SolverDist.SumOfFractions | aamodel/solver.py:85-90 | succeeds exactly when both terms and their sum are in [0, 1], and then returns the sum |
| SolverDist.ExpectedPayoffWithinUnit | aamodel/solver.py:85-90 | for a positive population, proper `sigma` and `tau` and `theta_0 >= 0`, none of the three assertions fails and the payoff is the sum of the group payoffs |
| SolverDist.ActionBounds | aamodel/solver.py:93-99 | `(0, 1)` when `phi_0 = 0`; any interval returned satisfies `0 <= lower <= upper <= 1`; the only error is the failed assertion at line 98 |
| SolverDist.ActionBoundsContainAllowed | aamodel/solver.py:96-98 | for `phi_0`, `sigma`, `alpha` in [0, 1] the assertion never fails; the interval has the lower end of `allowed_actions` and contains its upper end |
| SolverDist.ActionRange | aamodel/solver.py:188-191 | the discretised bounds `int(lower*D), int(upper*D)` satisfy `0 <= lower_action <= upper_action <= DISCRETIZATION` |
| SolverDist.Phi0PostDraft | aamodel/solver.py:168-172 | for `theta_0 <= sigma` it is `phi_0_post` of uniform_distribution.py; within `[0, phi_0]` for `0 <= theta_0` and `sigma <= 1` |
| SolverDist.Mobility | aamodel/solver.py:174-177 | the next generation's unprivileged fraction is in [0, 1] for fractions and probabilities in [0, 1], and equals the current one without movement |
| SolverDist.MobilityBounds | aamodel/solver.py:174-176 | the mobility polynomial maps [0, 1] into [0, 1] |
| SolverDist.NextStateAsWritten | aamodel/solver.py:179-180 | as written `S[s, a]` is `int(phi_0_post)`: for `s <= N`, `0 < sigma <= 1` and `theta_0 <= sigma` it is 0 or 1, never a count of agents |
| SolverDist.NextStateAsWrittenIsBoolean | aamodel/solver.py:179-180 | as written every serving action maps every state to 0 or 1 |
| SolverDist.NextStateAsWrittenLosesState | aamodel/solver.py:179-180 | with N = 10, all unprivileged and `theta_0 = sigma = 0.5`, the table stores 1 where the corrected count is 10 |
| SolverDist.NextState | aamodel/solver.py:174-177 | the corrected transition, `int(mobility(phi_0_post) * N)`, is a state in `[0, N]`; with no movement and a threshold nobody meets, it is the current state |
| Common.Trunc | aamodel/solver.py:190-191 | Python's `int()` on a float: the largest whole number not above a nonnegative value, and the smallest not below a negative one |
| Mdp.InitRS | aamodel/solver.py:155-180 | fresh `(N+1) x (DISCRETIZATION+1)` tables where `R[s, a]` is the expected payoff and `S[s, a]` the next state for `phi_0 = s/N`, `theta_0 = a/DISCRETIZATION` |
| Mdp.Theta0 | aamodel/solver.py:161 | action `a` stands for the threshold `a / DISCRETIZATION`, a fraction in [0, 1] for every action of the table |
| Mdp.BuiltTablesInRange | aamodel/solver.py:155-177 | every reward in the built tables is in [0, 1] and every transition is a valid row index |
| Mdp.SeqMax | aamodel/solver.py:198 | `np.max` is an element of the row that no element exceeds |
| Mdp.RowMaxOf | aamodel/solver.py:198 | the scan returns `np.max(Q[row])` |
| Mdp.MaxAbsDiff | aamodel/solver.py:199 | `max_e` bounds every elementwise distance of the two tables and is attained at some cell |
| Mdp.StateActions | aamodel/solver.py:187-191 | the action range of state `s` lies within `[0, DISCRETIZATION]` |
| Mdp.SweptRewardAboveBudget | aamodel/solver.py:186-196 | a state can sweep an action whose reward exceeds `alpha`, the condition the diagnostic `print` reports: with `N = 2`, `sigma = 0.4`, `tau = 0.6`, `alpha = 0.1`, state 1 sweeps actions 32 to 71, and action 50 pays 0.20475 |
| Mdp.MdpSolver.constructor | aamodel/solver.py:125-152 | stores the parameters, a zero `Q` of the table shape, and the tables of `init_R_S` |
| Mdp.MdpSolver.SweepValue | aamodel/solver.py:193-198 | an action outside the state's range `[lower_action, upper_action)` keeps the value 0 of the fresh table |
| Mdp.MdpSolver.SweepValueIsBest | aamodel/solver.py:194-198 | an allowed action is worth its reward plus the discounted value of some action of the next state, and no action of that state gives more |
| Mdp.MdpSolver.Sweep | aamodel/solver.py:185-198 | a fresh table with `Q_new[s, a] = R[s, a] + gamma * max(Q[S[s, a]])` for `a` in the swept range and 0 elsewhere, read from the previous `Q` only |
| Mdp.MdpSolver.SweepRow | aamodel/solver.py:188-198 | row `s` of the sweep is filled and every other row is left as it was |
| Mdp.MdpSolver.SweepContracts | aamodel/solver.py:197-198 | a sweep is a contraction: tables within `d` are swept to tables within `gamma * d` |
| Mdp.MdpSolver.SweepBounded | aamodel/solver.py:197-198 | for `gamma < 1` a sweep keeps every action value in `[0, 1/(1 - gamma)]` |
| Mdp.MdpSolver.SweptResidual | aamodel/solver.py:199-202 | once a sweep changes no cell by `epsilon` or more, the new table is within `gamma * epsilon` of its own sweep |
| Mdp.MdpSolver.SweepOnce | aamodel/solver.py:185-200 | `Q` is replaced by a fresh table holding the sweep of the old one; `e` is the largest elementwise change (`max_e`); the invariant and the value bound are kept; a change below `epsilon` leaves a table within `gamma * epsilon` of its own sweep |
| Mdp.MdpSolver.Run | aamodel/solver.py:183-202 | performs at most `fuel` sweeps, all of them unless it converges; after a sweep `Q` is the sweep of the previous table `prev`; it reports convergence exactly when that last sweep moved every value by less than `epsilon`, and then `Q` is within `gamma * epsilon` of its own sweep; with no sweep `Q` is unchanged, and after one sweep `prev` is the initial table |
| Agents.SuccessProb | aamodel/agent.py:49-50 | for ability in [0, 1] an unprivileged success probability lies in `[0, sigma]` and a privileged one in `[tau, tau + sigma]` |
| Agents.SuccessProbRange | aamodel/agent.py:49-50 | privilege adds exactly `tau`; for ability in [0, 1] the unprivileged probability lies in `[0, sigma]` and the privileged in `[tau, tau + sigma]` |
| Agents.Initial | aamodel/agent.py:39-55 | a new agent has the given ability, class and parameters, success probability `a*sigma + [privileged]*tau`, and all three flags false |
| Agents.GiveOpportunity | aamodel/agent.py:66-81 | `maybe_given` is set; `given` iff the success probability reaches the class's threshold; `succeeded` iff given and the draw is at most the success probability; the result is `succeeded`; success makes the agent privileged; nothing else changes |
| Agents.OpportunityNeverDemotes | aamodel/agent.py:77-79 | a privileged agent stays privileged |
| Agents.CertainSuccess | tests/test_agent.py:72-88 | an agent with success probability 1 is given the opportunity, succeeds and is privileged for any thresholds in [0, 1] and draw in [0, 1) |
| Agents.OffspringPrivilege | aamodel/agent.py:90-97 | a privileged parent's child is unprivileged iff `d1 <= p_A` and `d2 <= phi_0`; an unprivileged parent's child is privileged iff `d1 <= p_D` and `d2 > phi_0` |
| Agents.NoMovementInherits | aamodel/agent.py:90-97 | with `p_A = p_D = 0` and a positive first draw the child inherits the class |
| Agents.Offspring | aamodel/agent.py:86-105 | requires `maybe_given`; clears the three flags, draws the class anew, redraws the ability and leaves the success probability and parameters as they were |
| Agents.AgentStep | aamodel/agent.py:111-114 | the result is the allocation's success; the child's class is drawn from the post-allocation class; flags cleared, ability redrawn, success probability kept |
| Agents.StepWithoutMovement | tests/test_agent.py:241-260 | without movement a successful agent's child is privileged and any other child keeps its parent's class |
| Agents.Agent.IsPrivileged | aamodel/agent.py:59-60 | true exactly when the agent's recorded class is privileged |
| Agents.Agent.constructor | aamodel/agent.py:32-55 | the new agent's fields are `Initial(...)`, and the asserted success probability is in [0, 1] |
| Agents.Agent.MaybeGiveOpportunity | aamodel/agent.py:66-81 | the new fields and the result are `GiveOpportunity` of the old fields |
| Agents.Agent.ProduceOffspring | aamodel/agent.py:86-105 | the new fields are `Offspring` of the old fields |
| Agents.Agent.Step | aamodel/agent.py:111-114 | the new fields and the result are `AgentStep` of the old fields |
| Generations.CountSplit | aamodel/generation.py:59-61 | privileged plus unprivileged agents make up the whole population |
| Generations.CountPrefix | aamodel/generation.py:42-56 | when exactly the first `k` agents are privileged, the count is `k` |
| Generations.InitialStates | aamodel/generation.py:42-56 | `N` idle agents with the drawn abilities and the shared parameters, exactly `n_privileged` of them privileged |
| Generations.NextStates | aamodel/generation.py:79-80 | every agent steps with the same `phi_0`; the next generation has the same size and is idle |
| Generations.Successes | aamodel/generation.py:71-83 | the number of successes is at most the population size |
| Generations.AllSucceed | aamodel/generation.py:79-80 | when every agent clears both thresholds and its success draw, the count of successes is the population size |
| Generations.EveryonePromoted | tests/test_generation.py:69-90 | when everybody succeeds and nobody moves, `step` returns `N` and every offspring is privileged |
| Generations.Generation.constructor | aamodel/generation.py:23-56 | `n_privileged` privileged agents followed by `N - n_privileged` unprivileged ones, all distinct and idle, with the invariant established |
| Generations.Generation.Phi0 | aamodel/generation.py:59-61 | `1 - n_privileged/N`, a division error exactly when `N = 0` |
| Generations.Generation.Phi0IsUnprivilegedShare | aamodel/generation.py:59-61 | in a valid generation `phi_0` is the fraction of agents that are unprivileged, a number in [0, 1] |
| Generations.Generation.Advance | aamodel/generation.py:79-81 | one agent takes its step: its new fields are `AgentStep` of the old ones; the flags returned are its success and whether its offspring is privileged |
| Generations.Generation.StepAgents | aamodel/generation.py:76-81 | every agent steps in order; `n_privileged` counts the privileged offspring and the result counts the successes |
| Generations.Generation.Step | aamodel/generation.py:70-83 | with the pre-step `phi_0`, the agents become `NextStates` of the old ones; the result is the number of successes; the invariant (size, idle agents, `n_privileged` equals the privileged count) is kept; `N = 0` raises the division error with `n_privileged` unchanged |

## Left out

- Randomness: every `random()`, `a_dist()` and `randint` value is a parameter.
  - `Draws` holds an agent's four draws for one step. `produce_offspring`
    short-circuits, so the source skips the second movement draw after a
    failed first test; the model passes both draws regardless.
  - `n_privileged = None` (a `randint(0, N)` draw) becomes an explicit
    argument.
- Floating point: all arithmetic is exact over `real`. `isclose(x, c)` is read
  as `x == c`, and Python's `ZeroDivisionError` on `sigma = 0` or `N = 0` is an
  `Err(ZeroDivision)` result.
- `uniform_distribution.__init__` only asserts its defaults. Its parameter
  documentation (lines 12-22) is the `ValidParams` domain of the lemmas.
- aamodel/normal_distribution.py is not part of this model. It relies on
  scipy's Gaussian functions.
- The Q-learning `solver` class, `statistics` and the commented-out `world` in
  aamodel/solver.py are not part of this model, nor is the abstract
  `distribution` base class. Only `uniform_dist` is used by the model.
- `uniform_dist.sample` is a random draw and is left out.
- `generation.reset` is left out. It writes booleans rather than privileges
  into `c`, and only the Q-learning solver uses it.
- The `print` of an over-budget reward in `run` is I/O and is left out. Its
  condition can hold, because `action_bounds` caps the upper end at 1 rather
  than at `sigma`: `Mdp.SweptRewardAboveBudget` gives such a state and action.
- The `generation` object that the `mdp_solver` constructor builds is never
  used by `init_R_S` or `run`, so it is left out.
- Mdp.MdpSolver.Run: the source loops `while True`; the model stops after
  `fuel` sweeps and reports whether it converged. Non-termination is therefore
  not modelled. The contract ties the final table to the previous one through
  one sweep. The earlier tables of the chain are not named in it; each of
  those steps is stated by `SweepOnce`.
- Mdp.MdpSolver.constructor: requires `ValidConfig`, the documented parameter
  domain plus `N >= 1` and `sigma > 0`. Outside it the source divides by zero
  in `init_R_S` or builds tables that are not state indices.
- Mdp.InitRS: requires `ValidConfig` for the same reason.
- Mdp.MdpSolver: the action bounds of every state are computed once in the
  constructor rather than in every sweep. They depend only on the constants,
  so the sweeps are unchanged.
- Mdp.MdpSolver: `R` and `S` are the corrected tables (see "Findings").
- SolverDist.ExpectedUnprivPayoff: the unused `tau` parameter of the source is
  dropped.
- Agents.Agent.constructor: the source's assertion that the success
  probability is in [0, 1] is a precondition.
- Agents.Agent.ProduceOffspring: the source's assertion that `maybe_given`
  holds is a precondition.
- Agents.Offspring: the success probability is not recomputed from the new
  ability, because the source does not recompute it either.
- Generations.Generation.constructor: requires `n_privileged <= N`. With a
  larger value the source builds more than `N` agents.
- Generations.Generation: the agent list is never reassigned, so it is a
  constant sequence of mutable `Agent` objects.

## Findings

| source | as written | input that shows it | evidently intended | confidence | as-written member | corrected member |
|---|---|---|---|---|---|---|
| aamodel/solver.py:53-54 | below `tau` the privileged payoff is `(1 - phi_0)(tau + sigma)/2`, the mean of `[0, tau + sigma]` | `phi_0 = 0`, `sigma = tau = 0.5`: `theta_1 = 0.25` gives 0.5 but `theta_1 = 0.5` gives 0.75, so serving no additional agent lowers the payoff | `(1 - phi_0)(tau + sigma/2)`, the value of the quadratic branch at `theta_1 = tau`, so the payoff never grows with the threshold | medium, not executed | SolverDist.PrivPayoffAsWrittenDropsBelowTau | SolverDist.PrivPayoffMonotone |
| aamodel/solver.py:77-78 | the privileged factor `(1 - phi_0)/(2 sigma)` is added to the bracket instead of multiplying it, and the `phi_0 = 1` branch does not treat `theta_0 > sigma` | `N = 1`, no unprivileged, `sigma = 1`, `tau = 0`, `alpha = 0.5`, `theta_0 = 0`: payoff 1.25; all unprivileged, `theta_0 = 1 > sigma = 0.5`: payoff -0.75 | the guarded tail at lines 85-90: the sum of `expected_priv_payoff` and `expected_unpriv_payoff`, each asserted to be in [0, 1] | high, not executed | SolverDist.ExpectedPayoffAsWrittenOutOfRange | SolverDist.ExpectedPayoffWithinUnit |
| aamodel/solver.py:179-180 | `S[s, a]` stores `int(phi_0_post)`, a fraction truncated to 0 or 1, not a state index | `N = 10`, `s = 10`, `a = 50`, `sigma = 0.5`: the table stores 1 although the population is unchanged at 10 | the commented-out formula at lines 174-177: `int(mobility(phi_0_post) * N)`, a state in `[0, N]` | high, not executed | SolverDist.NextStateAsWrittenLosesState | SolverDist.NextState |
