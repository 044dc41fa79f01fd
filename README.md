# Classical cart-pole controllers, modelled in Dafny

The repository balances the gymnasium `CartPole-v1` pole with two classical
controllers and compares them with a PPO agent. This project models the two
classical controllers and the episode loops that drive them:

- `pid_controller`: a PID law on the pole angle with setpoint 0 (upright).
  The accumulated error is not kept in an object. It is passed in and handed
  back, and the runner threads it from one step to the next.
- `lqr_control`: fixed-gain state feedback `u = -(K . s)` with
  `K = [-1.0, -1.5, 35.0, 3.0]`.
- `run_pid_episode` and `run_lqr_episode`: reset the environment, then loop
  at most `max_steps` times. Each iteration computes the control signal, maps
  it to action 1 if `u > 0` and 0 otherwise, steps the environment and adds
  the reward. The loop stops on `terminated or truncated`. Each runner
  returns `(total_reward, step + 1)`.

Layout:

- `episode.dfy`, module `Episode`. It holds the observation and response
  records, the environment, the action mapping and the reference definition
  of an episode. `Rollout` and `EpisodeTrace` give the sequence of ticks the
  loop executes, one tick per iteration. A `Policy<C>` is a controller with
  memory `C`. The PID controller's memory is its integral. The state-feedback
  controller's memory is the unit type, since it has none.
- `pid_control.dfy`, module `ClassicalPid`. It holds the PID law, the runner
  `RunPidEpisode` and lemmas about the integral.
- `lqr_control.dfy`, module `ClassicalLqr`. It holds the state-feedback law,
  the runner `RunLqrEpisode` and lemmas about linearity and statelessness.

The environment is external. `Environment<E>` is a pair of transition
functions over a hidden environment state `E`: `reset` gives the first
observation, and `step` gives the response to an action. Nothing is assumed
about either function. As a result, every property holds for any dynamics,
including responses that depend on the actions taken and on internal
randomness, which lives inside `E`.

Each runner is a `while` loop with `break`. It is proved against the
reference definition: the step count it returns is the number of ticks in
the episode, and the reward it returns is the sum of their rewards. The
lemmas then prove what the source code implies about those episodes.

Python floats are modelled as mathematical reals.

## Model

| member | source | states |
|---|---|---|
| ClassicalPid.PidController | src/classical_pid_control.py:21-43 | The PID law itself, as a definition with no contract of its own: error `-theta`, integral plus `error * dt`, derivative `-theta_dot`, `u = kp * e + ki * I + kd * d`. The rows for PidAtRest, PidTwoCalls, PidDriveIntegral, PidIntegralAfter and PidWindup state what is proved about it. |
| ClassicalPid.PidPolicy | src/classical_pid_control.py:54-65 | The call the runner makes, as a definition with no contract of its own: the law with `dt = 0.02` and the default gains 50/1/5, whose memory is the integral. PidEpisodeControl and RunPidEpisode are about episodes of this controller. |
| ClassicalPid.PidEpisode | src/classical_pid_control.py:52-79 | A PID episode, as a definition with no contract of its own: the whole episode of `PidPolicy` with the integral started at 0, as line 55 resets it. RunPidEpisode is proved against it, and PidEpisodeControl and PidNoCarryOver are about it. |
| ClassicalPid.PidAtRest | src/classical_pid_control.py:33-43 | With angle 0, rate 0 and integral 0, the signal is 0 and the integral stays 0, for every `dt` and every set of gains. |
| ClassicalPid.PidTwoCalls | src/classical_pid_control.py:22-43 | Two calls with angle 1 and `dt = 0.1`, starting from integral 0, with the default gains 50/1/5: the integral becomes -0.1 and then -0.2, and the second signal is a stronger push left than the first. |
| ClassicalPid.PidDriveIntegral | src/classical_pid_control.py:55-65 | Fed observations in order, the controller evaluates the law at step `k` on integral `i0 - dt * (sum of the angles before k)`. No other input feeds the integral. |
| ClassicalPid.PidIntegralAfter | src/classical_pid_control.py:36-65 | After `k + 1` evaluations the integral is `i0` minus `dt` times the sum of the first `k + 1` angles. |
| ClassicalPid.PidWindup | src/classical_pid_control.py:36 | The integral is never clamped. Holding the angle at `theta` for `n` steps from 0 makes the integral exactly `-n * theta * dt`. |
| ClassicalPid.PidEpisodeControl | src/classical_pid_control.py:55-69 | At every step `k` of a PID episode, the signal is the law evaluated with the integral rebuilt from zero over the angles read in steps `0..k`. The action is 1 exactly when that signal is positive. |
| ClassicalPid.PidNoCarryOver | src/classical_pid_control.py:55-65 | The integral restarts at 0 in every episode. So two PID episodes whose controllers read the same observations have the same length and take the same actions, whatever the two environments are. |
| ClassicalPid.RunPidEpisode | src/classical_pid_control.py:46-79 | The returned count is the number of loop iterations of the PID episode, and it lies in `[1, max_steps]`. The returned total is the sum of the rewards of exactly those iterations. |
| ClassicalLqr.LqrControl | src/classical_lqr_control.py:23-38 | The state-feedback law `u = -(K . s)` with the constant `K`, as a definition with no contract of its own. LqrExpanded, LqrLinear, LqrAtRest, LqrDriveStateless and LqrEpisodeControl state what is proved about it. |
| ClassicalLqr.LqrPolicy | src/classical_lqr_control.py:54-56 | The call the runner makes, as a definition with no contract of its own: the law applied to the observation, with an empty memory. |
| ClassicalLqr.LqrEpisode | src/classical_lqr_control.py:46-69 | A state-feedback episode, as a definition with no contract of its own: the whole episode of `LqrPolicy`. RunLqrEpisode is proved against it, and LqrEpisodeControl is about it. |
| ClassicalLqr.LqrExpanded | src/classical_lqr_control.py:34-37 | The law is `u = x + 1.5 * x_dot - 35 * theta - 3 * theta_dot`. |
| ClassicalLqr.LqrLinear | src/classical_lqr_control.py:36-37 | The law is linear: `u(a * s1 + b * s2) == a * u(s1) + b * u(s2)`. |
| ClassicalLqr.LqrAtRest | src/classical_lqr_control.py:37-59 | The zero state gives `u = 0`, and `u = 0` maps to action 0. |
| ClassicalLqr.LqrDriveStateless | src/classical_lqr_control.py:23-38 | Fed any sequence of observations, the law's answer at position `k` depends only on observation `k`, not on the calls before it. |
| ClassicalLqr.LqrEpisodeControl | src/classical_lqr_control.py:54-59 | At every step of a state-feedback episode, the signal is the law applied to that step's observation. The action is 1 exactly when that signal is positive. |
| ClassicalLqr.RunLqrEpisode | src/classical_lqr_control.py:41-69 | The returned count is the number of loop iterations of the state-feedback episode, and it lies in `[1, max_steps]`. The returned total is the sum of the rewards of exactly those iterations. |
| Episode.ActionOf | src/classical_pid_control.py:69 | The action is 0 or 1, and it is 1 exactly when `u > 0`. Zero and negative signals give 0. The state-feedback runner uses the same rule, at src/classical_lqr_control.py:59. |
| Episode.Done | src/classical_pid_control.py:72 | `done = terminated or truncated`, as a definition with no contract of its own. The state-feedback runner computes the same at src/classical_lqr_control.py:62. |
| Episode.Rollout | src/classical_pid_control.py:57-77 | The loop of both runners (also src/classical_lqr_control.py:50-67), as a definition with no contract of its own: one tick per iteration, stopping after the first done response or when the iterations run out. RolloutExit, RolloutNeverDone and RolloutChain state what is proved about it. |
| Episode.EpisodeTrace | src/classical_pid_control.py:52-79 | A whole episode (also src/classical_lqr_control.py:46-69), as a definition with no contract of its own: reset, then the loop from the controller's initial memory. EpisodeExit, NeverDoneRunsToCap, FirstResponseDone and SameObservationsSameActions state what is proved about it, and both runners are proved to compute its length and total reward. |
| Episode.TotalReward | src/classical_pid_control.py:53-74 | What `total_reward` means, as a definition with no contract of its own: the sum of the rewards of the executed iterations, started at 0 (line 53) and added once per iteration (line 74). The state-feedback runner does the same at src/classical_lqr_control.py:47-64. Both runners are proved to return it. |
| Episode.RolloutExit | src/classical_pid_control.py:57-77 | With at least one iteration allowed, between 1 and `fuel` iterations run. No iteration before the last reports done. Stopping before the cap implies the last one did. |
| Episode.EpisodeExit | src/classical_pid_control.py:57-79 | For a whole episode with `max_steps >= 1`: between 1 and `max_steps` iterations run. The loop exits at the first response that reports `terminated or truncated`, or at the cap. |
| Episode.RolloutNeverDone | src/classical_pid_control.py:57-77 | If no response ever reports done, the loop uses all its iterations. |
| Episode.NeverDoneRunsToCap | src/classical_lqr_control.py:50-69 | If the environment never reports done, an episode runs exactly `max_steps` iterations. |
| Episode.FirstResponseDone | src/classical_pid_control.py:71-79 | If the first response is done, the episode is that single iteration, and its total is that response's reward. |
| Episode.RolloutChain | src/classical_pid_control.py:62-71 | Consecutive iterations chain: the first reads the reset observation, and each later one reads the observation the previous step returned. Each action is the discretised signal. The signals are those of the controller fed the observations in order. |
| Episode.DriveLength | src/classical_pid_control.py:65 | A helper about the model's own `Drive` (the controller folded over a sequence of observations): it gives one answer per observation. The lemmas about `Drive` use it. |
| Episode.RolloutStep | src/classical_pid_control.py:65-77 | A helper for the runners' loop invariants: one iteration adds one tick and its reward, and either the response is done and nothing follows, or the rollout with one iteration less follows from the new observation. |
| Episode.SameObservationsSameActions | src/classical_lqr_control.py:46-59 | Two episodes of the same controller, started from the same memory, whose controllers read the same observations produce the same signals and actions. Both runners are instances of this. |

## Left out

- render/sleep: the `render` flag and `time.sleep(dt)` (src/classical_pid_control.py:58-59, src/classical_lqr_control.py:51-52) only pace the display, so they are not modelled.
- `main()` in both files is not modelled. It creates the environment, prints results, averages them with numpy and closes the environment: all I/O and library calls.
- src/train_ppo.py and src/evaluate_ppo.py are not part of this model. They are PPO training and evaluation in a foreign library, plus file I/O.
- The CartPole dynamics are abstract: `reset` and `step` are arbitrary functions over a hidden state. The mutable gymnasium environment object is modelled by threading that state as a value. So aliasing of the environment between runners is not modelled. Neither runner returns the environment state it ends in: the Python runners leave `env` advanced, and `main` reuses the same `env` for its five episodes (src/classical_pid_control.py:89-90, src/classical_lqr_control.py:78-79). Each model call starts from a given state `e0`, and the state after the episode is not handed back.
- Floats: Python floats are modelled as reals, so IEEE rounding, overflow and NaN are not modelled. For example, the exact `-0.2` in `PidTwoCalls` is exact only over reals.
- The `info` dictionaries returned by `reset` and `step` are dropped, since the runners never read them.
- RunPidEpisode: requires `max_steps >= 1`. With `max_steps <= 0` the Python loop body never runs, and `step + 1` at src/classical_pid_control.py:79 raises an error because `step` is unbound. That error path is not modelled; negative values are outside `nat` and zero is excluded by the precondition.
- RunLqrEpisode: requires `max_steps >= 1`, for the same reason as the PID runner (`step + 1` at src/classical_lqr_control.py:69 with `max_steps <= 0`).
- Environment errors: an exception raised by `env.reset` or `env.step` propagates out of both runners unhandled and ends the run. The model's `reset` and `step` are total functions, so that failure path is not modelled.
- The default `max_steps = 500` is a caller's choice, and the model takes `max_steps` as a parameter.
- `lqr_control` accepts any 4-element state. The model takes the observation record directly, which gives the same four components in the same order.

## Notes

- An object-oriented reading of the PID controller would keep the integral as a resettable field. In the code, the integral is an argument and a return value of a pure function, and the runner zeroes it at the start of each episode. The model follows the code. The no-carry-over property is therefore proved about the runner's episode (`PidNoCarryOver`), not about an object.
- The total reward is defined as a sum over the executed iterations. The runner adds rewards in execution order. Over reals the order of additions does not change the sum.
