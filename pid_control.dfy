/** PID control of the pole angle (setpoint: upright, angle 0) and the episode
    runner that drives the cart-pole with it. The integral of the error is not
    kept in an object: it is passed into the control law and returned from it,
    and the runner threads it from one step to the next. */
module ClassicalPid {
  import opened Episode

  /** Proportional, integral and derivative gains. */
  datatype Gains = Gains(kp: real, ki: real, kd: real)

  /** The gains the runner uses (the defaults of the control law). */
  const DefaultGains: Gains := Gains(50.0, 1.0, 5.0)

  /** The runner's time step, the cart-pole's own integration step. */
  const Dt: real := 0.02

  /** What one evaluation of the control law returns: the signal and the
      updated integral of the error. */
  datatype PidOutput = PidOutput(u: real, integral: real)

  /** The PID law. The error is the negated angle, the integral grows by the
      error times `dt` (forward Euler, no clamping), and the derivative of the
      error is taken as the negated angular rate. */
  function PidController(theta: real, thetaDot: real, integral: real, dt: real, g: Gains): PidOutput
  {
    var error := 0.0 - theta;
    var integral' := integral + error * dt;
    var derivative := -thetaDot;
    PidOutput(g.kp * error + g.ki * integral' + g.kd * derivative, integral')
  }

  /** The controller as the runner uses it: memory is the integral, gains and
      time step are the runner's. */
  function PidPolicy(integral: real, s: State): (real, real)
  {
    var out := PidController(s.theta, s.thetaDot, integral, Dt, DefaultGains);
    (out.integral, out.u)
  }

  /** A PID episode: the integral starts at zero in every episode. */
  function PidEpisode<E>(env: Environment<E>, e0: E, maxSteps: nat): seq<Tick>
  {
    EpisodeTrace(env, PidPolicy, 0.0, e0, maxSteps)
  }

  /** The sum of the pole angles of a sequence of observations. */
  function SumTheta(obs: seq<State>): real
    decreases |obs|
  {
    if obs == [] then 0.0 else SumTheta(obs[..|obs| - 1]) + obs[|obs| - 1].theta
  }

  lemma {:induction false} SumThetaCons(o: State, obs: seq<State>)
    decreases |obs|
    ensures SumTheta([o] + obs) == o.theta + SumTheta(obs)
  {
    if obs != [] {
      var n := |obs|;
      assert ([o] + obs)[..n] == [o] + obs[..n - 1];
      SumThetaCons(o, obs[..n - 1]);
    }
  }

  /** At rest (upright, still, nothing accumulated) the signal is zero and the
      integral stays zero, whatever the time step and gains. */
  lemma PidAtRest(dt: real, g: Gains)
    ensures PidController(0.0, 0.0, 0.0, dt, g) == PidOutput(0.0, 0.0)
  {
  }

  /** Two calls with angle 1 and time step 0.1 from a zero integral: the
      integral becomes -0.1 and then -0.2, and the second signal is the larger
      push to the left. */
  lemma PidTwoCalls()
    ensures var r1 := PidController(1.0, 0.0, 0.0, 0.1, DefaultGains);
            var r2 := PidController(1.0, 0.0, r1.integral, 0.1, DefaultGains);
            r1.integral == -0.1 && r2.integral == -0.2 && r2.u < r1.u < 0.0
  {
  }

  /** The controller fed observations in order from integral `i0`: at step
      `k` it evaluates the law on the integral `i0 - Dt * (sum of the angles
      before k)`; nothing else feeds the integral. */
  lemma {:induction false} PidDriveIntegral(i0: real, obs: seq<State>, k: nat)
    requires k < |obs|
    decreases |obs|
    ensures |Drive(PidPolicy, i0, obs)| == |obs|
    ensures Drive(PidPolicy, i0, obs)[k] == PidPolicy(i0 - Dt * SumTheta(obs[..k]), obs[k])
  {
    DriveLength(PidPolicy, i0, obs);
    if k > 0 {
      var i1 := PidPolicy(i0, obs[0]).0;
      assert Drive(PidPolicy, i0, obs)[k] == Drive(PidPolicy, i1, obs[1..])[k - 1];
      PidDriveIntegral(i1, obs[1..], k - 1);
      assert obs[..k] == [obs[0]] + obs[1..][..k - 1];
      SumThetaCons(obs[0], obs[1..][..k - 1]);
    }
  }

  /** After k+1 evaluations from integral `i0` the integral is `i0` plus the
      sum of `-theta_i * Dt` over those steps. */
  lemma PidIntegralAfter(i0: real, obs: seq<State>, k: nat)
    requires k < |obs|
    ensures |Drive(PidPolicy, i0, obs)| == |obs|
    ensures Drive(PidPolicy, i0, obs)[k].0 == i0 - Dt * SumTheta(obs[..k + 1])
  {
    PidDriveIntegral(i0, obs, k);
    assert obs[..k + 1][..k] == obs[..k];
  }

  lemma {:induction false} SumThetaConstant(obs: seq<State>, theta: real)
    requires forall i :: 0 <= i < |obs| ==> obs[i].theta == theta
    decreases |obs|
    ensures SumTheta(obs) == |obs| as real * theta
  {
    if obs != [] {
      SumThetaConstant(obs[..|obs| - 1], theta);
    }
  }

  /** No anti-windup: holding the angle at `theta` for n steps from a zero
      integral drives the integral to exactly `-n * theta * Dt`, with no bound. */
  lemma PidWindup(obs: seq<State>, theta: real)
    requires |obs| > 0
    requires forall i :: 0 <= i < |obs| ==> obs[i].theta == theta
    ensures |Drive(PidPolicy, 0.0, obs)| == |obs|
    ensures Drive(PidPolicy, 0.0, obs)[|obs| - 1].0 == -(|obs| as real) * theta * Dt
  {
    var n := |obs|;
    PidIntegralAfter(0.0, obs, n - 1);
    assert obs[..n] == obs;
    SumThetaConstant(obs, theta);
    assert SumTheta(obs[..n]) == n as real * theta;
  }

  /** In an episode, the signal at step k is the PID law with the integral
      rebuilt from zero over the angles read in steps 0..k, and the action is 1
      exactly when that signal is positive. */
  lemma PidEpisodeControl<E>(env: Environment<E>, e0: E, maxSteps: nat, t: seq<Tick>)
    requires t == PidEpisode(env, e0, maxSteps)
    ensures forall k :: 0 <= k < |t| ==>
      var s := t[k].obs;
      var integral := -Dt * SumTheta(Observations(t)[..k + 1]);
      && t[k].u == DefaultGains.kp * -s.theta + DefaultGains.ki * integral + DefaultGains.kd * -s.thetaDot
      && (t[k].action == PushRight <==> t[k].u > 0.0)
  {
    var (e, obs) := env.reset(e0);
    RolloutChain(env, PidPolicy, e, 0.0, obs, maxSteps, t);
    var os := Observations(t);
    forall k | 0 <= k < |t|
      ensures t[k].u == DefaultGains.kp * -t[k].obs.theta
                        + DefaultGains.ki * (-Dt * SumTheta(os[..k + 1]))
                        + DefaultGains.kd * -t[k].obs.thetaDot
    {
      PidIntegralAfter(0.0, os, k);
      PidDriveIntegral(0.0, os, k);
    }
  }

  /** No carry-over between episodes: two PID episodes whose controllers read
      the same observations take the same actions. */
  lemma PidNoCarryOver<E1, E2>(env1: Environment<E1>, e1: E1, n1: nat, env2: Environment<E2>, e2: E2, n2: nat,
                               t1: seq<Tick>, t2: seq<Tick>)
    requires t1 == PidEpisode(env1, e1, n1) && t2 == PidEpisode(env2, e2, n2)
    requires Observations(t1) == Observations(t2)
    ensures |t1| == |t2|
    ensures forall i :: 0 <= i < |t1| ==> t1[i].action == t2[i].action
  {
    SameObservationsSameActions(env1, env2, PidPolicy, 0.0, e1, e2, n1, n2, t1, t2);
  }

  /** The PID episode runner: reset, zero the reward and the integral, then
      loop at most `maxSteps` times, computing the signal, mapping it to an
      action, stepping the environment, adding the reward and stopping on
      `terminated or truncated`. Returns the total reward and `step + 1`,
      where `step` is the loop index at exit. */
  method RunPidEpisode<E>(env: Environment<E>, e0: E, maxSteps: nat) returns (totalReward: real, steps: nat)
    requires maxSteps >= 1
    ensures steps == |PidEpisode(env, e0, maxSteps)|
    ensures totalReward == TotalReward(PidEpisode(env, e0, maxSteps))
    ensures 1 <= steps <= maxSteps
  {
    var (e, obs) := env.reset(e0);
    totalReward := 0.0;
    var integral := 0.0;
    ghost var trace := PidEpisode(env, e0, maxSteps);
    ghost var rest := Rollout(env, PidPolicy, e, integral, obs, maxSteps);
    var step := 0;
    var k := 0;
    while k < maxSteps
      invariant 0 <= k <= maxSteps
      invariant k > 0 ==> step == k - 1
      invariant rest == Rollout(env, PidPolicy, e, integral, obs, maxSteps - k)
      invariant |trace| == k + |rest|
      invariant TotalReward(trace) == totalReward + TotalReward(rest)
    {
      step := k;
      ghost var before := integral;
      var out := PidController(obs.theta, obs.thetaDot, integral, Dt, DefaultGains);
      var u := out.u;
      integral := out.integral;
      var action := if u > 0.0 then 1 else 0;
      var (e', response) := env.step(e, action);
      RolloutStep(env, PidPolicy, e, before, obs, maxSteps - k, integral, u, action, e', response, maxSteps - (k + 1));
      totalReward := totalReward + response.reward;
      e, obs := e', response.obs;
      if response.terminated || response.truncated {
        break;
      }
      rest := Rollout(env, PidPolicy, e, integral, obs, maxSteps - (k + 1));
      k := k + 1;
    }
    steps := step + 1;
  }
}
