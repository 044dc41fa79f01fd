/** Fixed-gain state feedback ("LQR-like") for the cart-pole: u = -(K . s)
    with a hard-coded gain vector, and the episode runner that drives the
    cart-pole with it. The law keeps no memory between calls. */
module ClassicalLqr {
  import opened Episode

  /** The gain vector, in the order of the observation. */
  const K: seq<real> := [-1.0, -1.5, 35.0, 3.0]

  /** The state-feedback law u = -(K . s), the dot product written out over
      the four components of the observation. */
  function LqrControl(s: State): real
  {
    -(K[0] * s.x + K[1] * s.xDot + K[2] * s.theta + K[3] * s.thetaDot)
  }

  /** Spelled out, the law pushes with the cart offset and velocity and
      against the pole angle and its rate. */
  lemma LqrExpanded(s: State)
    ensures LqrControl(s) == s.x + 1.5 * s.xDot - 35.0 * s.theta - 3.0 * s.thetaDot
  {
  }

  /** The combination a*s1 + b*s2 of two observations. */
  function CombineStates(a: real, s1: State, b: real, s2: State): State
  {
    State(a * s1.x + b * s2.x, a * s1.xDot + b * s2.xDot,
          a * s1.theta + b * s2.theta, a * s1.thetaDot + b * s2.thetaDot)
  }

  /** The law is linear: u(a*s1 + b*s2) == a*u(s1) + b*u(s2). */
  lemma LqrLinear(a: real, s1: State, b: real, s2: State)
    ensures LqrControl(CombineStates(a, s1, b, s2)) == a * LqrControl(s1) + b * LqrControl(s2)
  {
  }

  /** The zero state gives a zero signal, which maps to pushing left. */
  lemma LqrAtRest()
    ensures LqrControl(State(0.0, 0.0, 0.0, 0.0)) == 0.0
    ensures ActionOf(LqrControl(State(0.0, 0.0, 0.0, 0.0))) == PushLeft
  {
  }

  /** The law as the runner uses it: its memory is empty. */
  function LqrPolicy(m: (), s: State): ((), real)
  {
    ((), LqrControl(s))
  }

  /** A state-feedback episode. */
  function LqrEpisode<E>(env: Environment<E>, e0: E, maxSteps: nat): seq<Tick>
  {
    EpisodeTrace(env, LqrPolicy, (), e0, maxSteps)
  }

  /** Fed any sequence of observations, the law answers each from that
      observation alone. */
  lemma {:induction false} LqrDriveStateless(obs: seq<State>, k: nat)
    requires k < |obs|
    decreases |obs|
    ensures |Drive(LqrPolicy, (), obs)| == |obs|
    ensures Drive(LqrPolicy, (), obs)[k].1 == LqrControl(obs[k])
  {
    DriveLength(LqrPolicy, (), obs);
    if k > 0 {
      assert Drive(LqrPolicy, (), obs)[k] == Drive(LqrPolicy, (), obs[1..])[k - 1];
      LqrDriveStateless(obs[1..], k - 1);
    }
  }

  /** No history: at every step of an episode the signal is the law applied to
      that step's observation, and the action is 1 exactly when it is positive. */
  lemma LqrEpisodeControl<E>(env: Environment<E>, e0: E, maxSteps: nat, t: seq<Tick>)
    requires t == LqrEpisode(env, e0, maxSteps)
    ensures forall k :: 0 <= k < |t| ==>
      && t[k].u == LqrControl(t[k].obs)
      && (t[k].action == PushRight <==> LqrControl(t[k].obs) > 0.0)
  {
    var (e, obs) := env.reset(e0);
    RolloutChain(env, LqrPolicy, e, (), obs, maxSteps, t);
    var os := Observations(t);
    forall k | 0 <= k < |t|
      ensures t[k].u == LqrControl(t[k].obs)
    {
      LqrDriveStateless(os, k);
    }
  }

  /** The state-feedback episode runner: reset, zero the reward, then loop at
      most `maxSteps` times, computing the signal, mapping it to an action,
      stepping the environment, adding the reward and stopping on
      `terminated or truncated`. Returns the total reward and `step + 1`,
      where `step` is the loop index at exit. */
  method RunLqrEpisode<E>(env: Environment<E>, e0: E, maxSteps: nat) returns (totalReward: real, steps: nat)
    requires maxSteps >= 1
    ensures steps == |LqrEpisode(env, e0, maxSteps)|
    ensures totalReward == TotalReward(LqrEpisode(env, e0, maxSteps))
    ensures 1 <= steps <= maxSteps
  {
    var (e, obs) := env.reset(e0);
    totalReward := 0.0;
    ghost var trace := LqrEpisode(env, e0, maxSteps);
    ghost var rest := Rollout(env, LqrPolicy, e, (), obs, maxSteps);
    var step := 0;
    var k := 0;
    while k < maxSteps
      invariant 0 <= k <= maxSteps
      invariant k > 0 ==> step == k - 1
      invariant rest == Rollout(env, LqrPolicy, e, (), obs, maxSteps - k)
      invariant |trace| == k + |rest|
      invariant TotalReward(trace) == totalReward + TotalReward(rest)
    {
      step := k;
      var u := LqrControl(obs);
      var action := if u > 0.0 then 1 else 0;
      var (e', response) := env.step(e, action);
      RolloutStep(env, LqrPolicy, e, (), obs, maxSteps - k, (), u, action, e', response, maxSteps - (k + 1));
      totalReward := totalReward + response.reward;
      e, obs := e', response.obs;
      if response.terminated || response.truncated {
        break;
      }
      rest := Rollout(env, LqrPolicy, e, (), obs, maxSteps - (k + 1));
      k := k + 1;
    }
    steps := step + 1;
  }
}
