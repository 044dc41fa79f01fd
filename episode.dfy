/** The episode harness shared by both classical controllers: the cart-pole
    observation, the simulation environment seen through its reset/step
    interface, the mapping of a continuous control signal to a discrete action,
    and the reference definition of one episode as the sequence of loop
    iterations it executes. */
module Episode {

  /** One cart-pole observation: cart position, cart velocity, pole angle
      (radians) and pole angular velocity. */
  datatype State = State(x: real, xDot: real, theta: real, thetaDot: real)

  /** What one environment step reports; the `info` dictionary is dropped. */
  datatype Response = Response(obs: State, reward: real, terminated: bool, truncated: bool)

  /** The loop of both runners stops on `terminated or truncated`. */
  predicate Done(r: Response)
  {
    r.terminated || r.truncated
  }

  /** The simulation environment as the runners use it. Its hidden state `E`
      (physics, step counter, random generator) is threaded explicitly:
      `reset` yields the first observation, `step` the response to an action.
      Nothing is assumed about either function. */
  datatype Environment<!E> = Environment(reset: E -> (E, State), step: (E, int) -> (E, Response))

  /** The two discrete actions of the cart-pole. */
  const PushLeft: int := 0
  const PushRight: int := 1

  /** Discretisation of a control signal: push right exactly when `u` is
      strictly positive; zero and negative signals push left. */
  function ActionOf(u: real): (a: int)
    ensures a == PushLeft || a == PushRight
    ensures a == PushRight <==> u > 0.0
  {
    if u > 0.0 then PushRight else PushLeft
  }

  /** One executed loop iteration: the observation the controller read, the
      control signal it produced, the action sent and the environment's reply. */
  datatype Tick = Tick(obs: State, u: real, action: int, response: Response)

  /** A controller with memory `C`: from its memory and the current
      observation it yields its new memory and a control signal. */
  type Policy<!C> = (C, State) -> (C, real)

  /** The ticks executed from observation `obs`, environment state `e` and
      controller memory `c`, with at most `fuel` iterations left: the loop stops
      after the first response that is done, or when the fuel runs out. */
  function Rollout<E, C>(env: Environment<E>, policy: Policy<C>, e: E, c: C, obs: State, fuel: nat): seq<Tick>
    decreases fuel
  {
    if fuel == 0 then []
    else
      var answer := policy(c, obs);
      var a := ActionOf(answer.1);
      var reply := env.step(e, a);
      var t := Tick(obs, answer.1, a, reply.1);
      if Done(reply.1) then [t] else [t] + Rollout(env, policy, reply.0, answer.0, reply.1.obs, fuel - 1)
  }

  /** A whole episode: reset the environment, start the controller from its
      initial memory `c0`, then run at most `maxSteps` iterations. */
  function EpisodeTrace<E, C>(env: Environment<E>, policy: Policy<C>, c0: C, e0: E, maxSteps: nat): seq<Tick>
  {
    var start := env.reset(e0);
    Rollout(env, policy, start.0, c0, start.1, maxSteps)
  }

  /** The sum of the rewards of the given ticks. */
  function TotalReward(ts: seq<Tick>): real
    decreases |ts|
  {
    if ts == [] then 0.0 else ts[0].response.reward + TotalReward(ts[1..])
  }

  /** The observations the controller read, one per tick. */
  function Observations(ts: seq<Tick>): seq<State>
  {
    seq(|ts|, i requires 0 <= i < |ts| => ts[i].obs)
  }

  /** A controller fed a sequence of observations, starting from memory `c`:
      element `i` is its memory after, and its signal for, observation `i`. */
  function Drive<C>(policy: Policy<C>, c: C, obs: seq<State>): seq<(C, real)>
    decreases |obs|
  {
    if obs == [] then []
    else
      var answer := policy(c, obs[0]);
      [answer] + Drive(policy, answer.0, obs[1..])
  }

  /** The controller answers once per observation. */
  lemma {:induction false} DriveLength<C>(policy: Policy<C>, c: C, obs: seq<State>)
    decreases |obs|
    ensures |Drive(policy, c, obs)| == |obs|
  {
    if obs != [] {
      DriveLength(policy, policy(c, obs[0]).0, obs[1..]);
    }
  }

  /** Exit rule of the loop: with at least one iteration allowed, at least one
      and at most `fuel` iterations run; no iteration but the last reports done;
      and stopping before the cap means the last one did. */
  lemma {:induction false} RolloutExit<E, C>(env: Environment<E>, policy: Policy<C>, e: E, c: C, obs: State, fuel: nat, t: seq<Tick>)
    requires fuel >= 1
    requires t == Rollout(env, policy, e, c, obs, fuel)
    decreases fuel
    ensures 1 <= |t| <= fuel
    ensures forall i :: 0 <= i < |t| - 1 ==> !Done(t[i].response)
    ensures |t| < fuel ==> Done(t[|t| - 1].response)
  {
    var (c', u) := policy(c, obs);
    var (e', r) := env.step(e, ActionOf(u));
    if !Done(r) && fuel > 1 {
      var rest := Rollout(env, policy, e', c', r.obs, fuel - 1);
      RolloutExit(env, policy, e', c', r.obs, fuel - 1, rest);
      assert t == [t[0]] + rest;
      forall i | 0 <= i < |t| - 1
        ensures !Done(t[i].response)
      {
        if i > 0 {
          assert t[i] == rest[i - 1];
        }
      }
    }
  }

  /** What one loop iteration contributes: with the controller's and the
      environment's answers named, the iteration adds one tick and its reward;
      if the response is done nothing follows, otherwise the rollout from the
      new observation, with one iteration less, follows. */
  lemma RolloutStep<E, C>(env: Environment<E>, policy: Policy<C>, e: E, c: C, obs: State, fuel: nat,
                          c': C, u: real, a: int, e': E, r: Response, fuel': nat)
    requires fuel >= 1 && fuel' == fuel - 1
    requires policy(c, obs) == (c', u)
    requires a == ActionOf(u)
    requires env.step(e, a) == (e', r)
    ensures var now := Rollout(env, policy, e, c, obs, fuel);
            var next := Rollout(env, policy, e', c', r.obs, fuel');
            && (Done(r) ==> |now| == 1 && TotalReward(now) == r.reward)
            && (!Done(r) ==> |now| == 1 + |next| && TotalReward(now) == r.reward + TotalReward(next))
  {
  }

  /** The exit rule for a whole episode: between 1 and `maxSteps` iterations,
      none but the last reports done, and an exit before the cap means the last
      one did. */
  lemma EpisodeExit<E, C>(env: Environment<E>, policy: Policy<C>, c0: C, e0: E, maxSteps: nat, t: seq<Tick>)
    requires maxSteps >= 1
    requires t == EpisodeTrace(env, policy, c0, e0, maxSteps)
    ensures 1 <= |t| <= maxSteps
    ensures forall i :: 0 <= i < |t| - 1 ==> !Done(t[i].response)
    ensures |t| < maxSteps ==> Done(t[|t| - 1].response)
  {
    var (e, obs) := env.reset(e0);
    RolloutExit(env, policy, e, c0, obs, maxSteps, t);
  }

  /** How consecutive ticks fit together: the first reads the initial
      observation, each next one reads the observation the previous step
      returned, each action is the discretised signal, and the signals are
      those of the controller fed the observations in order. */
  lemma {:induction false} RolloutChain<E, C>(env: Environment<E>, policy: Policy<C>, e: E, c: C, obs: State, fuel: nat, t: seq<Tick>)
    requires t == Rollout(env, policy, e, c, obs, fuel)
    decreases fuel
    ensures |t| > 0 ==> t[0].obs == obs
    ensures forall i :: 0 <= i < |t| - 1 ==> t[i + 1].obs == t[i].response.obs
    ensures forall i :: 0 <= i < |t| ==> t[i].action == ActionOf(t[i].u)
    ensures |Drive(policy, c, Observations(t))| == |t|
    ensures forall i :: 0 <= i < |t| ==> t[i].u == Drive(policy, c, Observations(t))[i].1
  {
    DriveLength(policy, c, Observations(t));
    if fuel > 0 {
      var (c', u) := policy(c, obs);
      var (e', r) := env.step(e, ActionOf(u));
      if !Done(r) {
        var rest := Rollout(env, policy, e', c', r.obs, fuel - 1);
        RolloutChain(env, policy, e', c', r.obs, fuel - 1, rest);
        assert t == [t[0]] + rest;
        assert Observations(t)[1..] == Observations(rest);
        var d := Drive(policy, c, Observations(t));
        assert d == [(c', u)] + Drive(policy, c', Observations(rest));
        forall i | 0 <= i < |t| - 1
          ensures t[i + 1].obs == t[i].response.obs
        {
          if i > 0 {
            assert t[i] == rest[i - 1] && t[i + 1] == rest[i];
          }
        }
        forall i | 0 <= i < |t|
          ensures t[i].action == ActionOf(t[i].u) && t[i].u == d[i].1
        {
          if i > 0 {
            assert t[i] == rest[i - 1] && d[i] == Drive(policy, c', Observations(rest))[i - 1];
          }
        }
      }
    }
  }

  /** An environment that never reports done lets the loop use all its fuel. */
  lemma {:induction false} RolloutNeverDone<E, C>(env: Environment<E>, policy: Policy<C>, e: E, c: C, obs: State, fuel: nat)
    requires forall e: E, a: int :: !Done(env.step(e, a).1)
    decreases fuel
    ensures |Rollout(env, policy, e, c, obs, fuel)| == fuel
  {
    if fuel > 0 {
      var (c', u) := policy(c, obs);
      var (e', r) := env.step(e, ActionOf(u));
      assert !Done(r);
      RolloutNeverDone(env, policy, e', c', r.obs, fuel - 1);
    }
  }

  /** Step cap: an environment that never reports done runs the episode for
      exactly `maxSteps` iterations. */
  lemma NeverDoneRunsToCap<E, C>(env: Environment<E>, policy: Policy<C>, c0: C, e0: E, maxSteps: nat)
    requires forall e: E, a: int :: !Done(env.step(e, a).1)
    ensures |EpisodeTrace(env, policy, c0, e0, maxSteps)| == maxSteps
  {
    var (e, obs) := env.reset(e0);
    RolloutNeverDone(env, policy, e, c0, obs, maxSteps);
  }

  /** Early exit: when the very first response is done, the episode is that
      single iteration and its reward is that response's reward. */
  lemma FirstResponseDone<E, C>(env: Environment<E>, policy: Policy<C>, c0: C, e0: E, maxSteps: nat, t: seq<Tick>)
    requires t == EpisodeTrace(env, policy, c0, e0, maxSteps)
    requires |t| > 0 && Done(t[0].response)
    ensures |t| == 1
    ensures TotalReward(t) == t[0].response.reward
  {
  }

  /** Controller memory starts afresh in every episode: two episodes, in any
      environments, whose controllers read the same observations produce the
      same control signals and the same actions. */
  lemma SameObservationsSameActions<E1, E2, C>(env1: Environment<E1>, env2: Environment<E2>, policy: Policy<C>, c0: C,
                                                e1: E1, e2: E2, n1: nat, n2: nat, t1: seq<Tick>, t2: seq<Tick>)
    requires t1 == EpisodeTrace(env1, policy, c0, e1, n1)
    requires t2 == EpisodeTrace(env2, policy, c0, e2, n2)
    requires Observations(t1) == Observations(t2)
    ensures |t1| == |t2|
    ensures forall i :: 0 <= i < |t1| ==> t1[i].u == t2[i].u && t1[i].action == t2[i].action
  {
    var (f1, o1) := env1.reset(e1);
    var (f2, o2) := env2.reset(e2);
    RolloutChain(env1, policy, f1, c0, o1, n1, t1);
    RolloutChain(env2, policy, f2, c0, o2, n2, t2);
  }
}
