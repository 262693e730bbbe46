/** What a run of a stream worker does, proved about the cycles and the
    trace the worker produces. */
module RunFacts {
  import opened Labels
  import opened Config
  import opened Worker

  // ---- what a run does ----

  /** How many of the attempts emitted a record. */
  function EmittedCount(attempts: seq<Attempt>): (n: nat)
    ensures n <= |attempts|
    decreases |attempts|
  {
    if attempts == [] then 0 else (if attempts[0].Emitted? then 1 else 0) + EmittedCount(attempts[1..])
  }

  /** The attempt was decided by draw `d` against its message's probability
      and, if it emitted, it used emission `e`. */
  predicate AttemptFollows(messages: seq<MessageConfig>, env: Env, a: Attempt, d: nat, e: nat)
    requires ValidEnv(env)
  {
    && a.spec < |messages|
    && d < |env.draws|
    && (a.Emitted? <==> ShouldEmit(env.draws[d], ProbabilityOf(messages[a.spec])))
    && (a.Emitted? ==>
          && e < |env.emissions|
          && a.message == messages[a.spec]
          && a.emission == env.emissions[e])
  }

  /** Attempts that use the draws from `d` and the emissions from `e` one
      after the other, in order. */
  predicate Follows(messages: seq<MessageConfig>, env: Env, attempts: seq<Attempt>, d: nat, e: nat)
    requires ValidEnv(env)
    decreases |attempts|
  {
    attempts == [] ||
    (&& AttemptFollows(messages, env, attempts[0], d, e)
     && Follows(messages, env, attempts[1..], d + 1, e + if attempts[0].Emitted? then 1 else 0))
  }

  /** The attempts of a cycle are the stream's messages in order, all of
      them unless a `false` read cut the cycle short. */
  predicate InOrder(cycle: Cycle, n: nat) {
    && |cycle.attempts| <= n
    && (cycle.cutShort <==> |cycle.attempts| < n)
    && forall j :: 0 <= j < |cycle.attempts| ==> cycle.attempts[j].spec == j
  }

  /** Every attempt of every cycle, in order. */
  function AllAttempts(cycles: seq<Cycle>): seq<Attempt>
    decreases |cycles|
  {
    if cycles == [] then [] else cycles[0].attempts + AllAttempts(cycles[1..])
  }

  /** The reads of the flag that saw `true`: the `while` condition once per
      cycle and the check before each attempt. */
  function TrueReads(cycles: seq<Cycle>): nat
    decreases |cycles|
  {
    if cycles == [] then 0 else 1 + |cycles[0].attempts| + TrueReads(cycles[1..])
  }

  lemma {:induction false} EmittedCountAppend(a: seq<Attempt>, b: seq<Attempt>)
    ensures EmittedCount(a + b) == EmittedCount(a) + EmittedCount(b)
    decreases |a|
  {
    if a == [] {
      assert a + b == b;
    } else {
      assert (a + b)[1..] == a[1..] + b;
      EmittedCountAppend(a[1..], b);
    }
  }

  /** Attempts that follow from `d` and `e`, then attempts that follow from
      the draw and the emission after them, follow from `d` and `e`. */
  lemma {:induction false} FollowsAppend(messages: seq<MessageConfig>, env: Env,
                                         a: seq<Attempt>, b: seq<Attempt>, d: nat, e: nat, d2: nat, e2: nat)
    requires ValidEnv(env)
    requires Follows(messages, env, a, d, e)
    requires Follows(messages, env, b, d2, e2)
    requires d2 == d + |a| && e2 == e + EmittedCount(a)
    ensures Follows(messages, env, a + b, d, e)
    decreases |a|
  {
    if a == [] {
      assert a + b == b;
    } else {
      assert (a + b)[1..] == a[1..] + b;
      FollowsAppend(messages, env, a[1..], b, d + 1, e + if a[0].Emitted? then 1 else 0, d2, e2);
    }
  }

  /** Attempt `k` of a run that follows the draws from `d` uses draw `d + k`
      and, if it emitted, the emission after the ones used before it. */
  lemma {:induction false} FollowsAt(messages: seq<MessageConfig>, env: Env,
                                     attempts: seq<Attempt>, d: nat, e: nat, k: nat)
    requires ValidEnv(env)
    requires Follows(messages, env, attempts, d, e)
    requires k < |attempts|
    ensures AttemptFollows(messages, env, attempts[k], d + k, e + EmittedCount(attempts[..k]))
    decreases k
  {
    if k > 0 {
      var a := attempts[0];
      FollowsAt(messages, env, attempts[1..], d + 1, e + if a.Emitted? then 1 else 0, k - 1);
      assert attempts[..k] == [a] + attempts[1..][..k - 1];
      EmittedCountAppend([a], attempts[1..][..k - 1]);
    }
  }

  /** One pass of the `for` loop from message `i` attempts the next
      messages in order, and is cut short exactly when it does not reach the
      end. */
  lemma {:induction false} PassOrder(messages: seq<MessageConfig>, env: Env, i: nat, c: Cursor)
    requires ValidEnv(env) && i <= |messages|
    requires c.emitted <= c.drawn <= c.checks <= env.polls
    ensures var p := AttemptsFrom(messages, env, i, c);
      && |p.attempts| <= |messages| - i
      && (p.cutShort <==> |p.attempts| < |messages| - i)
      && (forall j :: 0 <= j < |p.attempts| ==> p.attempts[j].spec == i + j)
    decreases |messages| - i
  {
    if i < |messages| && c.checks < env.polls {
      var p := AttemptsFrom(messages, env, i, c);
      var c' := Step(c, Decide(messages[i], i, env, c));
      PassOrder(messages, env, i + 1, c');
      assert p.attempts[1..] == AttemptsFrom(messages, env, i + 1, c').attempts;
    }
  }

  /** Each attempt of a pass uses one `true` read and one draw, each emitted
      message one emission, and a cut uses one more read. */
  lemma {:induction false} PassUses(messages: seq<MessageConfig>, env: Env, i: nat, c: Cursor)
    requires ValidEnv(env) && i <= |messages|
    requires c.emitted <= c.drawn <= c.checks <= env.polls
    ensures var p := AttemptsFrom(messages, env, i, c);
      && p.next.checks == c.checks + |p.attempts| + (if p.cutShort then 1 else 0)
      && p.next.drawn == c.drawn + |p.attempts|
      && p.next.emitted == c.emitted + EmittedCount(p.attempts)
    decreases |messages| - i
  {
    if i < |messages| && c.checks < env.polls {
      var p := AttemptsFrom(messages, env, i, c);
      var c' := Step(c, Decide(messages[i], i, env, c));
      PassUses(messages, env, i + 1, c');
      AttemptsUnfold(messages, env, i, c);
      assert p.attempts[1..] == AttemptsFrom(messages, env, i + 1, c').attempts;
    }
  }

  /** The decisions of a pass follow the draws and emissions from its
      cursor. */
  lemma {:induction false} PassFollows(messages: seq<MessageConfig>, env: Env, i: nat, c: Cursor)
    requires ValidEnv(env) && i <= |messages|
    requires c.emitted <= c.drawn <= c.checks <= env.polls
    ensures var p := AttemptsFrom(messages, env, i, c);
      Follows(messages, env, p.attempts, c.drawn, c.emitted)
    decreases |messages| - i
  {
    if i < |messages| && c.checks < env.polls {
      var p := AttemptsFrom(messages, env, i, c);
      var c' := Step(c, Decide(messages[i], i, env, c));
      PassFollows(messages, env, i + 1, c');
      assert p.attempts[1..] == AttemptsFrom(messages, env, i + 1, c').attempts;
    }
  }

  /** Every cycle goes through the `n` messages in order, and only the last
      one can be cut short. */
  predicate Ordered(cycles: seq<Cycle>, n: nat) {
    && (forall k :: 0 <= k < |cycles| ==> InOrder(cycles[k], n))
    && (forall k :: 0 <= k < |cycles| - 1 ==> !cycles[k].cutShort)
  }

  lemma OrderedCons(x: Cycle, rest: seq<Cycle>, n: nat)
    requires InOrder(x, n) && Ordered(rest, n)
    requires x.cutShort ==> rest == []
    ensures Ordered([x] + rest, n)
  {
    var cs := [x] + rest;
    forall k | 0 < k < |cs| ensures cs[k] == rest[k - 1] {
    }
  }

  /** The cycles from cursor `c` each go through the messages in order, and
      only the last one can be cut short. */
  lemma {:induction false} CyclesOrder(messages: seq<MessageConfig>, env: Env, c: Cursor)
    requires ValidEnv(env)
    requires c.emitted <= c.drawn <= c.checks <= env.polls + 1 && c.drawn <= env.polls
    ensures Ordered(CyclesFrom(messages, env, c), |messages|)
    decreases env.polls + 1 - c.checks
  {
    if c.checks < env.polls {
      var c1 := c.(checks := c.checks + 1);
      var p := AttemptsFrom(messages, env, 0, c1);
      PassOrder(messages, env, 0, c1);
      CyclesOrder(messages, env, p.next);
      CyclesUnfold(messages, env, c);
      var cs := CyclesFrom(messages, env, c);
      assert cs == [cs[0]] + cs[1..];
      OrderedCons(cs[0], cs[1..], |messages|);
    }
  }

  /** The cycles from cursor `c` make all the `true` reads left. */
  lemma {:induction false} CyclesReads(messages: seq<MessageConfig>, env: Env, c: Cursor)
    requires ValidEnv(env)
    requires c.emitted <= c.drawn <= c.checks <= env.polls + 1 && c.drawn <= env.polls
    ensures TrueReads(CyclesFrom(messages, env, c))
         == if c.checks >= env.polls then 0 else env.polls - c.checks
    decreases env.polls + 1 - c.checks
  {
    if c.checks < env.polls {
      var c1 := c.(checks := c.checks + 1);
      var p := AttemptsFrom(messages, env, 0, c1);
      PassUses(messages, env, 0, c1);
      CyclesReads(messages, env, p.next);
      CyclesUnfold(messages, env, c);
    }
  }

  /** The decisions of all cycles from cursor `c` follow the draws and
      emissions from it. */
  lemma {:induction false} CyclesFollow(messages: seq<MessageConfig>, env: Env, c: Cursor)
    requires ValidEnv(env)
    requires c.emitted <= c.drawn <= c.checks <= env.polls + 1 && c.drawn <= env.polls
    ensures Follows(messages, env, AllAttempts(CyclesFrom(messages, env, c)), c.drawn, c.emitted)
    decreases env.polls + 1 - c.checks
  {
    if c.checks < env.polls {
      var c1 := c.(checks := c.checks + 1);
      var p := AttemptsFrom(messages, env, 0, c1);
      PassUses(messages, env, 0, c1);
      PassFollows(messages, env, 0, c1);
      CyclesFollow(messages, env, p.next);
      AllAttemptsUnfold(messages, env, c);
      FollowsAppend(messages, env, p.attempts, AllAttempts(CyclesFrom(messages, env, p.next)),
                    c.drawn, c.emitted, p.next.drawn, p.next.emitted);
    }
  }

  /** The attempts of the cycles from `c`: those of the first cycle, then
      those of the cycles after it. */
  lemma AllAttemptsUnfold(messages: seq<MessageConfig>, env: Env, c: Cursor)
    requires ValidEnv(env) && c.emitted <= c.drawn <= c.checks < env.polls
    ensures var p := AttemptsFrom(messages, env, 0, c.(checks := c.checks + 1));
      AllAttempts(CyclesFrom(messages, env, c)) == p.attempts + AllAttempts(CyclesFrom(messages, env, p.next))
  {
    var cs := CyclesFrom(messages, env, c);
    CyclesUnfold(messages, env, c);
    assert AllAttempts(cs) == cs[0].attempts + AllAttempts(cs[1..]);
  }

  /** What a whole run does: every cycle goes through the messages in order
      and only the last can stop part-way; the worker makes exactly
      `polls` reads that see `true`; and attempt `k` of the run, counting
      across cycles, is decided by the `k`-th draw, and if it emits, it uses
      the emission after the ones used before it. */
  lemma RunFacts(messages: seq<MessageConfig>, env: Env)
    requires ValidEnv(env)
    ensures var cs := Run(messages, env);
      && (forall k :: 0 <= k < |cs| ==> InOrder(cs[k], |messages|))
      && (forall k :: 0 <= k < |cs| - 1 ==> !cs[k].cutShort)
      && TrueReads(cs) == env.polls
    ensures var all := AllAttempts(Run(messages, env));
      forall k :: 0 <= k < |all| ==> AttemptFollows(messages, env, all[k], k, EmittedCount(all[..k]))
  {
    CyclesOrder(messages, env, Cursor(0, 0, 0));
    CyclesReads(messages, env, Cursor(0, 0, 0));
    CyclesFollow(messages, env, Cursor(0, 0, 0));
    var all := AllAttempts(Run(messages, env));
    forall k | 0 <= k < |all|
      ensures AttemptFollows(messages, env, all[k], k, EmittedCount(all[..k]))
    {
      FollowsAt(messages, env, all, 0, 0, k);
    }
  }
}
