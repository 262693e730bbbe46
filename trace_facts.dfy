/** What the events of a stream worker show from outside: it stops soon
    after it reads the flag `false`, it pauses after every send, and it reads
    `true` exactly as often as the flag allows. */
module TraceFacts {
  import opened Labels
  import opened Config
  import opened Worker
  import opened RunFacts

  /** No read of the flag saw `false`. */
  predicate NoFalse(t: seq<Event>) {
    forall k :: 0 <= k < |t| ==> t[k] != Check(false)
  }

  /** The trace ends with a `false` read; the only other `false` read there
      can be is the one that cut the last cycle short, and then only the
      cycle's sleep lies between the two. */
  predicate StopsAtFalse(t: seq<Event>) {
    && |t| >= 1
    && t[|t| - 1] == Check(false)
    && forall k :: 0 <= k < |t| - 1 && t[k] == Check(false) ==>
         k == |t| - 3 && t[k + 1] == CycleSleep(CyclePause)
  }

  /** Every send is followed at once by the short pause, and there is no
      other pause: a skipped message is not paused after. */
  predicate SendsPaused(t: seq<Event>) {
    && (forall k :: 0 <= k < |t| && t[k].Send? ==> k + 1 < |t| && t[k + 1] == Pause(MessagePause))
    && (forall k :: 0 <= k < |t| && t[k].Pause? ==> 0 < k && t[k - 1].Send?)
  }

  /** The reads of the flag that saw `true`. */
  function TrueChecks(t: seq<Event>): nat
    decreases |t|
  {
    if t == [] then 0 else (if t[0] == Check(true) then 1 else 0) + TrueChecks(t[1..])
  }

  lemma NoFalseAppend(a: seq<Event>, b: seq<Event>)
    requires NoFalse(a) && NoFalse(b)
    ensures NoFalse(a + b)
  {
    forall k | 0 <= k < |a + b| ensures (a + b)[k] != Check(false) {
      if k >= |a| { assert (a + b)[k] == b[k - |a|]; }
    }
  }

  lemma SendsPausedAppend(a: seq<Event>, b: seq<Event>)
    requires SendsPaused(a) && SendsPaused(b)
    requires b != [] ==> !b[0].Pause?
    ensures SendsPaused(a + b)
  {
    var t := a + b;
    forall k | 0 <= k < |t| && t[k].Send? ensures k + 1 < |t| && t[k + 1] == Pause(MessagePause) {
      if k >= |a| {
        assert t[k] == b[k - |a|];
        assert t[k + 1] == b[k + 1 - |a|];
      } else {
        assert t[k] == a[k];
        assert t[k + 1] == a[k + 1];
      }
    }
    assert b != [] ==> t[|a|] == b[0];
    forall k | 0 <= k < |t| && t[k].Pause? ensures 0 < k && t[k - 1].Send? {
      if k > |a| {
        assert t[k] == b[k - |a|];
        assert t[k - 1] == b[k - 1 - |a|];
      } else if k < |a| {
        assert t[k] == a[k];
        assert t[k - 1] == a[k - 1];
      }
    }
  }

  lemma {:induction false} TrueChecksAppend(a: seq<Event>, b: seq<Event>)
    ensures TrueChecks(a + b) == TrueChecks(a) + TrueChecks(b)
    decreases |a|
  {
    if a == [] {
      assert a + b == b;
    } else {
      assert (a + b)[1..] == a[1..] + b;
      TrueChecksAppend(a[1..], b);
    }
  }

  /** A stretch without `true` reads counts none. */
  lemma {:induction false} NoTrueChecks(t: seq<Event>)
    requires forall k :: 0 <= k < |t| ==> t[k] != Check(true)
    ensures TrueChecks(t) == 0
    decreases |t|
  {
    if t != [] {
      NoTrueChecks(t[1..]);
    }
  }

  /** A cycle's attempts never read `false`: only the check that cuts a
      cycle short does. */
  lemma {:induction false} AttemptsNoFalse(labels: Dict, attempts: seq<Attempt>)
    ensures NoFalse(AttemptsEvents(labels, attempts))
    decreases |attempts|
  {
    if attempts != [] {
      AttemptsNoFalse(labels, attempts[1..]);
      var head := [Check(true)] + AttemptEvents(labels, attempts[0]);
      assert NoFalse(head);
      NoFalseAppend(head, AttemptsEvents(labels, attempts[1..]));
    }
  }

  /** Every attempt is preceded by one `true` read. */
  lemma {:induction false} AttemptsTrueChecks(labels: Dict, attempts: seq<Attempt>)
    ensures TrueChecks(AttemptsEvents(labels, attempts)) == |attempts|
    decreases |attempts|
  {
    if attempts != [] {
      AttemptsTrueChecks(labels, attempts[1..]);
      var head := [Check(true)] + AttemptEvents(labels, attempts[0]);
      assert TrueChecks(head) == 1 by {
        assert head[1..] == AttemptEvents(labels, attempts[0]);
        NoTrueChecks(AttemptEvents(labels, attempts[0]));
      }
      TrueChecksAppend(head, AttemptsEvents(labels, attempts[1..]));
    }
  }

  /** Every emitted message is followed by its pause. */
  lemma {:induction false} AttemptsSendsPaused(labels: Dict, attempts: seq<Attempt>)
    ensures SendsPaused(AttemptsEvents(labels, attempts))
    decreases |attempts|
  {
    if attempts != [] {
      AttemptsSendsPaused(labels, attempts[1..]);
      var head := [Check(true)] + AttemptEvents(labels, attempts[0]);
      assert SendsPaused(head);
      var more := AttemptsEvents(labels, attempts[1..]);
      assert more != [] ==> more[0] == Check(true);
      SendsPausedAppend(head, more);
    }
  }

  lemma StopsAfterClean(a: seq<Event>, b: seq<Event>)
    requires NoFalse(a) && StopsAtFalse(b)
    ensures StopsAtFalse(a + b)
  {
    var t := a + b;
    assert forall j :: 0 <= j < |a| ==> t[j] == a[j];
    forall k | 0 <= k < |t| - 1 && t[k] == Check(false) ensures k == |t| - 3 && t[k + 1] == CycleSleep(CyclePause) {
      assert k >= |a|;
      assert t[k] == b[k - |a|] && t[k + 1] == b[k + 1 - |a|];
    }
    assert t[|t| - 1] == b[|b| - 1];
  }

  /** A cycle cut short, then the `false` read of the `while` condition. */
  lemma CutCycleStops(labels: Dict, c: Cycle)
    requires c.cutShort
    ensures StopsAtFalse(CycleEvents(labels, c) + [Check(false)])
  {
    var body := AttemptsEvents(labels, c.attempts);
    AttemptsNoFalse(labels, c.attempts);
    var t := CycleEvents(labels, c) + [Check(false)];
    assert t == [Check(true)] + body + [Check(false), CycleSleep(CyclePause), Check(false)];
    assert forall j :: 1 <= j < 1 + |body| ==> t[j] == body[j - 1];
  }

  lemma OrderedTail(cycles: seq<Cycle>, n: nat)
    requires Ordered(cycles, n) && cycles != []
    ensures Ordered(cycles[1..], n)
  {
    var rest := cycles[1..];
    forall k | 0 <= k < |rest| ensures rest[k] == cycles[k + 1] {
    }
  }

  /** The events of cycles in which only the last can be cut short stop at
      the `false` read. */
  lemma {:induction false} RenderStops(labels: Dict, cycles: seq<Cycle>, n: nat)
    requires Ordered(cycles, n)
    ensures StopsAtFalse(Render(labels, cycles))
    decreases |cycles|
  {
    if cycles != [] {
      var c := cycles[0];
      var rest := cycles[1..];
      if c.cutShort {
        assert rest == [];
        CutCycleStops(labels, c);
      } else {
        OrderedTail(cycles, n);
        RenderStops(labels, rest, n);
        var body := AttemptsEvents(labels, c.attempts);
        AttemptsNoFalse(labels, c.attempts);
        NoFalseAppend([Check(true)] + body, [CycleSleep(CyclePause)]);
        assert CycleEvents(labels, c) == [Check(true)] + body + [CycleSleep(CyclePause)];
        StopsAfterClean(CycleEvents(labels, c), Render(labels, rest));
      }
    }
  }

  /** Each cycle's `true` reads are its `while` read and one per attempt. */
  lemma {:induction false} RenderTrueChecks(labels: Dict, cycles: seq<Cycle>)
    ensures TrueChecks(Render(labels, cycles)) == TrueReads(cycles)
    decreases |cycles|
  {
    if cycles != [] {
      var c := cycles[0];
      RenderTrueChecks(labels, cycles[1..]);
      AttemptsTrueChecks(labels, c.attempts);
      var tail := (if c.cutShort then [Check(false)] else []) + [CycleSleep(CyclePause)];
      NoTrueChecks(tail);
      TrueChecksAppend([Check(true)], AttemptsEvents(labels, c.attempts));
      TrueChecksAppend([Check(true)] + AttemptsEvents(labels, c.attempts), tail);
      CycleEventsShape(labels, c);
      TrueChecksAppend(CycleEvents(labels, c), Render(labels, cycles[1..]));
    }
  }

  /** A cycle's events: the `while` read, the attempts, the `false` read if
      one cut it short, and the sleep. */
  lemma CycleEventsShape(labels: Dict, c: Cycle)
    ensures CycleEvents(labels, c)
         == [Check(true)] + AttemptsEvents(labels, c.attempts)
            + ((if c.cutShort then [Check(false)] else []) + [CycleSleep(CyclePause)])
  {
    Regroup([], [Check(true)], AttemptsEvents(labels, c.attempts),
            if c.cutShort then [Check(false)] else [], [CycleSleep(CyclePause)]);
    assert [] + ([Check(true)] + AttemptsEvents(labels, c.attempts)) == [Check(true)] + AttemptsEvents(labels, c.attempts);
  }

  /** Every send in the events of any cycles is followed by its pause. */
  lemma {:induction false} RenderSendsPaused(labels: Dict, cycles: seq<Cycle>)
    ensures SendsPaused(Render(labels, cycles))
    decreases |cycles|
  {
    if cycles != [] {
      var c := cycles[0];
      RenderSendsPaused(labels, cycles[1..]);
      AttemptsSendsPaused(labels, c.attempts);
      var tail := (if c.cutShort then [Check(false)] else []) + [CycleSleep(CyclePause)];
      var body := AttemptsEvents(labels, c.attempts);
      assert SendsPaused(tail) && !tail[0].Pause?;
      assert SendsPaused([Check(true)]);
      assert body != [] ==> body[0] == Check(true);
      SendsPausedAppend([Check(true)], body);
      SendsPausedAppend([Check(true)] + body, tail);
      CycleEventsShape(labels, c);
      var after := Render(labels, cycles[1..]);
      assert after[0].Check?;
      SendsPausedAppend(CycleEvents(labels, c), after);
    }
  }

  /** The trace of a stream worker: it ends with the `false` read of the
      `while` condition, with at most the cycle's sleep after an earlier
      `false` read, so nothing is sent once the flag is seen cleared; every
      send is followed by the 0.1 s pause; and exactly `polls` reads see
      `true`. */
  lemma WorkerTrace(messages: seq<MessageConfig>, labels: Dict, env: Env)
    requires ValidEnv(env)
    ensures var t := Render(labels, Run(messages, env));
      StopsAtFalse(t) && SendsPaused(t) && TrueChecks(t) == env.polls
  {
    var cs := Run(messages, env);
    CyclesOrder(messages, env, Cursor(0, 0, 0));
    CyclesReads(messages, env, Cursor(0, 0, 0));
    RenderStops(labels, cs, |messages|);
    RenderSendsPaused(labels, cs);
    RenderTrueChecks(labels, cs);
  }
}
