/** One stream worker (`_stream_worker`): the loop that, while the shared
    `running` flag stays set, goes through the stream's messages in order,
    draws against each one's probability, expands and sends the emitted ones
    with a short pause after each, and sleeps at the end of every cycle.

    Time, randomness and the other threads are parameters. The flag is set
    once before any worker starts and cleared once by `stop`, so the reads one
    worker makes of it are some number of `true` reads followed by `false`
    ones: the environment gives that number (`polls`). It also gives the
    uniform draws in the order the worker makes them and, for each emitted
    message, the clock readings, the random token values and whether the sink
    accepted the record. */
module Worker {
  import opened Wrappers
  import opened Text
  import opened Labels
  import opened Template
  import opened Config

  /** Seconds slept after each emitted message. */
  const MessagePause: real := 0.1

  /** Seconds slept at the end of each cycle. */
  const CyclePause: real := 1.0

  /** The record handed to the sink. */
  datatype LogRecord = LogRecord(message: string, level: string, labels: Dict, timestamp: real)

  /** What the outside world gives for one emitted message: the ISO clock
      text for `{timestamp}`, the random string and number, the epoch seconds
      of the record, and whether the sink accepted it. */
  datatype Emission = Emission(
    isoTime: string,
    randomString: string,
    randomNumber: nat,
    epochTime: real,
    delivered: bool)

  /** A value of `random.random()`. */
  type Draw = r: real | 0.0 <= r < 1.0

  /** An emission whose random tokens come from their ranges. */
  type RandomEmission = e: Emission | IsRandomString(e.randomString) && IsRandomNumber(e.randomNumber)
    witness Emission("", "abcdefgh", 1, 0.0, true)

  datatype Env = Env(polls: nat, draws: seq<Draw>, emissions: seq<RandomEmission>)

  /** There are enough draws and emissions: every attempt follows a `true`
      read. */
  predicate ValidEnv(env: Env) {
    |env.draws| >= env.polls && |env.emissions| >= env.polls
  }

  /** What the worker does, in order. `Check` is a read of the flag. */
  datatype Event =
    | Check(running: bool)
    | Skip(spec: nat)
    | Send(spec: nat, record: LogRecord, delivered: bool)
    | Pause(seconds: real)
    | CycleSleep(seconds: real)

  /** `random.random() > probability` skips the message; anything else emits. */
  function ShouldEmit(draw: real, probability: real): (emit: bool)
    requires 0.0 <= draw < 1.0
    ensures probability >= 1.0 ==> emit
    ensures probability < 0.0 ==> !emit
    ensures probability == 0.0 ==> (emit <==> draw == 0.0)
    ensures 0.0 <= probability < 1.0 ==> (emit <==> draw <= probability)
  {
    !(draw > probability)
  }

  /** The record `_send_to_loki` builds for a message. */
  function MakeRecord(m: MessageConfig, labels: Dict, e: Emission): LogRecord {
    LogRecord(Expand(TemplateOf(m), e.isoTime, e.randomString, e.randomNumber, labels),
              LevelOf(m), labels, e.epochTime)
  }

  /** A message entry that gives no field is always emitted, as the empty
      message at level INFO. */
  lemma EmptyMessageDefaults(labels: Dict, e: Emission, draw: real)
    requires 0.0 <= draw < 1.0
    ensures var m := MessageConfig(None, None, None);
      && ShouldEmit(draw, ProbabilityOf(m))
      && MakeRecord(m, labels, e) == LogRecord("", "INFO", labels, e.epochTime)
  {
    ShortAbsent("", TimestampToken);
    ShortAbsent("", RandomStringToken);
    ShortAbsent("", RandomNumberToken);
    ExpandLabelsOnly("", e.isoTime, e.randomString, e.randomNumber, labels);
    SubstituteLabelsNoBraces("", labels);
  }

  // ---- the specification: the run as cycles of attempts ----

  /** An attempt at message number `spec`: emitted with the message and the
      outside values it used, or skipped. */
  datatype Attempt =
    | Emitted(spec: nat, message: MessageConfig, emission: RandomEmission)
    | Skipped(spec: nat)

  /** One pass of the `while` body: its attempts, and whether a `false` read
      cut it short. */
  datatype Cycle = Cycle(attempts: seq<Attempt>, cutShort: bool)

  /** How many flag reads, draws and emissions the worker has used. */
  datatype Cursor = Cursor(checks: nat, drawn: nat, emitted: nat)

  /** The rest of one cycle from message `i`: its attempts, whether it was cut
      short, and the cursor after it. */
  datatype Pass = Pass(attempts: seq<Attempt>, cutShort: bool, next: Cursor)

  /** The attempt at message `m` (number `spec`) with cursor `c`: the next
      draw decides it, and an emitted one takes the next emission. */
  function Decide(m: MessageConfig, spec: nat, env: Env, c: Cursor): Attempt
    requires ValidEnv(env) && c.emitted <= c.drawn < |env.draws| && c.emitted < |env.emissions|
  {
    if ShouldEmit(env.draws[c.drawn], ProbabilityOf(m)) then
      Emitted(spec, m, env.emissions[c.emitted])
    else
      Skipped(spec)
  }

  /** The `for` loop over the messages from position `i`. */
  function AttemptsFrom(messages: seq<MessageConfig>, env: Env, i: nat, c: Cursor): (p: Pass)
    requires ValidEnv(env) && i <= |messages|
    requires c.emitted <= c.drawn <= c.checks <= env.polls
    ensures p.next.emitted <= p.next.drawn <= p.next.checks
    ensures p.next.checks >= c.checks
    ensures p.cutShort ==> p.next.checks == env.polls + 1 && p.next.drawn <= env.polls
    ensures !p.cutShort ==> p.next.checks <= env.polls
    decreases |messages| - i
  {
    if i == |messages| then
      Pass([], false, c)
    else if c.checks >= env.polls then
      Pass([], true, c.(checks := c.checks + 1))
    else
      var a := Decide(messages[i], i, env, c);
      var rest := AttemptsFrom(messages, env, i + 1, Step(c, a));
      Pass([a] + rest.attempts, rest.cutShort, rest.next)
  }

  /** The cursor after an attempt: one read, one draw, and one emission if
      it emitted. */
  function Step(c: Cursor, a: Attempt): Cursor {
    Cursor(c.checks + 1, c.drawn + 1, c.emitted + if a.Emitted? then 1 else 0)
  }

  /** The `while` loop from cursor `c`: one cycle per `true` read of its
      condition. */
  function CyclesFrom(messages: seq<MessageConfig>, env: Env, c: Cursor): seq<Cycle>
    requires ValidEnv(env)
    requires c.emitted <= c.drawn <= c.checks <= env.polls + 1 && c.drawn <= env.polls
    decreases env.polls + 1 - c.checks
  {
    if c.checks >= env.polls then []
    else
      var p := AttemptsFrom(messages, env, 0, c.(checks := c.checks + 1));
      [Cycle(p.attempts, p.cutShort)] + CyclesFrom(messages, env, p.next)
  }

  /** The cycles of a whole run. */
  function Run(messages: seq<MessageConfig>, env: Env): seq<Cycle>
    requires ValidEnv(env)
  {
    CyclesFrom(messages, env, Cursor(0, 0, 0))
  }

  // ---- the observable trace ----

  /** What one attempt does after the `true` read before it: an emitted
      message is expanded with the labels into a record and sent, then the
      worker pauses. */
  function AttemptEvents(labels: Dict, a: Attempt): seq<Event> {
    match a
    case Emitted(i, m, e) => [Send(i, MakeRecord(m, labels, e), e.delivered), Pause(MessagePause)]
    case Skipped(i) => [Skip(i)]
  }

  function AttemptsEvents(labels: Dict, attempts: seq<Attempt>): seq<Event>
    decreases |attempts|
  {
    if attempts == [] then []
    else [Check(true)] + AttemptEvents(labels, attempts[0]) + AttemptsEvents(labels, attempts[1..])
  }

  /** The events of a pass: its attempts, then the `false` read that cut it. */
  function PassEvents(labels: Dict, attempts: seq<Attempt>, cutShort: bool): seq<Event> {
    AttemptsEvents(labels, attempts) + (if cutShort then [Check(false)] else [])
  }

  function CycleEvents(labels: Dict, c: Cycle): seq<Event> {
    [Check(true)] + PassEvents(labels, c.attempts, c.cutShort) + [CycleSleep(CyclePause)]
  }

  /** The events of a sequence of cycles, then the final `false` read of the
      `while` condition. */
  function Render(labels: Dict, cycles: seq<Cycle>): seq<Event>
    decreases |cycles|
  {
    if cycles == [] then [Check(false)] else CycleEvents(labels, cycles[0]) + Render(labels, cycles[1..])
  }

  /** One attempt after a `true` read, taking the `for` loop's invariant from
      message `i` to `i + 1`. */
  lemma PassStep(messages: seq<MessageConfig>, labels: Dict, env: Env, i: nat, c: Cursor,
                 events: seq<Event>, total: seq<Event>)
    requires ValidEnv(env) && i < |messages|
    requires c.emitted <= c.drawn <= c.checks < env.polls
    requires var p := AttemptsFrom(messages, env, i, c);
      events + PassEvents(labels, p.attempts, p.cutShort) == total
    ensures var p := AttemptsFrom(messages, env, i, c);
      var a := Decide(messages[i], i, env, c);
      var q := AttemptsFrom(messages, env, i + 1, Step(c, a));
      && p.next == q.next
      && events + [Check(true)] + AttemptEvents(labels, a) + PassEvents(labels, q.attempts, q.cutShort) == total
  {
    var p := AttemptsFrom(messages, env, i, c);
    var a := Decide(messages[i], i, env, c);
    var q := AttemptsFrom(messages, env, i + 1, Step(c, a));
    AttemptsUnfold(messages, env, i, c);
    AttemptsEventsCons(labels, a, q.attempts);
    var tail := if q.cutShort then [Check(false)] else [];
    Regroup(events, [Check(true)], AttemptEvents(labels, a), AttemptsEvents(labels, q.attempts), tail);
  }

  lemma Regroup(e: seq<Event>, x: seq<Event>, y: seq<Event>, z: seq<Event>, w: seq<Event>)
    ensures e + (x + y + z + w) == e + x + y + (z + w)
    ensures e + (x + y + z + w) == e + x + y + z + w
  {
  }

  /** One attempt of the `for` loop, then the rest of the pass. */
  lemma AttemptsUnfold(messages: seq<MessageConfig>, env: Env, i: nat, c: Cursor)
    requires ValidEnv(env) && i < |messages|
    requires c.emitted <= c.drawn <= c.checks < env.polls
    ensures var p := AttemptsFrom(messages, env, i, c);
      var a := Decide(messages[i], i, env, c);
      var q := AttemptsFrom(messages, env, i + 1, Step(c, a));
      p.attempts == [a] + q.attempts && p.cutShort == q.cutShort && p.next == q.next
  {
  }

  lemma AttemptsEventsCons(labels: Dict, a: Attempt, rest: seq<Attempt>)
    ensures AttemptsEvents(labels, [a] + rest)
         == [Check(true)] + AttemptEvents(labels, a) + AttemptsEvents(labels, rest)
  {
    assert ([a] + rest)[1..] == rest;
  }

  /** One cycle of the `while` loop, then the cycles after it. */
  lemma CyclesUnfold(messages: seq<MessageConfig>, env: Env, c: Cursor)
    requires ValidEnv(env) && c.emitted <= c.drawn <= c.checks < env.polls
    ensures var p := AttemptsFrom(messages, env, 0, c.(checks := c.checks + 1));
      var cs := CyclesFrom(messages, env, c);
      && |cs| > 0
      && cs[0] == Cycle(p.attempts, p.cutShort)
      && cs[1..] == CyclesFrom(messages, env, p.next)
  {
    var p := AttemptsFrom(messages, env, 0, c.(checks := c.checks + 1));
    var cs := CyclesFrom(messages, env, c);
    assert cs == [Cycle(p.attempts, p.cutShort)] + CyclesFrom(messages, env, p.next);
  }

  /** One cycle of the `while` loop after a `true` read of its condition,
      taking the loop's invariant from cursor `c` to the cursor after it. */
  lemma CycleStep(messages: seq<MessageConfig>, labels: Dict, env: Env, c: Cursor,
                  trace: seq<Event>, events: seq<Event>, full: seq<Event>)
    requires ValidEnv(env)
    requires c.emitted <= c.drawn <= c.checks < env.polls
    requires trace + Render(labels, CyclesFrom(messages, env, c)) == full
    requires var p := AttemptsFrom(messages, env, 0, c.(checks := c.checks + 1));
      events == PassEvents(labels, p.attempts, p.cutShort)
    ensures var p := AttemptsFrom(messages, env, 0, c.(checks := c.checks + 1));
      trace + [Check(true)] + events + [CycleSleep(CyclePause)]
      + Render(labels, CyclesFrom(messages, env, p.next)) == full
  {
    var cs := CyclesFrom(messages, env, c);
    CyclesUnfold(messages, env, c);
    assert Render(labels, cs) == CycleEvents(labels, cs[0]) + Render(labels, cs[1..]);
    Regroup(trace, [Check(true)], events, [CycleSleep(CyclePause)], Render(labels, cs[1..]));
  }

  // ---- the worker ----

  /** The body of the `for` loop after the flag check: draw against the
      message's probability and, if it passes, expand the template and hand
      the record to the sink. */
  method TryMessage(m: MessageConfig, i: nat, labels: Dict, env: Env, c: Cursor)
    returns (a: Attempt, events: seq<Event>)
    requires ValidEnv(env) && c.emitted <= c.drawn < |env.draws| && c.emitted < |env.emissions|
    ensures a == Decide(m, i, env, c)
    ensures events == AttemptEvents(labels, a)
  {
    var draw := env.draws[c.drawn];
    if !ShouldEmit(draw, ProbabilityOf(m)) {
      // `continue`
      return Skipped(i), [Skip(i)];
    }
    var e := env.emissions[c.emitted];
    var message := GenerateMessage(TemplateOf(m), e.isoTime, e.randomString, e.randomNumber, labels);
    var record := LogRecord(message, LevelOf(m), labels, e.epochTime);
    a := Emitted(i, m, e);
    events := [Send(i, record, e.delivered), Pause(MessagePause)];
  }

  /** The `for` loop of one cycle, from cursor `c0` (just after the `true`
      read of the `while` condition): its events and the cursor after it. */
  method MessagePass(messages: seq<MessageConfig>, labels: Dict, env: Env, c0: Cursor)
    returns (events: seq<Event>, c: Cursor)
    requires ValidEnv(env)
    requires c0.emitted <= c0.drawn <= c0.checks <= env.polls
    ensures var p := AttemptsFrom(messages, env, 0, c0);
      events == PassEvents(labels, p.attempts, p.cutShort) && c == p.next
  {
    ghost var whole := AttemptsFrom(messages, env, 0, c0);
    ghost var total := PassEvents(labels, whole.attempts, whole.cutShort);
    events := [];
    c := c0;
    var i := 0;
    while i < |messages|
      invariant i <= |messages|
      invariant c.emitted <= c.drawn <= c.checks <= env.polls
      invariant AttemptsFrom(messages, env, i, c).next == whole.next
      invariant
        var p := AttemptsFrom(messages, env, i, c);
        events + PassEvents(labels, p.attempts, p.cutShort) == total
      decreases |messages| - i
    {
      // `if not self.running: break`
      if c.checks >= env.polls {
        c := c.(checks := c.checks + 1);
        events := events + [Check(false)];
        return;
      }
      PassStep(messages, labels, env, i, c, events, total);
      var a, more := TryMessage(messages[i], i, labels, env, c);
      events := events + [Check(true)] + more;
      c := Step(c, a);
      i := i + 1;
    }
  }

  /** `_stream_worker`: merge the labels once, then loop until the flag is
      read `false`. A failed send is caught inside `_send_to_loki`, so it
      only shows in the event's `delivered` field. */
  method StreamWorker(target: TargetConfig, stream: StreamConfig, env: Env) returns (trace: seq<Event>)
    requires ValidEnv(env)
    ensures trace == Render(Merge(TargetLabels(target), StreamLabels(stream)), Run(Messages(stream), env))
  {
    var labels := Merge(TargetLabels(target), StreamLabels(stream));
    var messages := Messages(stream);
    ghost var full := Render(labels, Run(messages, env));
    trace := [];
    var c := Cursor(0, 0, 0);
    while c.checks < env.polls
      invariant c.emitted <= c.drawn <= c.checks <= env.polls + 1 && c.drawn <= env.polls
      invariant trace + Render(labels, CyclesFrom(messages, env, c)) == full
      decreases env.polls + 1 - c.checks
    {
      var events, next := MessagePass(messages, labels, env, c.(checks := c.checks + 1));
      CycleStep(messages, labels, env, c, trace, events, full);
      trace := trace + [Check(true)] + events + [CycleSleep(CyclePause)];
      c := next;
    }
    // the `while` condition read `false`
    trace := trace + [Check(false)];
  }
}
