/** The generator object (`LokiDataGenerator`): it holds the loaded
    configuration, the shared `running` flag and the list of started worker
    threads. `run` sets the flag and starts one worker per stream of every
    target, all the streams of a target sharing the handler made for that
    target; `stop` clears the flag. */
module Generator {
  import opened Config

  /** A started worker thread: its name, the target and stream it was given,
      and the position (among this call's targets) of the target whose
      handler it sends through. */
  datatype WorkerHandle = WorkerHandle(name: string, target: TargetConfig, stream: StreamConfig, sink: nat)

  /** The workers started for target `t`, the `sink`-th target: one per
      stream, in the order of the streams. */
  function TargetWorkers(t: TargetConfig, sink: nat): (ws: seq<WorkerHandle>)
    ensures |ws| == |Streams(t)|
  {
    seq(|Streams(t)|, j requires 0 <= j < |Streams(t)| =>
      WorkerHandle(WorkerName(t, Streams(t)[j]), t, Streams(t)[j], sink))
  }

  /** The workers one call of `run` starts, in the order it starts them:
      target by target, and within a target stream by stream; one per
      stream. */
  function Plan(targets: seq<TargetConfig>): (ws: seq<WorkerHandle>)
    ensures |ws| == TotalStreams(targets)
    decreases |targets|
  {
    if targets == [] then []
    else Plan(targets[..|targets| - 1]) + TargetWorkers(targets[|targets| - 1], |targets| - 1)
  }

  /** The number of streams over all the targets. */
  function TotalStreams(targets: seq<TargetConfig>): nat
    decreases |targets|
  {
    if targets == [] then 0
    else TotalStreams(targets[..|targets| - 1]) + |Streams(targets[|targets| - 1])|
  }

  /** Taking more targets only adds workers at the end. */
  lemma {:induction false} PlanPrefix(targets: seq<TargetConfig>, i: nat)
    requires i <= |targets|
    ensures Plan(targets[..i]) <= Plan(targets)
    decreases |targets| - i
  {
    if i < |targets| {
      var n := |targets| - 1;
      assert targets[..n][..i] == targets[..i];
      PlanPrefix(targets[..n], i);
      assert Plan(targets) == Plan(targets[..n]) + TargetWorkers(targets[n], n);
    } else {
      assert targets[..i] == targets;
    }
  }

  /** The worker for stream `j` of target `i` comes after the streams of the
      targets before `i`; it is named `<target>_<stream>`, serves that target
      and stream, and sends through target `i`'s handler. */
  lemma PlanAt(targets: seq<TargetConfig>, i: nat, j: nat)
    requires i < |targets| && j < |Streams(targets[i])|
    ensures var k := TotalStreams(targets[..i]) + j;
      && k < |Plan(targets)|
      && Plan(targets)[k] == WorkerHandle(WorkerName(targets[i], Streams(targets[i])[j]),
                                          targets[i], Streams(targets[i])[j], i)
  {
    var upto := targets[..i + 1];
    assert upto[..i] == targets[..i];
    assert Plan(upto) == Plan(targets[..i]) + TargetWorkers(targets[i], i);
    PlanPrefix(targets, i + 1);
  }

  class LokiDataGenerator {
    /** The configuration, read once when the object is made. */
    const config: GeneratorConfig
    /** The flag every worker polls. */
    var running: bool
    /** Every worker started so far, in order. */
    var threads: seq<WorkerHandle>

    /** `__init__`: the configuration is given; no worker runs yet. */
    constructor(config: GeneratorConfig)
      ensures this.config == config && threads == [] && !running
    {
      this.config := config;
      threads := [];
      running := false;
    }

    /** `run`: set the flag, then start the workers target by target. The
        list of threads is only ever appended to, so a second call keeps
        the workers of the first. */
    method Run()
      modifies this
      ensures running
      ensures threads == old(threads) + Plan(Targets(config))
    {
      running := true;
      var targets := Targets(config);
      ghost var before := threads;
      var i := 0;
      while i < |targets|
        invariant i <= |targets|
        invariant running
        invariant threads == before + Plan(targets[..i])
        decreases |targets| - i
      {
        var target := targets[i];
        var streams := Streams(target);
        ghost var started := threads;
        var j := 0;
        while j < |streams|
          invariant j <= |streams|
          invariant running
          invariant threads == started + TargetWorkers(target, i)[..j]
          decreases |streams| - j
        {
          var stream := streams[j];
          var handle := WorkerHandle(WorkerName(target, stream), target, stream, i);
          assert TargetWorkers(target, i)[..j + 1] == TargetWorkers(target, i)[..j] + [handle];
          threads := threads + [handle];
          j := j + 1;
        }
        assert TargetWorkers(target, i)[..j] == TargetWorkers(target, i);
        assert targets[..i + 1][..i] == targets[..i];
        assert Plan(targets[..i + 1]) == Plan(targets[..i]) + TargetWorkers(target, i);
        i := i + 1;
      }
      assert targets[..i] == targets;
    }

    /** `stop`: clear the flag; the workers started stay listed. */
    method Stop()
      modifies this
      ensures !running
      ensures threads == old(threads)
    {
      running := false;
    }
  }
}
