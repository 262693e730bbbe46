/** The loaded configuration as the generator reads it. Every field may be
    missing from the YAML document; the generator reads each one with
    `dict.get` and a default, which the accessor functions below apply. The
    connection settings of a target (URL, credentials, tenant, source) only
    reach the external handler and are not modelled. */
module Config {
  import opened Wrappers
  import opened Labels

  /** One entry of a stream's `messages`. */
  datatype MessageConfig = MessageConfig(
    template: Option<string>,
    level: Option<string>,
    probability: Option<real>)

  /** One entry of a target's `streams`. */
  datatype StreamConfig = StreamConfig(
    name: Option<string>,
    labels: Option<Dict>,
    messages: Option<seq<MessageConfig>>)

  /** One entry of `loki_targets`. */
  datatype TargetConfig = TargetConfig(
    name: Option<string>,
    labels: Option<Dict>,
    streams: Option<seq<StreamConfig>>)

  datatype GeneratorConfig = GeneratorConfig(targets: Option<seq<TargetConfig>>)

  function TemplateOf(m: MessageConfig): string { m.template.GetOr("") }

  /** The level is passed on as written; it is not checked against any set. */
  function LevelOf(m: MessageConfig): string { m.level.GetOr("INFO") }

  function ProbabilityOf(m: MessageConfig): real { m.probability.GetOr(1.0) }

  function StreamName(s: StreamConfig): string { s.name.GetOr("unknown") }

  function StreamLabels(s: StreamConfig): Dict { s.labels.GetOr([]) }

  function Messages(s: StreamConfig): seq<MessageConfig> { s.messages.GetOr([]) }

  function TargetName(t: TargetConfig): string { t.name.GetOr("unknown") }

  function TargetLabels(t: TargetConfig): Dict { t.labels.GetOr([]) }

  function Streams(t: TargetConfig): seq<StreamConfig> { t.streams.GetOr([]) }

  function Targets(c: GeneratorConfig): seq<TargetConfig> { c.targets.GetOr([]) }

  /** `f"{target_name}_{stream_name}"`. */
  function WorkerName(t: TargetConfig, s: StreamConfig): string {
    TargetName(t) + "_" + StreamName(s)
  }

  /** A missing target or stream name reads as `unknown` in the worker's
      name. */
  lemma UnnamedWorker(t: TargetConfig, s: StreamConfig)
    ensures t.name.None? ==> WorkerName(t, s) == "unknown_" + StreamName(s)
    ensures s.name.None? ==> WorkerName(t, s) == TargetName(t) + "_unknown"
    ensures t.name.Some? && s.name.Some? ==> WorkerName(t, s) == t.name.value + "_" + s.name.value
  {
  }
}
