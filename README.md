# loki-data-generator: a Dafny model of the stream-generation engine

loki-data-generator produces synthetic log traffic for Grafana Loki. The
`LokiDataGenerator` object reads a configuration of targets. Each target has
labels and streams, and each stream has labels and message entries (a
template, a level and a probability). `run` sets a shared `running` flag. It
then starts one worker thread per stream of every target, and all the
streams of one target share one handler. Each worker merges the target's and
the stream's labels. While the flag stays set, it goes through its stream's
messages in order. For each message it draws a number against the message's
probability. If the message is kept, the worker expands the template and
sends the record to the target's handler, then pauses 0.1 s. Every cycle ends
with a 1 s sleep. `stop` clears the flag.

The model has these modules:

- `Text`: Python's `str.replace` as `Replace`. It is proved equal to an
  independent reference, `str.split` followed by `str.join`. The module also
  has `str.find` and `str(n)` for a non-negative `n`.
- `Labels`: a label dict as an ordered association list with unique keys,
  with `dict.update` and the two-step label merge.
- `Template`: `_generate_message`, as a specification function `Expand` and as
  a method `GenerateMessage` with the label loop.
- `Config`: the configuration records, with the `dict.get` defaults.
- `Worker`: `_stream_worker` as a method. It is proved against a
  specification of the run (`Run`, the cycles of attempts) and of its event
  trace (`Render`).
- `RunFacts` and `TraceFacts`: what a run and its trace guarantee.
- `Generator`: the `LokiDataGenerator` class, with `running`, `threads`, `run`
  and `stop`.

The clock, the random generator and the other threads are inputs. A worker's
environment (`Worker.Env`) holds three things:

- `polls`: how many reads of the flag see `true`. The flag is set once before
  any worker starts and cleared once by `stop`, so a worker's reads are some
  `true` reads followed by `false` ones.
- `draws`: the draws of `random.random()`, in [0, 1).
- `emissions`: for each emitted message, the ISO clock text, the 8-letter
  random string, the number in [1, 1000], the epoch time and whether the sink
  accepted the record.

Some behaviour of the code is easy to misread, and the model keeps it as
written:

- Pacing is fixed: 0.1 s after each emitted message and 1 s after each cycle
  (generator.py:156, 159), whatever the stream. A skipped message gets no
  pause.
- A message is skipped only when the draw is greater than its probability
  (generator.py:146), so probability 0.0 still emits on a draw of exactly 0.0
  (`Worker.ShouldEmit`).
- The level is passed through unvalidated, with `'INFO'` only when it is
  missing (generator.py:142, `Config.LevelOf`).
- Label expansion can leave a known placeholder in the message:
  `Template.PlaceholderCanSurvive` shows `{a{a}}` with `a = ""` expanding to
  `{a}`.
- The configuration is not validated. A missing field takes its `dict.get`
  default (generator.py:31, 39, 123-124, 129-130, 137, 141-143).

## Model

| member | source | states |
|---|---|---|
| Text.Replace | app/loki_data_generator/generator.py:173-181 | `s.replace(pat, rep)` for a non-empty pattern: scanning left to right, each non-overlapping occurrence becomes `rep` and the inserted text is not rescanned; a replacement as long as the pattern keeps the string's length |
| Text.ReplaceIsSplitJoin | app/loki_data_generator/generator.py:173-181 | `s.replace(pat, rep)` equals splitting `s` at `pat` and joining the pieces with `rep`, for every string and every non-empty pattern |
| Text.JoinSplit | app/loki_data_generator/generator.py:173-181 | splitting at a separator and joining with the same separator gives the string back, so the reference loses nothing |
| Text.SplitPiecesClean | app/loki_data_generator/generator.py:173-181 | no piece of a split contains the separator, so the reference replaces every occurrence |
| Text.FindSpec | app/loki_data_generator/generator.py:173-181 | `find` is -1 exactly when the pattern does not occur; otherwise the pattern occurs at the result and at no earlier position |
| Text.ReplaceAtFirst | app/loki_data_generator/generator.py:173-181 | the text before the first occurrence is kept, that occurrence becomes `rep`, and replacement continues after it, so inserted text is never rescanned |
| Text.ReplaceAfterClean | app/loki_data_generator/generator.py:180-181 | a prefix without the pattern's first character, followed by the pattern, becomes the prefix followed by the replacement |
| Text.ReplaceAbsent | app/loki_data_generator/generator.py:173-181 | a string in which the pattern does not occur comes back unchanged |
| Text.ReplaceWhole | app/loki_data_generator/generator.py:173-181 | a string replaced as a whole by itself as the pattern gives exactly the replacement |
| Text.DecimalRoundTrip | app/loki_data_generator/generator.py:177 | reading back the decimal text of `str(n)` gives `n` |
| Text.DecimalLength | app/loki_data_generator/generator.py:177 | a number up to 1000 has at most four digits |
| Labels.Update | app/loki_data_generator/generator.py:129-130 | `d[k] = v` maps `k` to `v` and leaves every other key's value; an existing key keeps its place and a new key goes last |
| Labels.UpdateAllView | app/loki_data_generator/generator.py:129-130 | `d.update(e)` gives the right-biased union of the two maps, and the keys `d` had stay first in their order |
| Labels.UpdateAllAppends | app/loki_data_generator/generator.py:129-130 | updating with a dict whose keys are all new appends its pairs in order |
| Labels.UpdateAll | app/loki_data_generator/generator.py:129-130 | `d.update(e)`: the pairs of `e`, in order, each assigned into `d` with `d[k] = v` |
| Labels.Merge | app/loki_data_generator/generator.py:128-130 | the worker's labels `{}` updated with the target's labels, then with the stream's: as a map, the right-biased union of the two, with every target key present |
| Labels.MergeLabels | app/loki_data_generator/generator.py:128-130 | the merged labels hold exactly the target's and the stream's keys; the stream's value wins on a shared key; a target-only key keeps the target's value; the target's keys come first, in order |
| Labels.MergeExample | app/loki_data_generator/generator.py:128-130 | target `a=1, b=2` merged with stream `b=3, c=4` gives `a=1, b=3, c=4` in that order |
| Template.SubstituteLabels | app/loki_data_generator/generator.py:179-181 | the label loop: for each key and value, in dict order, every `{key}` in the message so far becomes the value |
| Template.Expand | app/loki_data_generator/generator.py:166-183 | the message: `{timestamp}` replaced by the clock text, then `{random_string}` by the 8-letter string, then `{random_number}` by the number's decimal text, then the label loop |
| Template.GenerateMessage | app/loki_data_generator/generator.py:166-183 | the method's three replacements and its label loop compute `Expand` of the template, for an 8-letter random string and a random number in [1, 1000] |
| Template.ExpandUnchanged | app/loki_data_generator/generator.py:169-183 | a template containing none of `{timestamp}`, `{random_string}`, `{random_number}` or any label's `{key}` comes back unchanged, so unknown placeholders stay as written |
| Template.ExpandLabelsOnly | app/loki_data_generator/generator.py:172-181 | without the three built-in placeholders, expansion is the label loop alone |
| Template.SubstituteLabelsNoBraces | app/loki_data_generator/generator.py:180-181 | the label loop leaves a message without braces unchanged |
| Template.SubstituteLabelsAbsent | app/loki_data_generator/generator.py:180-181 | the label loop leaves a message unchanged when no label's placeholder occurs in it |
| Template.BracedNotInside | app/loki_data_generator/generator.py:173-181 | one brace-free placeholder never occurs inside a different one |
| Template.BuiltinsApart | app/loki_data_generator/generator.py:173-177 | none of `{timestamp}`, `{random_string}` and `{random_number}` occurs inside another of them |
| Template.DecimalNoBraces | app/loki_data_generator/generator.py:177 | the random number's text holds no brace, so no label placeholder can appear in it |
| Template.LabelValueVerbatim | app/loki_data_generator/generator.py:179-181 | a label value is inserted verbatim even if it holds `{timestamp}`, because the built-in placeholders are replaced before the labels |
| Template.TimestampInserted | app/loki_data_generator/generator.py:172-173 | the template `{timestamp}` expands to the clock text whenever that text holds no brace |
| Template.RandomStringInserted | app/loki_data_generator/generator.py:176 | the template `{random_string}` expands to the 8-letter string |
| Template.RandomNumberInserted | app/loki_data_generator/generator.py:177 | the template `{random_number}` expands to the decimal text of the number in [1, 1000] |
| Template.HelloExample | app/loki_data_generator/generator.py:169-183 | `"hello {name}"` with `name = x` expands to `"hello x"`, whatever the clock and the random draws |
| Template.LabelOrderMatters | app/loki_data_generator/generator.py:180-181 | labels are substituted in dict order: a value holding another label's placeholder is expanded only when that label comes later |
| Template.PlaceholderCanSurvive | app/loki_data_generator/generator.py:180-181 | `{a{a}}` with `a = ""` expands to `{a}`, which still contains the known placeholder `{a}` |
| Config.TemplateOf | app/loki_data_generator/generator.py:141 | a message's template, `""` when it is missing |
| Config.LevelOf | app/loki_data_generator/generator.py:142 | a message's level as written, `INFO` when it is missing |
| Config.ProbabilityOf | app/loki_data_generator/generator.py:143 | a message's probability, `1.0` when it is missing |
| Config.UnnamedWorker | app/loki_data_generator/generator.py:123-125 | a missing target or stream name shows as `unknown` in the worker's `<target>_<stream>` name |
| Worker.ShouldEmit | app/loki_data_generator/generator.py:143-147 | a draw in [0, 1) emits when the probability is at least 1.0, never when it is negative, only on a draw of exactly 0.0 when it is 0.0, and otherwise exactly when the draw is at most the probability |
| Worker.EmptyMessageDefaults | app/loki_data_generator/generator.py:141-147 | a message entry with no fields is always emitted, as the empty message at level `INFO` |
| Worker.MakeRecord | app/loki_data_generator/generator.py:189-194 | the record sent for a message: the expanded template, the message's level, the merged labels and the epoch time of its emission |
| Worker.TryMessage | app/loki_data_generator/generator.py:141-156 | one attempt: the next draw decides it as `Decide` says; a skipped message yields only the skip, and an emitted one yields the send of its record (message, level, merged labels, time, as built at generator.py:189-194) followed by the 0.1 s pause |
| Worker.MessagePass | app/loki_data_generator/generator.py:137-156 | the `for` loop of one cycle produces exactly the events of the specified pass, including the `false` read that breaks it, and leaves the cursor where the specification says |
| Worker.StreamWorker | app/loki_data_generator/generator.py:121-164 | the worker's whole trace is `Render` of the merged labels over `Run` of its messages in its environment |
| RunFacts.PassOrder | app/loki_data_generator/generator.py:137-139 | a pass attempts the messages in configured order, and it is cut short exactly when it does not reach the last one |
| RunFacts.PassUses | app/loki_data_generator/generator.py:137-156 | each attempt uses one `true` read and one draw, each emitted one uses one emission, and a cut uses one more read |
| RunFacts.PassFollows | app/loki_data_generator/generator.py:143-153 | each attempt of a pass is decided by the next draw and, if emitted, carries its message and the next emission |
| RunFacts.CyclesOrder | app/loki_data_generator/generator.py:135-159 | every cycle goes through the messages in order, and only the last cycle can be cut short |
| RunFacts.CyclesReads | app/loki_data_generator/generator.py:135-139 | the cycles make exactly as many `true` reads as the environment allows |
| RunFacts.CyclesFollow | app/loki_data_generator/generator.py:135-159 | the attempts of all cycles use the draws and emissions one after the other, in order |
| RunFacts.FollowsAt | app/loki_data_generator/generator.py:143-153 | attempt `k` of attempts that follow the inputs uses draw `k` and, if emitted, the emission after those used before it |
| RunFacts.RunFacts | app/loki_data_generator/generator.py:134-159 | in a whole run, cycles are in message order, only the last is cut short, there are `polls` `true` reads, and attempt `k` uses draw `k` and the next unused emission |
| TraceFacts.RenderStops | app/loki_data_generator/generator.py:135-159 | the trace ends with a `false` read; an earlier `false` read can only be the one that cut the last cycle, with only that cycle's sleep after it, so nothing is generated or sent once the flag is seen cleared |
| TraceFacts.RenderSendsPaused | app/loki_data_generator/generator.py:150-156 | every send is followed at once by the 0.1 s pause, and every pause follows a send, so a skipped message gets no pause |
| TraceFacts.RenderTrueChecks | app/loki_data_generator/generator.py:135-139 | the trace's `true` reads are one per cycle plus one per attempt |
| TraceFacts.WorkerTrace | app/loki_data_generator/generator.py:134-159 | a worker's trace stops at the `false` read, pauses after every send and only then, and has exactly `polls` `true` reads |
| Generator.TargetWorkers | app/loki_data_generator/generator.py:36-50 | the workers started for one target: one per stream of that target, all using that target's handler |
| Generator.Plan | app/loki_data_generator/generator.py:31-50 | the workers `run` starts, target by target and stream by stream: exactly one per stream, over all targets |
| Generator.PlanAt | app/loki_data_generator/generator.py:31-50 | the worker for stream `j` of target `i` comes after all streams of earlier targets; it is named `<target>_<stream>`, serves that target and stream, and uses target `i`'s handler |
| Generator.LokiDataGenerator.constructor | app/loki_data_generator/generator.py:20-23 | a new generator holds its configuration, no threads and a cleared flag |
| Generator.LokiDataGenerator.Run | app/loki_data_generator/generator.py:26-51 | `run` sets the flag and appends the plan's workers, target by target and stream by stream, to the threads already recorded |
| Generator.LokiDataGenerator.Stop | app/loki_data_generator/generator.py:57-59 | `stop` clears the flag and keeps the recorded threads |

## Left out

- `get_config` (generator.py:80-94) reads a YAML file named by an environment variable. The constructor takes the parsed configuration as a parameter.
- `_create_loki_handler` and the handler's `emit` (generator.py:96-119, 197) belong to an external library. The handler is modelled only as the target's index in `WorkerHandle.sink`. Its outcome is the `delivered` flag of a send event. The connection settings are not modelled.
- Threads: `threading.Thread`, `start`, `join`, `join(timeout=5)` and daemon threads (generator.py:43-64) are not modelled. `Generator.LokiDataGenerator.Run` records the workers it would start and returns without waiting for them. Each worker is modelled on its own, with the other threads seen only through the flag reads in its environment.
- `time.sleep`, `time.time`, `datetime.now().isoformat()`, `random.random`, `random.choices` and `random.randint` become inputs of the worker's environment. Sleeps are events of the trace. In Python, the draw and the random tokens come from one generator in one interleaved order. The model takes the draws and the emitted messages' tokens as two separate sequences in their own orders.
- Probabilities and draws are exact reals. Floating-point rounding is not modelled.
- Logging, `__del__`, `__str__`, `__repr__` and `__eq__` (generator.py:68-78) have no behaviour beyond text and comparison of configurations.
- `main.py` only sets up logging and calls `run` and `stop`.
- Ill-typed configuration is not modelled; the model types the configuration, so none of these cases arises. A label set that is neither a mapping nor a list of pairs (`None`, say) raises at generator.py:129-130, before the `try` at generator.py:134, so the exception escapes, the thread dies and the `finally` at generator.py:163-164 does not run; a list of pairs is accepted by `dict.update` and is not modelled either. Ill-typed `loki_targets` or `streams` raise in `run` itself (generator.py:31, 39), so the remaining workers are not started. A non-list `messages`, a message entry that is not a mapping (it fails at `message_config.get` at generator.py:141), a non-string `template` or a non-numeric `probability` raises inside the loop, where the `except` and `finally` at generator.py:161-164 end the worker. `Option.None` in the configuration stands only for a missing key: an explicit `null` is returned by `dict.get` as `None` rather than the default, so a null `name` reaches the thread name as `None` (generator.py:32, 41, 123-125) and a null `level` reaches the record as `None`, and neither raises; this is not modelled. Label values are strings, so `str(value)` on a non-string value is not modelled.
- Worker.StreamWorker: the flag's reads are a count of `true` reads followed by `false` ones. This holds because the flag is set once before the workers start and cleared once by `stop`. A flag set again after `stop` is not modelled.
- A run that is never stopped is represented only by its finite prefixes. `run` joins its workers (generator.py:53-55), so `stop` is reached only after every worker has ended; a worker's environment has a finite count of `true` reads. A worker that never sees the flag cleared is represented by the traces whose `polls` is the number of `true` reads so far, read up to (not including) their final `false` read.
