# Verified model of zap's logging core

This project models the parts of zap that carry its promises: the JSON encoder and its map-based
twin, the sampler, the buffered write syncer, the tree of cores with the pooled checked entry, the
level fast paths of the loggers, and the adapters that turn streams, slog records and loose
arguments into fields. `dafny verify dfyconfig.toml` checks all of it.

## How the model is laid out

Text and fields

- `Utf8`, `StringEscape`, `JsonText`: UTF-8 decoding as Go does it, the escaping loop, and an
  independent reader for sections 2 to 7 of RFC 8259. The reader knows nothing of the encoder.
- `EncoderOps`: fields, and marshalers as finite trees of calls on an encoder plus the error they
  return. `FieldUnion` is the packing of typed values into one int64.
- `JsonRendering`, `JsonFragments`, `JsonEntry`: what text a list of calls stands for, with commas
  placed by position, and what a reader makes of it.
- `JsonCalls`: what calls make of the buffer when commas are decided by its last byte; that this is
  the positional text when tokens are well formed, and that text written ahead can be spliced in
  whether they are or not.
- `JsonEncoder`: the encoder as an object that appends bytes and counts namespaces.
- `Levels`, `LineReading`, `FieldReading`, `AttrReading`: what a reader finds in a line, told from
  configuration, entry, fields and attributes without the encoder: which members, where, and what
  they hold. `Levels` is the parser of level names.
- `MapEncoder`, `MapObjectEncoder`: the twin, as a recursive definition and as an object that
  writes into linked maps through a moving `cur`. `Twins` drives both objects with the same fields.

Protocols

- `SamplerCounter`: the lock-free counter as atomic steps of T callers in any interleaving.
  `Sampler`: the same counter one call at a time, with the table and the hook; `Hash` is FNV-1a.
- `BufferedWriter`: the syncer and an explicit `bufio.Writer` over a sink that may fail or take
  part of a write. `BufferedProtocol`: callers, flush loop, ticker, mutex and channels as steps;
  `BufferedRuns`: what callers and ticks get out of every interleaving.

Cores and loggers

- `Cores`: io, nop, tee, hooked, filter, sampler and lazy cores as a tree; atomic levels, sampler
  counters, once-flags and the log of effects are an explicit world. `LazyCores` compares lazy
  and eager loggers over whole programs; `SampledCores` follows a sampler shared by With-children;
  `Gates` says which io cores an entry reaches.
- `CheckedEntries`: the entry as an object with slices updated in place, and its pool against a
  model in which each holder has a private value. `Logger`: check, terminal hooks, fast paths.

Adapters

- `SlogHandler`, `LineWriter`, `Sweeten`.

## What holds only under a condition

- The twins agree if and only if the calls use valid UTF-8, in every key and in every string that
  is not overwritten. Two keys that differ in invalid bytes collide in JSON
  (`MapEncoder.InvalidKeysCollide`).
- "At most `first` per window" holds under races if and only if there is at most one caller
  or `first` is at most 1 (`SamplerCounter.FirstPerResetExactly`). Otherwise T racing callers can get
  (first - 1) * T + 1 entries through, and no more.
- A hooked core in a tee runs its hooks for entries that only an earlier sibling logs
  (`Cores.HooksRunWithoutTheirCore`), although its documentation speaks of each logged message.
  `Cores.HooksAfterASibling` gives the exact condition.
- A lazy core inside a tee can differ from the eager one for the same reason
  (`LazyCores.LazyCheckAgrees`, `LazyCores.LazyInATeeDiffers`). At the root of a logger it cannot.
- The slog handler says it avoids empty namespaces. It does if and only if it opens
  none or some attribute after the last opened group makes a call (`SlogHandler.ChainFills`). An
  inline group without members opens namespaces and makes no call
  (`SlogHandler.EmptyInlineGroupOpensGroups`).
- The after-hook of a checked entry gets the entry as checked and the fields as the pre-write
  hooks left them.

## Assumptions

- Reflected values that encode are one JSON value with at most one newline behind it. Time
  layouts and complex numbers are text without quotes, backslashes or control bytes.
- User-supplied primitive encoders make zero or one append. `EncodeCaller` is there when a caller
  key is configured and the entry has a caller; the encoder would panic without it.
- Sinks keep to the `io.Writer` contract: they take a prefix and report an error if it is proper.
- The sampler's tick is positive where windows are concerned, times are not negative, and 64-bit
  counters do not overflow.

## Model

| member | source | states |
|---|---|---|
| Utf8.DecodeIsInverseOfEncode | zapcore/json_encoder.go:526-536 | a sequence the decoder accepts is the encoding of the scalar value it returns, so accepted text is copied unchanged |
| Utf8.EncodeDecodes | zapcore/json_encoder.go:526-536 | every scalar value, encoded by section 3 of RFC 3629 and followed by anything, decodes to itself with its width |
| Utf8.SanitizeFixesValid | zapcore/json_encoder.go:527-541 | replacing rejected bytes changes a string exactly when it is not valid UTF-8 |
| Utf8.SanitizeIsValid | zapcore/json_encoder.go:534-541 | whatever the bytes, the replaced string is valid UTF-8 |
| Utf8.SanitizeKeepsRunes | zapcore/json_encoder.go:526-541 | ranging over the replaced string yields the runes that ranging over the string yields, U+FFFD for each rejected byte |
| Utf8.RunesTellValidText | zapcore/json_encoder.go:526-541 | valid text is determined by its runes, so that being valid and having the runes of the input says all about the replaced string |
| StringEscape.SafeAppendStringLike | zapcore/json_encoder.go:509-583 | the bulk-copying loop over `i` and `last` appends exactly the unit-by-unit escaping of the string |
| StringEscape.AppendSpecial | zapcore/json_encoder.go:556-574 | the switch on special bytes writes the escape that the reference gives each of them |
| StringEscape.ReadEscaped | zapcore/json_encoder.go:509-583 | reading the escaped text by section 7 of RFC 8259 up to its closing quote gives the input with every rejected byte replaced by U+FFFD, and stops exactly there |
| StringEscape.EscapeRoundTrip | zapcore/json_encoder.go:509-583 | the string read back is the string written if and only if it was valid UTF-8 |
| StringEscape.EscapeHasNoControl | zapcore/json_encoder.go:547-574 | the escaped text holds no raw control byte |
| StringEscape.ReadStringExtends | zapcore/json_encoder.go:509-583 | a string that reads as complete reads the same with more text behind it |
| JsonText.ValueTook | zapcore/json_encoder.go:455-469 | the text of any JSON value ends in a byte that calls for a comma, which is what makes looking at one byte enough |
| JsonText.ValueExtends | zapcore/json_encoder.go:100-230 | a value that reads as complete reads the same inside a longer text, numbers included when what follows cannot continue them |
| JsonRendering.ScalarReads | zapcore/json_encoder.go:232-321 | each scalar's text reads back as that scalar: strings, booleans, integers, finite and special floats, verbatim quoted text |
| JsonRendering.IntTextIsNumber | zapcore/json_encoder.go:277-280 | the decimal text of every integer is a number by section 6 of RFC 8259, all of it |
| JsonRendering.IntTextValue | zapcore/json_encoder.go:277-280 | the digits of an integer have that integer for their decimal value, without leading zeros and behind a minus sign exactly if it is negative |
| JsonFragments.MembersRead | zapcore/json_encoder.go:179-230 | after an earlier member, the calls of any marshaler tree read as more members of the same object, with open namespaces closed where their braces are |
| JsonFragments.FirstMembersRead | zapcore/json_encoder.go:179-230 | the same at the start of an object |
| JsonFragments.NamespaceReads | zapcore/json_encoder.go:189-193 | everything after a namespace is opened reads as the members of that namespace's object |
| JsonFragments.ObjectReads | zapcore/json_encoder.go:218-230 | the object written for any tree of calls reads back as one object holding exactly its members, in order and with duplicates |
| JsonFragments.ArrayReads | zapcore/json_encoder.go:210-216 | the array written for any tree of elements reads back as exactly its elements |
| JsonEntry.MembersConcat | zapcore/json_encoder.go:361-431 | calls that leave nothing open contribute their members and nothing else, ahead of those that follow |
| JsonEntry.EntryReads | zapcore/json_encoder.go:361-431 | a line is one RFC 8259 object and then the line ending; it reads as the configured entry members, then context and fields inside their namespaces, then the stack trace at top level, duplicates kept |
| JsonCalls.LastByteDecides | zapcore/json_encoder.go:455-469 | for every list of calls with well-formed tokens, the last byte in the buffer says whether a comma is due exactly when the calls so far say so |
| JsonCalls.CallsShift | zapcore/json_encoder.go:455-469 | bytes before a buffer that is not empty make no difference to what any calls append to it |
| JsonCalls.SpliceAgrees | zapcore/json_encoder.go:416-420 | text written ahead and spliced in behind the separator that is due is the text of the calls made in place, for any tokens whatever |
| JsonCalls.CachedLine | zapcore/json_encoder.go:361-431 | calls made ahead on the context and calls made in the entry give the same line, open namespaces included, for any tokens whatever |
| JsonCalls.CallsAreText | zapcore/json_encoder.go:100-230 | calls with well-formed tokens append their positional text, commas decided by the last byte |
| JsonCalls.LineIsText | zapcore/json_encoder.go:361-431 | with well-formed tokens the line is the positional text of entry, context, fields and stack trace |
| JsonEncoder.Encoder.constructor | zapcore/json_encoder.go:81-97 | a new encoder holds no text, no context and no open namespace |
| JsonEncoder.Encoder.Clone | zapcore/json_encoder.go:346-350 | a separate encoder with the same settings, text and context |
| JsonEncoder.Encoder.Blank | zapcore/json_encoder.go:352-359 | the settings and the count of open namespaces with an empty buffer |
| JsonEncoder.Encoder.AddElementSeparator | zapcore/json_encoder.go:455-469 | adds a comma exactly when the last byte calls for one |
| JsonEncoder.Encoder.AddKey | zapcore/json_encoder.go:444-453 | appends separator, escaped key and colon |
| JsonEncoder.Encoder.AppendDuration | zapcore/json_encoder.go:265-275 | a user encoder's append, and the integer if the buffer is no longer than before |
| JsonEncoder.Encoder.AppendTime | zapcore/json_encoder.go:306-316 | a user encoder's append, and the nanoseconds if the buffer is no longer than before |
| JsonEncoder.Encoder.CloseOpenNamespaces | zapcore/json_encoder.go:437-442 | closes each open namespace once and leaves none |
| JsonEncoder.Encoder.AppendObjectOf | zapcore/json_encoder.go:218-230 | the marshaler's namespaces are closed inside its object and the caller's count is restored |
| JsonEncoder.Encoder.AppendArrayOf | zapcore/json_encoder.go:210-216 | the elements between brackets, each behind the separator that is due |
| JsonEncoder.Encoder.MarshalObject | zapcore/json_encoder.go:100-207 | a marshaler's calls, any at all, make of the buffer what the last-byte rule says, and the count of open namespaces grows by those they open |
| JsonEncoder.Encoder.AddTo | zapcore/field.go:114-186 | for any tokens, a field makes of the buffer what its calls and the error fallback make of it; which members that gives a reader is `FieldReading.OneFieldLine` |
| JsonEncoder.Encoder.AddAll | zapcore/field.go:208-212 | the loop makes the calls of the fields, in order |
| JsonEncoder.Encoder.AddFields | zapcore/field.go:208-212 | the context grows by the calls of the fields, in order |
| JsonEncoder.Encoder.AddEntryMembers | zapcore/json_encoder.go:365-415 | for any tokens, the buffer after the entry's own members, those a user encoder appends nothing for included; what a reader finds is `LineReading.LineMembers` |
| JsonEncoder.Encoder.Splice | zapcore/json_encoder.go:416-419 | the context's bytes are copied behind the entry members with a comma exactly when one is due |
| JsonEncoder.Encoder.EncodeEntry | zapcore/json_encoder.go:361-431 | the line for any tokens, and with well-formed ones the text of entry, context and fields, however the bytes came to be in the buffer; the encoder is unchanged. What the line holds, by configuration, entry and fields alone, is `FieldReading.WriteLine` |
| JsonEncoder.WithAgreesWithFields | zapcore/core.go:81-85 | for any fields at all, a clone given a and then encoding with b writes byte for byte what the original writes with a ++ b; the original is untouched |
| JsonEncoder.EncodedEntryReads | zapcore/json_encoder.go:361-431 | what every line of every encoder means to a JSON reader |
| JsonCalls.StackComma | zapcore/json_encoder.go:421-424 | after the closing braces a comma precedes the stack trace exactly when something was written |
| LineReading.LineMembers | zapcore/json_encoder.go:361-431 | what is read from any line, told by configuration and entry alone: level, time, logger name, caller, function and message under their keys, each exactly if configured and present and behind as many members as there are of those before it; then context and fields; last the stack trace; and nothing else |
| LineReading.EntryMembers | zapcore/json_encoder.go:365-415 | the values: a user encoder's append, or else the level's name, the nanoseconds of the time, the logger name and the caller's path; function and message as strings |
| LineReading.PathIsCut | zapcore/entry.go:85-96 | the caller's path, cut at its last colon, gives back file and line |
| LineReading.ScalarMeaning | zapcore/json_encoder.go:232-321 | each scalar is read as the string, boolean, integer or float it is, special floats as their names |
| Levels.LevelNames | zapcore/level.go:113-132 | each of the seven levels has the lower-case name that the parser reads as that level; any other has its number in parentheses |
| Levels.NamesAreDistinct | zapcore/level.go:113-132 | no two levels, named or not, have the same text |
| Levels.NamesReadBack | zapcore/level.go:170-200 | ParseLevel gives back a level from its name in any case of letters |
| Levels.NumbersAreRefused | zapcore/level.go:170-200 | ParseLevel refuses the text of every level that has no name |
| Levels.LevelConstants | zapcore/level.go:34-60 | the levels at which cores sync, samplers count and loggers panic or exit are those of these names |
| FieldReading.FieldMembers | zapcore/field.go:114-186 | for each type of field, the members it gives a reader, by key, value and error alone; an error is `<key>Error`, the last member at its level, and without an error there is no further one; a nil Stringer reads `<nil>`, and a panic leaves only `<key>Error` with `PANIC=` before its message |
| FieldReading.ErrorMembers | zapcore/error.go:47-79 | an error gives its message, `<key>Verbose` if its verbose text differs, or `<key>Causes` with its causes; a nil pointer reads `<nil>` and a panic is returned as an error |
| FieldReading.CauseMembers | zapcore/error.go:94-128 | the causes are objects with the key `error`, one for each cause that is not nil, in order, up to the first that panics |
| FieldReading.AddedWithin | zapcore/json_encoder.go:189-193 | what is added after any calls goes, for a reader, to the end of the innermost namespace they have left open, and nothing else changes |
| FieldReading.ElementsInOrder | zapcore/json_encoder.go:210-216 | the elements a reader finds are those of the calls on the array encoder, in order, each by its value alone |
| FieldReading.FieldsMembers | zapcore/field.go:208-212 | any list of fields gives the members of each, one after the other, each inside the namespaces that those before it left open |
| FieldReading.OneFieldLine | zapcore/field.go:114-186 | between the entry's members and the stack trace, the line of one field holds exactly that field's members |
| FieldReading.WriteLine | zapcore/json_encoder.go:361-431 | an encoder given any context and asked for a line with any fields: entry members, the members of context and fields, stack trace and line ending, all by configuration, entry and fields alone |
| MapEncoder.TwinsAgree | zapcore/memory_encoder.go:45-57 | reading the JSON encoder's object with the last of equal keys winning gives the map built from the same calls if and only if the calls use valid UTF-8 in every key and in every string that no later call at its level overwrites |
| MapEncoder.MapIsClean | zapcore/memory_encoder.go:45-133 | that condition on the calls, together with what the map held, is equivalent to the map holding only valid UTF-8 |
| MapEncoder.FieldTwinsAgree | zapcore/field.go:114-186 | the same for every list of fields driving both encoders through AddTo, errors included |
| MapEncoder.SameCalls | zapcore/field.go:169-186 | fields whose reflected values encode make the same calls on both encoders |
| MapEncoder.InvalidKeysCollide | zapcore/json_encoder.go:534-541 | a concrete pair of keys that are distinct in the map and equal in JSON |
| MapEncoder.MapsAgree | zapcore/memory_encoder.go:129-133 | whatever both maps held before, they agree after the calls, overwriting included |
| MapEncoder.ValueIsClean | zapcore/json_encoder.go:509-583 | every JSON text reads as data holding only valid UTF-8 |
| MapObjectEncoder.Encoder.constructor | zapcore/memory_encoder.go:36-42 | `Fields` and `cur` are the same empty map |
| MapObjectEncoder.Encoder.Put | zapcore/memory_encoder.go:60-126 | only the map that `cur` points to changes, at one key |
| MapObjectEncoder.Encoder.OpenNamespaceIn | zapcore/memory_encoder.go:129-133 | a new map is linked in under the key and becomes `cur`; outer maps keep their entries |
| MapObjectEncoder.Encoder.Marshal | zapcore/memory_encoder.go:45-133 | a marshaler's calls act on the stack of linked maps as the specification says |
| MapObjectEncoder.Encoder.ReadOut | zapcore/memory_encoder.go:28-33 | following the references from `Fields` gives the closed stack of levels |
| MapObjectEncoder.StackBuildsMap | zapcore/memory_encoder.go:129-133 | running the calls on a stack of levels and closing it is the recursive definition in which later calls go inside |
| MapObjectEncoder.Encoder.AddFields | zapcore/field.go:208-212 | the loop over fields makes the calls of AddTo on this encoder, in order |
| MapObjectEncoder.BuildMap | zapcore/memory_encoder.go:36-57 | a map encoder driven by any calls ends up holding exactly their map |
| MapObjectEncoder.BuildList | zapcore/memory_encoder.go:137-158 | a slice encoder driven by any calls ends up holding exactly their elements |
| Twins.EncodeBoth | zapcore/field.go:114-212 | both encoder objects, driven by the same fields: the JSON line reads as the other's map if and only if the fields' calls use valid UTF-8 in keys and in strings that stay |
| SamplerCounter.RunInv | zapcore/sampler.go:64-81 | an invariant of counter, reset time and callers holds under every interleaving of load, store, swap and add |
| SamplerCounter.OneWinnerPerReset | zapcore/sampler.go:73-80 | each successful swap moves `resetAt` strictly forward, so each reset value has exactly one winner |
| SamplerCounter.LowReturnsPerStore | zapcore/sampler.go:66-81 | at any point of any run, calls that returned a count of at most `first` number at most `first` per Store(1) |
| SamplerCounter.StoresPerReset | zapcore/sampler.go:71-78 | once T callers have returned, stores number at most T times the successful resets |
| SamplerCounter.LowReturnsPerReset | zapcore/sampler.go:219-227 | in a completed run at most (first - 1) * T + 1 calls per reset return a count of at most `first` |
| SamplerCounter.RacesOversample | zapcore/sampler.go:71-78 | that bound is attained for every number of callers, every `first` and every tick |
| SamplerCounter.FirstPerResetExactly | zapcore/sampler.go:71-78 | at most `first` per reset is kept by every completed run if and only if there is at most one caller or `first` is at most 1 |
| Sampler.CountsByWindow | zapcore/sampler.go:64-81 | run one call at a time, every window's entries are counted 1, 2, 3, ... |
| Sampler.AloneIsInc | zapcore/sampler.go:64-81 | one caller's uninterrupted load and add, or load, store and swap, from any state of the lock-free counter, takes the two atomics where the sequential counter goes and returns its count |
| Sampler.WindowsSplitTimes | zapcore/sampler.go:64-81 | the windows are a division of the entries: none lost, repeated or moved |
| Sampler.WindowQuota | zapcore/sampler.go:222-226 | a window of N entries admits exactly min(N, first) plus floor(max(0, N - first) / thereafter), or nothing more when thereafter is 0 |
| Sampler.BucketQuota | zapcore/sampler.go:214-229 | over any run, each level and slot lets through exactly the sum of its windows' quotas |
| Sampler.HookConservation | zapcore/sampler.go:219-227 | sampled and dropped reports together equal the enabled entries in range |
| Hash.Fnv32a | zapcore/sampler.go:51-62 | the loop computes the 32-bit FNV-1a hash defined by recursion |
| Hash.PublishedValues | zapcore/sampler.go:44-62 | that hash has the values published for the empty message, `a` and `foobar`, and the slot is its remainder modulo 4096 |
| Hash.OneByteApart | zapcore/sampler.go:44-62 | messages of the same length that differ in one byte never share a counter |
| Sampler.UnrelatedDoNotMatter | zapcore/sampler.go:214-229 | the decision on an entry does not depend on entries of other levels, nor on entries whose messages differ from its own in one byte: leaving any of them out of the run changes nothing |
| Sampler.SamplerCore.constructor | zapcore/sampler.go:152-166 | all counters start at zero |
| Sampler.SamplerCore.IncCheckReset | zapcore/sampler.go:64-81 | one counter moves as the window rule says and no other does |
| Sampler.SamplerCore.Check | zapcore/sampler.go:214-229 | the decision, the hook call and the one counter that moves, for enabled and disabled, in-range and out-of-range levels |
| Sampler.SamplerCore.CheckAll | zapcore/sampler.go:214-229 | over a run, each decision depends only on the times in its own bucket |
| BufferedWriter.BufioWriter.Flush | zapcore/buffered_write_syncer.go:149-151 | bytes reach the sink in order; what a failing sink did not take stays buffered and the error sticks |
| BufferedWriter.BufioWriter.Write | zapcore/buffered_write_syncer.go:154-154 | sink and buffer together grow by exactly the bytes reported, in order, through any number of partial sink writes |
| BufferedWriter.BufferedWriteSyncer.MakeRoom | zapcore/buffered_write_syncer.go:145-152 | the early flush leaves room or an empty buffer, or reports failure, and moves no byte out of order; there is none if the payload fits |
| BufferedWriter.BufferedWriteSyncer.Write | zapcore/buffered_write_syncer.go:137-155 | accepts the first n bytes and says n; once failed takes nothing; a payload that fits hands nothing to the sink |
| BufferedWriter.BufferedWriteSyncer.Sync | zapcore/buffered_write_syncer.go:158-168 | flushes if there is a buffer, and reports either error |
| BufferedWriter.RunAll | zapcore/buffered_write_syncer.go:137-168 | any run over any sink: sink contents followed by the buffer are the first n bytes of each payload; each call returns an error exactly if a flush has failed by then or the sink's own Sync did; after the first failed flush nothing reaches the sink and every call returns 0 and an error; over any sink, every chunk handed over is a concatenation of whole payloads, in order, and until a flush fails none is missing |
| BufferedProtocol.RunInv | zapcore/buffered_write_syncer.go:112-220 | an invariant of mutex, flags, loop, channels and callers holds in every interleaving; what ticks, calls and Stop come to is `BufferedRuns` |
| BufferedProtocol.AtMostOnce | zapcore/buffered_write_syncer.go:112-133 | the flush loop starts at most once, `stop` and `done` are closed at most once, a Stop waiting for `done` does not hold the mutex |
| BufferedProtocol.StopFlushesEverything | zapcore/buffered_write_syncer.go:190-220 | if the Stop that closed `stop` returns nil, the loop has ended and all bytes accepted before its Sync are in the sink |
| BufferedProtocol.AlwaysProgress | zapcore/buffered_write_syncer.go:158-220 | no interleaving deadlocks: until all calls have returned and the loop is over some step is possible, and one other than the clock's while a caller has work left or once stopped |
| BufferedProtocol.StepDescends | zapcore/buffered_write_syncer.go:172-220 | once stopped, every step of anyone lowers a measure |
| BufferedProtocol.StoppedRunsAreBounded | zapcore/buffered_write_syncer.go:172-220 | so a run after stopping is no longer than the measure it started with |
| BufferedRuns.TickFlushes | zapcore/buffered_write_syncer.go:171-188 | over every interleaving, when the loop has received a tick and waits for the next, all that was accepted when it received it is in the sink, or a flush has failed |
| BufferedRuns.OneSyncPerTick | zapcore/buffered_write_syncer.go:171-188 | over every interleaving, ticks received number the loop's Syncs plus one exactly while it is on its way to one, and ticks fired those received plus a pending one |
| BufferedRuns.RunHistory | zapcore/buffered_write_syncer.go:137-220 | over every interleaving, each caller's calls take effect in the order of its program; what has been accepted is exactly the bytes that the counts reported speak of, one call after the other; the loop has been started exactly if there was a Write, and told to stop exactly if there was a Stop after one |
| BufferedRuns.SyncIsForGood | zapcore/buffered_write_syncer.go:158-168 | over every interleaving, what was accepted before a Sync is in the sink ever after it, or a flush has failed |
| BufferedRuns.StopReports | zapcore/buffered_write_syncer.go:190-220 | over every interleaving, Stop's own Sync flushes for good what was accepted before it, and Stop returns an error exactly if that flush or the sink's Sync failed |
| BufferedRuns.OneStopReports | zapcore/buffered_write_syncer.go:192-220 | exactly the Stop that closed `stop` goes on to wait and report: in every run the results and the Stops on their way to one number the closes of `stop` |
| Cores.WithKeepsEnabled | zapcore/core.go:81-85 | With on any tree leaves every level enabled or disabled as it was |
| Cores.WithTwice | zapcore/core.go:81-85 | on any tree, lazy cores included, With a and then b is With a ++ b |
| Cores.WithReachesEverySink | zapcore/tee.go:48-54 | With gives the fields to every io core of the tree, in order, behind what it has, lazy fields included |
| Cores.WriteReachesEveryTarget | zapcore/tee.go:82-88 | Write reaches every io core and hook of the tree once, in order, failing sinks or not, no further than a hooked core, and changes nothing else but once-flags |
| Cores.ErrorIsATargets | zapcore/tee.go:82-88 | the error Write returns, collected over a tee's children, given by hooks and passed on by wrappers, is there exactly if some sink or hook that Write reaches fails |
| Cores.ErrorIsLogged | zapcore/core.go:94-103 | and exactly if what Write has added to the log holds a failed write or failing hooks |
| Cores.WithThenLog | zapcore/core.go:81-110 | logging b through the child that With gave a is logging a ++ b through its parent, on every tree without lazy cores inside: same writes, hooks and counters |
| Cores.SyncReachesEverySink | zapcore/tee.go:90-96 | Sync reaches every sink of the tree once, those under hooked cores included |
| Cores.EnabledByLevels | zapcore/sampler.go:214-217 | whether a level is enabled depends on the atomic levels alone, never on counters or once-flags |
| Cores.DisabledChecksNothing | logger.go:331-333 | on every tree a disabled level makes Check on a nil entry return nil and change no counter and no lazy core |
| Cores.InitKeepsWorld | zapcore/lazy_with.go:42-46 | initializing lazy cores changes their once-flags and nothing else |
| Cores.CheckAdds | zapcore/tee.go:75-80 | Check only adds cores behind those already there, the same ones for every non-nil entry; its side effects do not depend on the entry given |
| Cores.HookJoinsExactly | zapcore/hook.go:52-60 | a hooked core joins exactly when its wrapped core accepts or the entry already had takers |
| Cores.HooksAfterASibling | zapcore/hook.go:52-60 | in a tee, hooks run if and only if an earlier sibling accepted or the wrapped core accepts |
| Cores.HooksRunWithoutTheirCore | zapcore/hook.go:52-60 | a concrete tee in which hooks run for an entry their core refuses |
| Cores.CrashWritesAreSynced | zapcore/core.go:94-110 | on every tree, what an entry above error level leaves in a sink is followed at once by a sync of that sink; failed writes are not; the log only grows |
| Cores.TeeEnabled | zapcore/tee.go:66-73 | the loop answers whether some child is enabled |
| Cores.TeeCheck | zapcore/tee.go:75-80 | the loop threads the entry through the children in order |
| Cores.TeeWith | zapcore/tee.go:48-54 | the loop fills a slice with each child's With |
| Cores.NewIncreaseLevelCore | zapcore/increase_level.go:39-75 | succeeds exactly when no level is newly allowed; the result is enabled for the levels both allow and checks as the wrapped core there and not at all elsewhere |
| Cores.LogEntryWrites | zapcore/core.go:87-110 | a log call adds to the log exactly what the entry and fields come to at the targets of the cores that joined, in order |
| Cores.TargetReceives | zapcore/core.go:94-110 | what one target receives: a hook the entry; a sink that fails a failed write; any other the entry with its own fields before the call's, and a sync exactly above error level |
| Cores.LeavesAreReached | zapcore/tee.go:48-96 | every io core found by following a path down the tree is reached by With and Sync, with the lazy fields met on the way, and by Write unless a hooked core is on the way |
| Cores.ReachedAreLeaves | zapcore/tee.go:48-96 | and nothing else is reached |
| Gates.OpenLeavesGet | zapcore/increase_level.go:61-67 | on a tree without samplers and lazy cores, an io core gets an entry if its own enabler and every level filter on the way to it allow the level |
| Gates.OnlyOpenLeavesGet | zapcore/increase_level.go:61-67 | and on any tree without lazy cores, samplers or not, only then |
| LazyCores.LazyCheckAgrees | zapcore/lazy_with.go:53-62 | checking a lazy core is checking the core it stands for if and only if the level is on, the entry is nil, or no hooked core is reached through tees |
| LazyCores.LazyRunsAreEager | logger.go:202-209 | over every run of Enabled, Check, Write of an entry checked at any earlier time, Write on the core itself, With, Sync, level changes and sinks and hooks that fail and recover, on any number of loggers, replacing each WithLazy by With changes no answer, no returned entry or error, no write, no hook and no counter |
| LazyCores.LazyInATeeDiffers | zapcore/lazy_with.go:53-62 | a concrete tee in which the lazy core stays out of an entry that the eager one joins with its hooks |
| LazyCores.DisabledJoins | zapcore/hook.go:56-58 | at a level that is off, exactly the hooked cores reached through tees join an entry others accepted |
| LazyCores.CheckIgnoresInits | zapcore/lazy_with.go:53-62 | no Check result and no counter depends on which lazy cores were initialized before |
| LazyCores.LazyWithCore.constructor | zapcore/lazy_with.go:34-40 | With has not been called on the original |
| LazyCores.LazyWithCore.InitOnce | zapcore/lazy_with.go:42-46 | With has been called on the original exactly once, whenever and however often this runs |
| LazyCores.LazyWithCore.With | zapcore/lazy_with.go:48-51 | the child is that of the eager core |
| LazyCores.LazyWithCore.Check | zapcore/lazy_with.go:53-62 | a level that is off leaves it uninitialized; otherwise it answers as the value model does |
| LazyCores.LazyWithCore.Write | zapcore/lazy_with.go:69-72 | writes as the eager core |
| LazyCores.LazyWithCore.Sync | zapcore/lazy_with.go:74-77 | syncs as the eager core |
| SampledCores.CheckMovesOwnCounters | zapcore/sampler.go:214-229 | Check moves the counters of the samplers in its own tree and no others |
| SampledCores.ChildCheck | zapcore/sampler.go:203-229 | a check by any With-child of a sampler drops what the shared history says to drop and otherwise answers as the wrapped core with the child's fields |
| SampledCores.RunTracks | zapcore/sampler.go:203-212 | over every run, whichever child makes each call, the counters are those of one sampler that saw them all |
| SampledCores.HonestAccepts | zapcore/increase_level.go:39-67 | a tree without samplers, whose filters allow a level only if what they filter does, accepts an entry exactly if it enables its level |
| SampledCores.ChildrenShareTheQuota | zapcore/sampler.go:203-229 | over any run through a sampler on such a tree and all loggers made from it by With, each level and slot accepts exactly the quotas of its windows |
| CheckedEntries.Clear | zapcore/entry.go:232-236 | the loop leaves every slot of the backing array nil and the length zero |
| CheckedEntries.CheckedEntry.constructor | zapcore/entry.go:35-40 | a new pool member holds four nil cores |
| CheckedEntries.CheckedEntry.Reset | zapcore/entry.go:227-241 | no core, hook or flag of an earlier use is left, not even in unused slots |
| CheckedEntries.CheckedEntry.AddCore | zapcore/entry.go:298-305 | one more core at the end, nothing else changed |
| CheckedEntries.CheckedEntry.Before | zapcore/entry.go:319-326 | one more pre-write hook at the end, nothing else changed |
| CheckedEntries.CheckedEntry.After | zapcore/entry.go:331-338 | the after-hook is replaced, nothing else changed |
| CheckedEntries.CheckedEntry.RunBefore | zapcore/entry.go:269-272 | entry and fields are folded through the pre-write hooks, first hook first |
| CheckedEntries.CheckedEntry.WriteCores | zapcore/entry.go:274-277 | each core is written once, in order, errors or not, and it is known whether one was returned |
| CheckedEntries.CheckedEntry.Write | zapcore/entry.go:246-293 | delivers once: every target of every core receives the entry and fields as the pre-write hooks left them, in order, then the after-hook runs, with one complaint if cores returned errors and there is an error output; a dirty entry reaches no core and no hook and only complains; the entry goes back to the pool exactly when its hook returns |
| CheckedEntries.FirstHookFirst | zapcore/entry.go:269-272 | the first pre-write hook gets the entry and fields as they came, and each later one what the one before it returned |
| CheckedEntries.DeliveredWrites | zapcore/entry.go:246-293 | a write adds to the log exactly what the targets of its cores receive of the entry and fields as the pre-write hooks left them, in order |
| CheckedEntries.PoolIsTransparent | zapcore/entry.go:35-53 | whichever members the pool hands out, makes or forgets, every interleaving of holders that drop an entry after Write delivers what it would with a private entry each |
| CheckedEntries.ObtainRefines | zapcore/entry.go:42-46 | an entry taken from the pool means a new entry, whatever used it before, and disturbs no other holder |
| Logger.TerminalHook | logger.go:424-439 | never a hook that does nothing; the override if there is a real one, else the standard hook |
| Logger.FastPathIsSound | logger.go:331-343 | the level test returns what the full check would, on every core tree |
| Logger.FastPathReachesNoFurther | logger.go:331-356 | testing at every level would be sound if and only if the level has no terminal hook or is enabled |
| Logger.SugarAgreesWithLog | sugar.go:346-357 | skipping the formatting of a disabled message is never noticed, whatever sorting the arguments logs on the side; without such messages the call is the plain one |
| Logger.LogEndsAsItShould | logger.go:322-363 | in every log call the terminal hook its level calls for (the override, or panic or exit; for DPanic only in development) runs exactly once, disabled levels included, with the call's entry and fields, after everything above error level has been synced; no other hook runs; one complaint is made if a core that took the entry returned an error |
| Logger.LogWrites | logger.go:322-363 | a log call adds to the log what its entry and fields come to at the targets of the cores that took it, in order, and nothing if none did |
| Logger.LogOverIo | logger.go:322-363 | over one io core: an entry at an enabled level is written once with the core's fields before the call's, and at any other not at all |
| Logger.SugarWrites | sugar.go:346-357 | a sugared call writes what its arguments log on the side and then the entry, to those who took it before |
| FieldUnion.UnpackPack | zapcore/field.go:126-168 | every integer, unsigned, bool, duration, float bit pattern and time stored by its constructor comes back unchanged |
| FieldUnion.RangeTestIsExact | field.go:347-352 | the range test passes exactly when the true count of nanoseconds fits in int64 |
| FieldUnion.UnixNanoExactInRange | field.go:347-352 | the wrapping arithmetic is exact if and only if the range test passes |
| FieldUnion.CompactTimes | field.go:36-39 | the compact form is chosen exactly when it can hold the time |
| FieldUnion.FromNanos | zapcore/field.go:150-156 | a count of nanoseconds, negative ones included, becomes the instant with that count |
| FieldUnion.WrapsBack | field.go:250-308 | unsigned values survive the passage through int64 |
| SlogHandler.ChainPlaces | exp/zapslog/handler.go:138-238 | for every chain, each attribute lands under exactly the non-empty groups opened before it; the namespaces opened are those before the last attribute that is more than Skip, each once and in order |
| SlogHandler.EmitPlaces | exp/zapslog/handler.go:171-188 | within one list of attributes, pending groups are opened exactly when some attribute is more than Skip |
| SlogHandler.AttrsOpenNothing | exp/zapslog/handler.go:76-114 | no attribute, nested groups and resolved values included, leaves a namespace open |
| SlogHandler.HollowMakesNoCall | exp/zapslog/handler.go:76-114 | an attribute makes no call if and only if it is empty, an inline group of such attributes, or resolves to one |
| SlogHandler.ChainFills | exp/zapslog/handler.go:138-238 | for every chain, no opened namespace is left empty if and only if no group is opened or some attribute after the last opened one makes a call |
| AttrReading.AttrMembers | exp/zapslog/handler.go:76-114 | what a reader finds for any attribute, by its key and value alone: a group is an object of its attributes' members, one without a name stands in place, a value that resolves is what it resolves to, and the empty attribute is nothing |
| SlogHandler.EmptyInlineGroupOpensGroups | exp/zapslog/handler.go:97-100 | an inline group without members is not Skip and opens groups that stay empty |
| SlogHandler.ConvertLevel | exp/zapslog/handler.go:119-130 | error from 8 on, warn from 4 on, info from 0 on, and debug below |
| SlogHandler.Handler.New | exp/zapslog/handler.go:53-62 | no context and no pending groups |
| SlogHandler.Handler.AppendGroups | exp/zapslog/handler.go:190-195 | appends a namespace for each pending group, in order |
| SlogHandler.Handler.FieldsFor | exp/zapslog/handler.go:199-211 | the loop with `addedNamespace` makes the specified list and stays within the capacity it reserved |
| SlogHandler.Handler.WithAttrs | exp/zapslog/handler.go:199-220 | a new handler whose core is the With of the fields, with the groups cleared exactly if they were opened; no existing handler changes |
| SlogHandler.Handler.WithGroup | exp/zapslog/handler.go:224-238 | a new handler with its own array of groups; the receiver itself for an empty name |
| SlogHandler.Handler.Handle | exp/zapslog/handler.go:138-188 | the core decides at the converted level, and what it takes is written with the record's fields behind the groups still pending |
| SlogHandler.HandleChain | exp/zapslog/handler.go:138-238 | handlers derived along any chain over any core whose lazy cores are at its root, with a record at the end: it is logged as that core would log it with all the chain's fields, placed as the chain says, with the exact condition for no empty namespace |
| LineWriter.PiecesAreUnique | zapio/writer.go:91-116 | there is one way to cut a stream into pieces without newlines |
| LineWriter.StreamIsSplit | zapio/writer.go:75-116 | with the level enabled, messages logged so far followed by the buffer are the stream split on newline |
| LineWriter.FlushedStream | zapio/writer.go:122-143 | Sync and Close log the last piece exactly when it is not empty |
| LineWriter.FlushedWhileOff | zapio/writer.go:122-143 | if the level is switched off before, they drop the last piece |
| LineWriter.Writer.WriteLine | zapio/writer.go:91-116 | consumes up to and including the first newline, or all there is, fast path included |
| LineWriter.Writer.Write | zapio/writer.go:75-87 | terminates, reports all bytes and leaves the state that byte-by-byte processing leaves, enabled or not |
| LineWriter.Writer.FlushBuffer | zapio/writer.go:138-143 | logs the buffer unless it is empty and empty messages are not wanted, and empties it |
| LineWriter.Writer.Sync | zapio/writer.go:128-134 | the specified flush |
| LineWriter.ChunkingDoesNotMatter | zapio/writer.go:75-143 | two runs whose writes make the same stream, with Syncs and level changes at the same places, log the same messages |
| Sweeten.SweetenFields | sugar.go:395-454 | the loop yields the fields, complaints and invalid pairs of the reference, within the capacities it reserved; merged in argument order they give the arguments back: each pair its key and the value after it, each invalid pair where it stands, the first error as a field and the others as complaints, a lone key last |
| Sweeten.AccountIsUnique | sugar.go:395-454 | there is one way only to account for given arguments, so that this determines what the loop yields |
| Sweeten.EveryIndexOnce | sugar.go:408-447 | every argument index is consumed exactly once, in order |
| Sweeten.TokensCoverUniquely | sugar.go:408-447 | the reference is the only way to lay fitting roles end to end over the arguments |
| Sweeten.OneErrorField | sugar.go:417-426 | at most one error becomes a field, and errors are extra exactly after it |
| Sweeten.InvalidPositionsAreTrue | sugar.go:436-442 | each invalid pair records the position, key and value it was found with |

## Left out

- Float and complex formatting, base64, `time.AppendFormat` and the reflection encoder: library code, taken as tokens that are well formed.
- Times and durations in the twin comparison are compared as the encoder settings render them; the map itself keeps Go values.
- MapObjectEncoder.Encoder.Marshal: a nested object is stored when its marshaler is done, not by reference before it starts, so a marshaler that panics halfway leaves no partial map.
- Reflected values that fail to encode are outside the twin comparison, because the map encoder stores them and never fails.
- Sharing of a field's slices and pointers with the caller, so that a lazily evaluated object logs its later state.
- LazyCores.LazyWithCore.InitOnce: races of goroutines on the once-flag are taken as sequential, as `sync.Once` makes them.
- Cores.WithThenLog: trees with lazy cores inside, because With makes those eager and `LazyCores.LazyInATeeDiffers` shows a tee where that is noticed; `SlogHandler.HandleChain` compares logs for the same trees.
- Sinks that take part of a write: modelled in `BufferedWriter`, while in core trees a write fails or succeeds.
- The hooks of one hooked core are a single event of the log and return one error or none.
- Caller and stack capture, logger names, clocks: they annotate an entry and decide nothing.
- Terminal actions: a panic, exit or Goexit is a recorded outcome, and runs are not cut short by it.
- Monotonic clock readings of times, which the compact form of a time drops.
- FieldUnion.UnpackPack: seconds are taken within int64 from 1970, and floats by their bit patterns.
- LineWriter.Writer.Write: a level switched while one Write is running; levels change between calls.
- `multiCore.Level` and `LevelOf`: a summary for display that no decision depends on.
- Sampling with a negative `first` or `thereafter`, which the conversion to unsigned makes very large.
- Console encoder, configuration, sinks by URL, HTTP handler, globals, standard-library redirection, gRPC adapter: wrappers that would add easy members only.
