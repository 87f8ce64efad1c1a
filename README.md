# clj-otel appender configuration: context-data / MDC key selection

This project models the configuration logic of clj-otel's two log appenders,
the Log4j `CljOtelAppender` and the Logback `CljOtelAppender`, and proves
properties of it in Dafny 4.11.

Both appenders are configured with a comma-separated list of context-data
(Log4j) or MDC (Logback) keys to copy into log records. Both parse that list
with the same `trimmedSet` pipeline. A `null` string selects nothing.
Otherwise the string is split on `,`, each piece is trimmed the way Java's
`String.trim` does it (every code unit up to U+0020 is removed from both
ends), the empty pieces are dropped and the rest are collected into a set.
A selection that is exactly `{"*"}` turns on a "capture all keys" flag.

- `key_selection.dfy`, module `KeySelection`: the shared parser.
  - `Split` splits on every `,` and keeps all empty pieces.
  - `Join` is its inverse.
  - `JavaSplit` is `String.split(",")` as Java defines it: a string with no
    comma is its own single piece, otherwise trailing empty pieces are dropped.
  - `TrimStartIndex`, `TrimEndIndex` and `Trim` model `String.trim`: a start
    index moves forward over spaces, then an end index moves back over
    spaces, and the result is the slice between them.
  - `TrimmedSet` is `trimmedSet`. It collects the keys from the full split;
    `TrimmedSetAsWritten` proves that collecting them from `JavaSplit`, as
    the Java code does, gives the same set.
  - `SelectsAll` is the `size() == 1 && contains("*")` test.
  - Membership in the parsed set is characterised positionally
    (`FieldAt`, `KeyAt`): a key is selected exactly when it stands alone,
    up to spaces, in one comma-delimited field of the string.
- `log4j_appender.dfy`, module `Log4jAppender`: the Log4j appender's
  configuration is final and set once. It is a datatype built by
  `NewAppender` (the constructor) and `CreateAppender` (the plugin factory).
- `logback_appender.dfy`, module `LogbackAppender`: the Logback appender is
  a mutable bean. It is a class `OtelAppender` with the bean's public fields
  and one setter method per option. `Snapshot()` reads every field into a
  `Config` value, so that each setter can state its whole new state. The
  class invariant `Valid()` says that the all-MDC flag holds exactly when
  the key set is `{"*"}`.

A Java `null` string is `None` of `KeySelection.Option`. A Java `String`
is `seq<char>`. A Dafny `char` is a Unicode scalar value, so a surrogate
pair that Java stores as two code units is one `char` here.

## Model

| member | source | states |
|---|---|---|
| KeySelection.Split | clj-otel-adapter-log4j/java/steffan_westcott/clj_otel/adapter/log4j/CljOtelAppender.java:97 | the comma split always has at least one piece, so the empty string is one empty piece |
| KeySelection.SplitPiecesWithoutSeparator | clj-otel-adapter-log4j/java/steffan_westcott/clj_otel/adapter/log4j/CljOtelAppender.java:97 | no piece of the comma split contains a comma |
| KeySelection.SplitWithoutSeparator | clj-otel-adapter-log4j/java/steffan_westcott/clj_otel/adapter/log4j/CljOtelAppender.java:97 | a comma-free string is its own single piece |
| KeySelection.JoinSplit | clj-otel-adapter-log4j/java/steffan_westcott/clj_otel/adapter/log4j/CljOtelAppender.java:97 | joining the pieces of a string with commas gives the string back |
| KeySelection.SplitJoin | clj-otel-adapter-log4j/java/steffan_westcott/clj_otel/adapter/log4j/CljOtelAppender.java:97 | splitting a comma-join of comma-free pieces gives the pieces back, so Split and Join are inverses |
| KeySelection.SplitAppend | clj-otel-adapter-log4j/java/steffan_westcott/clj_otel/adapter/log4j/CljOtelAppender.java:97 | the pieces of `a,b` are the pieces of `a` followed by the pieces of `b` |
| KeySelection.FieldPieces | clj-otel-adapter-log4j/java/steffan_westcott/clj_otel/adapter/log4j/CljOtelAppender.java:97 | the pieces from a field onwards are that field followed by the pieces after the next comma |
| KeySelection.FieldInSplit | clj-otel-adapter-log4j/java/steffan_westcott/clj_otel/adapter/log4j/CljOtelAppender.java:97 | every comma-delimited field of the string is one of its pieces |
| KeySelection.PieceIsField | clj-otel-adapter-log4j/java/steffan_westcott/clj_otel/adapter/log4j/CljOtelAppender.java:97 | every piece is a comma-delimited field of the string; only the first piece starts at 0 |
| KeySelection.DropTrailingEmpty | clj-otel-adapter-log4j/java/steffan_westcott/clj_otel/adapter/log4j/CljOtelAppender.java:97 | removing trailing empty pieces leaves a prefix whose last piece, if any, is not empty, and removes only empty pieces |
| KeySelection.JavaSplit | clj-otel-adapter-log4j/java/steffan_westcott/clj_otel/adapter/log4j/CljOtelAppender.java:97 | `split(",")` gives `[s]` for a comma-free `s`; otherwise it removes the trailing empty pieces, so its last piece, if any, is not empty; it is always a prefix of the full split and drops only empty pieces |
| KeySelection.IsSpace | clj-otel-adapter-log4j/java/steffan_westcott/clj_otel/adapter/log4j/CljOtelAppender.java:97 | the code units `trim` removes, those up to U+0020, never include the comma |
| KeySelection.TrimStartIndex | clj-otel-adapter-log4j/java/steffan_westcott/clj_otel/adapter/log4j/CljOtelAppender.java:97 | the start index of `trim` stops at the end or at the first code unit above U+0020 |
| KeySelection.TrimEndIndex | clj-otel-adapter-log4j/java/steffan_westcott/clj_otel/adapter/log4j/CljOtelAppender.java:97 | the end index of `trim` stops at the start index or just after a code unit above U+0020 |
| KeySelection.TrimStartSkipsSpaces | clj-otel-adapter-log4j/java/steffan_westcott/clj_otel/adapter/log4j/CljOtelAppender.java:97 | `trim` skips only code units <= U+0020 at the front |
| KeySelection.TrimEndSkipsSpaces | clj-otel-adapter-log4j/java/steffan_westcott/clj_otel/adapter/log4j/CljOtelAppender.java:97 | `trim` skips only code units <= U+0020 at the back |
| KeySelection.TrimStartIndexAt | clj-otel-adapter-log4j/java/steffan_westcott/clj_otel/adapter/log4j/CljOtelAppender.java:97 | after a run of spaces, the start index stops exactly at the first non-space |
| KeySelection.TrimEndIndexAt | clj-otel-adapter-log4j/java/steffan_westcott/clj_otel/adapter/log4j/CljOtelAppender.java:97 | before a run of spaces, the end index stops exactly after the last non-space |
| KeySelection.Trim | clj-otel-adapter-log4j/java/steffan_westcott/clj_otel/adapter/log4j/CljOtelAppender.java:97 | `trim` gives a string no longer than its input that neither starts nor ends with a code unit <= U+0020 |
| KeySelection.TrimSlice | clj-otel-adapter-log4j/java/steffan_westcott/clj_otel/adapter/log4j/CljOtelAppender.java:97 | the trim is a slice of the input with only spaces cut off at both ends |
| KeySelection.TrimExactly | clj-otel-adapter-log4j/java/steffan_westcott/clj_otel/adapter/log4j/CljOtelAppender.java:97 | conversely, a trimmed slice with only spaces around it is the trim |
| KeySelection.TrimWithoutSeparator | clj-otel-adapter-log4j/java/steffan_westcott/clj_otel/adapter/log4j/CljOtelAppender.java:97 | trimming a comma-free string gives a comma-free string |
| KeySelection.TrimAround | clj-otel-adapter-log4j/java/steffan_westcott/clj_otel/adapter/log4j/CljOtelAppender.java:97 | trimming a trimmed string with any spaces around it gives exactly that string |
| KeySelection.TrimTwice | clj-otel-adapter-log4j/java/steffan_westcott/clj_otel/adapter/log4j/CljOtelAppender.java:97 | trimming is idempotent |
| KeySelection.KeysOf | clj-otel-adapter-log4j/java/steffan_westcott/clj_otel/adapter/log4j/CljOtelAppender.java:97 | the trim, filter and collect stages: the collected set never holds the empty string, and every member is trimmed |
| KeySelection.TrimmedSet | clj-otel-adapter-log4j/java/steffan_westcott/clj_otel/adapter/log4j/CljOtelAppender.java:95-97 | `null` gives the empty set |
| KeySelection.TrimmedSetAsWritten | clj-otel-adapter-logback/java/steffan_westcott/clj_otel/adapter/logback/CljOtelAppender.java:93 | the pipeline over Java's split, which drops trailing empty pieces, selects exactly the trimmed non-empty pieces of the full split |
| KeySelection.TrimmedSetKeys | clj-otel-adapter-log4j/java/steffan_westcott/clj_otel/adapter/log4j/CljOtelAppender.java:97 | every selected key is non-empty, trimmed and free of commas |
| KeySelection.TrimmedSetMembers | clj-otel-adapter-log4j/java/steffan_westcott/clj_otel/adapter/log4j/CljOtelAppender.java:97 | a string is selected iff it is a non-empty trimmed comma-free key that stands, up to spaces, alone in one comma-delimited field |
| KeySelection.PieceKeyAt | clj-otel-adapter-log4j/java/steffan_westcott/clj_otel/adapter/log4j/CljOtelAppender.java:97 | the trim of every piece stands, up to spaces, in a field of the string (soundness half of membership) |
| KeySelection.TrimmedSetComplete | clj-otel-adapter-log4j/java/steffan_westcott/clj_otel/adapter/log4j/CljOtelAppender.java:97 | every key standing alone in a field is selected (completeness half of membership) |
| KeySelection.SelectedPiece | clj-otel-adapter-log4j/java/steffan_westcott/clj_otel/adapter/log4j/CljOtelAppender.java:97 | every selected key is the trim of some piece |
| KeySelection.TrimmedSetAppend | clj-otel-adapter-log4j/java/steffan_westcott/clj_otel/adapter/log4j/CljOtelAppender.java:97 | the keys of `a,b` are the union of the keys of `a` and of `b` |
| KeySelection.TrimmedSetOrderIrrelevant | clj-otel-adapter-log4j/java/steffan_westcott/clj_otel/adapter/log4j/CljOtelAppender.java:97 | `a,b` and `b,a` select the same keys |
| KeySelection.TrimmedSetRepetitionIrrelevant | clj-otel-adapter-log4j/java/steffan_westcott/clj_otel/adapter/log4j/CljOtelAppender.java:97 | `a,a` selects the same keys as `a` |
| KeySelection.TrimmedSetOfField | clj-otel-adapter-log4j/java/steffan_westcott/clj_otel/adapter/log4j/CljOtelAppender.java:97 | a comma-free string selects its trim, or nothing if the trim is empty |
| KeySelection.TrimmedSetOfPaddedKey | clj-otel-adapter-log4j/java/steffan_westcott/clj_otel/adapter/log4j/CljOtelAppender.java:97 | a key with only spaces around it selects exactly that key |
| KeySelection.TrimmedSetOfBlank | clj-otel-adapter-log4j/java/steffan_westcott/clj_otel/adapter/log4j/CljOtelAppender.java:97 | a string of spaces selects nothing |
| KeySelection.TrimmedSetOfKey | clj-otel-adapter-log4j/java/steffan_westcott/clj_otel/adapter/log4j/CljOtelAppender.java:97 | a key alone selects exactly itself |
| KeySelection.TrimmedSetOfTwoKeys | clj-otel-adapter-log4j/java/steffan_westcott/clj_otel/adapter/log4j/CljOtelAppender.java:97 | `x,y` selects exactly `{x, y}` for any two keys |
| KeySelection.TrimmedSetOfEmptyThenKey | clj-otel-adapter-log4j/java/steffan_westcott/clj_otel/adapter/log4j/CljOtelAppender.java:97 | an empty field before a key adds nothing |
| KeySelection.TrimmedSetOfSampleTail | clj-otel-adapter-log4j/java/steffan_westcott/clj_otel/adapter/log4j/CljOtelAppender.java:97 | ` y ,,z` selects exactly `{y, z}` |
| KeySelection.TrimmedSetOfSample | clj-otel-adapter-log4j/java/steffan_westcott/clj_otel/adapter/log4j/CljOtelAppender.java:97 | `x, y ,,z` selects exactly `{x, y, z}` for any three keys |
| KeySelection.TrimmedSetOfRepeatedPaddedKey | clj-otel-adapter-log4j/java/steffan_westcott/clj_otel/adapter/log4j/CljOtelAppender.java:97 | ` x , x ` selects exactly `{x}` |
| KeySelection.ExampleEmptySelections | clj-otel-adapter-log4j/java/steffan_westcott/clj_otel/adapter/log4j/CljOtelAppender.java:96-97 | `""` and `","` select nothing |
| KeySelection.ExamplePaddedKey | clj-otel-adapter-log4j/java/steffan_westcott/clj_otel/adapter/log4j/CljOtelAppender.java:97 | `" a "` selects `{"a"}` |
| KeySelection.ExampleRepeatedKey | clj-otel-adapter-log4j/java/steffan_westcott/clj_otel/adapter/log4j/CljOtelAppender.java:97 | `"a,a"` selects `{"a"}` |
| KeySelection.ExampleMixedSpacing | clj-otel-adapter-log4j/java/steffan_westcott/clj_otel/adapter/log4j/CljOtelAppender.java:97 | `"a, b ,,c"` selects `{"a", "b", "c"}` |
| KeySelection.SelectsAll | clj-otel-adapter-log4j/java/steffan_westcott/clj_otel/adapter/log4j/CljOtelAppender.java:88 | `size() == 1 && contains("*")` holds iff the set is exactly `{"*"}` |
| KeySelection.WildcardKeysOnlyWildcardPieces | clj-otel-adapter-log4j/java/steffan_westcott/clj_otel/adapter/log4j/CljOtelAppender.java:88 | if the pieces select exactly `{"*"}`, some piece trims to `*` and every piece trims to `*` or to nothing |
| KeySelection.OnlyWildcardPiecesWildcardKeys | clj-otel-adapter-log4j/java/steffan_westcott/clj_otel/adapter/log4j/CljOtelAppender.java:88 | conversely, such pieces select exactly `{"*"}` |
| KeySelection.SelectsAllFields | clj-otel-adapter-log4j/java/steffan_westcott/clj_otel/adapter/log4j/CljOtelAppender.java:88 | a selection string means "all keys" iff some field trims to `*` and every field trims to `*` or to nothing |
| KeySelection.ExampleWildcard | clj-otel-adapter-log4j/java/steffan_westcott/clj_otel/adapter/log4j/CljOtelAppender.java:88 | `"*"` means "all keys" |
| KeySelection.ExampleRepeatedPaddedWildcard | clj-otel-adapter-log4j/java/steffan_westcott/clj_otel/adapter/log4j/CljOtelAppender.java:88 | `" * , * "` means "all keys" |
| KeySelection.ExampleWildcardAmongKeys | clj-otel-adapter-log4j/java/steffan_westcott/clj_otel/adapter/log4j/CljOtelAppender.java:88 | `"*,x"` selects `{"*", "x"}` and does not mean "all keys" |
| KeySelection.ExampleNothingSelected | clj-otel-adapter-log4j/java/steffan_westcott/clj_otel/adapter/log4j/CljOtelAppender.java:88 | `""` and `null` do not mean "all keys" |
| Log4jAppender.NewAppender | clj-otel-adapter-log4j/java/steffan_westcott/clj_otel/adapter/log4j/CljOtelAppender.java:81-90 | the constructor stores every flag and the key set as given, `*` included, and sets `allCdataAttrs` iff the set is `{"*"}` |
| Log4jAppender.CreateAppender | clj-otel-adapter-log4j/java/steffan_westcott/clj_otel/adapter/log4j/CljOtelAppender.java:100-111 | the factory parses the selection string with `trimmedSet` and passes every other option through in the same position; `null` selects nothing and not "all" |
| Log4jAppender.CreateAppenderCapturesAll | clj-otel-adapter-log4j/java/steffan_westcott/clj_otel/adapter/log4j/CljOtelAppender.java:88 | a built appender captures all context data iff the selection string's fields trim only to `*` or nothing, at least one to `*` |
| Log4jAppender.CreateAppenderSelects | clj-otel-adapter-log4j/java/steffan_westcott/clj_otel/adapter/log4j/CljOtelAppender.java:109-110 | a key is in a built appender's set iff it stands alone, up to spaces, in one field of the selection string |
| Log4jAppender.ExamplesOfCaptureAll | clj-otel-adapter-log4j/java/steffan_westcott/clj_otel/adapter/log4j/CljOtelAppender.java:88 | `"*"` and `" * , * "` turn `allCdataAttrs` on; `"*,x"`, `""` and `null` leave it off |
| LogbackAppender.Defaults | clj-otel-adapter-logback/java/steffan_westcott/clj_otel/adapter/logback/CljOtelAppender.java:18-68 | every capture flag is off, the MDC key set is empty, and the defaults satisfy the MDC invariant |
| LogbackAppender.OtelAppender.constructor | clj-otel-adapter-logback/java/steffan_westcott/clj_otel/adapter/logback/CljOtelAppender.java:18-68 | a new appender holds the defaults and satisfies the invariant |
| LogbackAppender.WithMdcAttributes | clj-otel-adapter-logback/java/steffan_westcott/clj_otel/adapter/logback/CljOtelAppender.java:128-131 | after setting the MDC selection, the key set is `trimmedSet` of the string, the all-MDC flag holds iff the set is `{"*"}`, `null` resets both, and no other option changes |
| LogbackAppender.WithMdcAttributesIdempotent | clj-otel-adapter-logback/java/steffan_westcott/clj_otel/adapter/logback/CljOtelAppender.java:128-131 | setting the MDC selection twice with the same string is the same as setting it once |
| LogbackAppender.WithMdcAttributesLastWins | clj-otel-adapter-logback/java/steffan_westcott/clj_otel/adapter/logback/CljOtelAppender.java:128-131 | only the last MDC selection counts |
| LogbackAppender.OtelAppender.SetCaptureMdcAttributes | clj-otel-adapter-logback/java/steffan_westcott/clj_otel/adapter/logback/CljOtelAppender.java:128-131 | sets the key set to `trimmedSet(attributes)` and the all-MDC flag from it, changes nothing else, and re-establishes the invariant from any state |
| LogbackAppender.SetCaptureMdcAttributesTwice | clj-otel-adapter-logback/java/steffan_westcott/clj_otel/adapter/logback/CljOtelAppender.java:128-131 | two calls of the MDC setter with the same string leave the same state as one call |
| LogbackAppender.OtelAppender.SetCaptureExperimentalAttributes | clj-otel-adapter-logback/java/steffan_westcott/clj_otel/adapter/logback/CljOtelAppender.java:96-98 | assigns only `captureExperimentalAttributes` and keeps the invariant |
| LogbackAppender.OtelAppender.SetCaptureCodeAttributes | clj-otel-adapter-logback/java/steffan_westcott/clj_otel/adapter/logback/CljOtelAppender.java:100-102 | assigns only `captureCodeAttributes` and keeps the invariant |
| LogbackAppender.OtelAppender.SetCaptureMarkerAttribute | clj-otel-adapter-logback/java/steffan_westcott/clj_otel/adapter/logback/CljOtelAppender.java:104-106 | assigns only `captureMarkerAttribute` and keeps the invariant |
| LogbackAppender.OtelAppender.SetCaptureKeyValuePairAttributes | clj-otel-adapter-logback/java/steffan_westcott/clj_otel/adapter/logback/CljOtelAppender.java:108-110 | assigns only `captureKeyValuePairAttributes` and keeps the invariant |
| LogbackAppender.OtelAppender.SetCaptureLoggerContext | clj-otel-adapter-logback/java/steffan_westcott/clj_otel/adapter/logback/CljOtelAppender.java:112-114 | assigns only `captureLoggerContext` and keeps the invariant |
| LogbackAppender.OtelAppender.SetCaptureArguments | clj-otel-adapter-logback/java/steffan_westcott/clj_otel/adapter/logback/CljOtelAppender.java:116-118 | assigns only `captureArguments` and keeps the invariant |
| LogbackAppender.OtelAppender.SetCaptureLogstashMarkerAttributes | clj-otel-adapter-logback/java/steffan_westcott/clj_otel/adapter/logback/CljOtelAppender.java:120-122 | assigns only `captureLogstashMarkerAttributes` and keeps the invariant |
| LogbackAppender.OtelAppender.SetCaptureLogstashStructuredArguments | clj-otel-adapter-logback/java/steffan_westcott/clj_otel/adapter/logback/CljOtelAppender.java:124-126 | assigns only `captureLogstashStructuredArguments` and keeps the invariant |
| LogbackAppender.OtelAppender.SetCaptureEventName | clj-otel-adapter-logback/java/steffan_westcott/clj_otel/adapter/logback/CljOtelAppender.java:133-135 | assigns only `captureEventName` and keeps the invariant |

## Left out

- The startup buffering gate. The Log4j appender declares `initialized`, `delayedEmits` and `lock`, but the enqueue and drain logic lives in Clojure code that is not part of this model, and it relies on a read-write lock and a concurrent queue.
- Attribute mapping. Both `append` methods call a Clojure function that is not part of this model, so no mapping rule is modelled. This includes the promise that the literal key `*` is never emitted as an attribute. The appenders themselves keep `*` in the stored set, and the model stores it unchanged.
- `CljOtelMdcAppender` and `CljOtelContextDataProvider`. Each only delegates to Clojure or to Logback library code that is not part of this model.
- Framework glue. This covers the Clojure `require` and `var` lookups in the constructors, the `append` function reference, the plugin annotations, the Log4j `Filter` argument and the appender base-class lifecycle. `NewAppender` keeps the appender `name` but not the filter.
- Direct writes to the Logback bean's public fields. Dafny clients can assign these fields too. `Valid()` holds only while the MDC fields are changed through `SetCaptureMdcAttributes`, as in the Java code.
- Java's `Set` is mutable and hash-based, and `Collections.emptySet()` is an immutable singleton. The model uses Dafny's value sets, so it does not capture identity or aliasing of the returned set objects.
- Unpaired UTF-16 surrogates. A Dafny `char` is a Unicode scalar value, so a Java string that holds a lone surrogate has no counterpart here. Every other string maps one to one. The comma and the code units up to U+0020 are never part of a surrogate pair, so split and trim behave the same on scalar values as on code units.
- `String.split` takes a regular expression. The model covers only the one pattern used here, a single literal comma.
