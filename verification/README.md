# kmp-libs core in Dafny

This project models four pieces of the kmp-libs Kotlin Multiplatform library.

- **UI state** (`UiState.kt`). An asynchronous UI operation is `Loading`, `Success(data)` or `Error(throwable, retry)`. The file also has:
  - the pure combinators `ok`, `map`, `mapSuccess`, `onRetry` and `uiState`;
  - the branch `Render` picks;
  - `catching`, which turns an operation's outcome into a state. A timeout becomes an error, any other cancellation is re-raised, and every other throwable becomes an error.
  - the two writes `CoroutineScope.produce` makes to its holder.
- **Preference flows** (`UpdatingFlow.kt`). An `UpdatingFlow` is bound to a settings key, and `update` / `+=` write both the store and the flow. A property delegate (`booleanFlow` … `serializedFlow`) creates its flow on first access. The flow starts from the stored value, or from the delegate's default when nothing is stored, and the delegate caches it.
- **Inline-icon text** (`InlinedText.kt`). This is the `InlinedTextImpl` builder DSL over an abstract annotated-string builder, in `annotated_string.dfy`. It covers:
  - `+"s"`, `+annotated`, `icon` / `+image` with ids `<<icon{n}>>`, `-"s"` and `-"s"["url"]`;
  - `build`;
  - the composable's choice between clickable and plain text;
  - the tap lookup.
- **Logger tags** (`LL.jvm.kt`). `createStackElementTag` removes the anonymous-class suffix matched by the Java regex `(\$\d+)+$` and keeps the simple name. `getMethodAndLine` builds the tag and takes the line from the frame's string form.

Modules, one per file:
- `Wrappers` (`Option`)
- `UiStates`
- `Prefs`
- `AnnotatedText`
- `InlinedText`
- `Logger`

Modelling choices:
- Callbacks, colours and images are opaque tokens.
- The settings store is a `map<string, V>` over one generic value type.
- Java's `$` anchor is modelled as Java defines it outside MULTILINE mode: it matches at the end of the input and also just before a final line terminator (`\r\n`, `\n`, `\r`, U+0085, U+2028, U+2029). As a result, stripping the anonymous suffix is proved idempotent for names without line terminators, and it is not idempotent for some names that hold them: `Logger.StripNotIdempotentWithTerminators` proves a counterexample. Other names with terminators, such as `A\n`, are stable.
- The annotated-string builder and its query follow the UI toolkit's documented behaviour:
  - a pushed range stays open until `pop`, and `toAnnotatedString` closes it at the end of the text;
  - `getStringAnnotations(tag, start, end)` returns, in order, the annotations with that tag whose range meets `[start, end)`;
  - a range meets the query when the ranges overlap, or when one contains the other. An empty range lies in any range around it, except that an empty range at the shared end of a non-empty range is not contained in it.
  The toolkit's source is not part of this model.

## Model

| member | source | states |
|---|---|---|
| UiStates.Map | compose/src/commonMain/kotlin/com/github/naixx/compose/UiState.kt:66-76 | a success maps to the success of the transformed data; loading stays loading; an error keeps its throwable and retry |
| UiStates.MapCounted | compose/src/commonMain/kotlin/com/github/naixx/compose/UiState.kt:66-76 | the `callsInPlace(AT_MOST_ONCE)` contract: the transform runs at most once, exactly when the state is a success, and the result is `map`'s |
| UiStates.MapSuccess | compose/src/commonMain/kotlin/com/github/naixx/compose/UiState.kt:78-87 | the transform's result for a success (possibly null), null for loading and errors |
| UiStates.MapSuccessCounted | compose/src/commonMain/kotlin/com/github/naixx/compose/UiState.kt:78-87 | the `callsInPlace(AT_MOST_ONCE)` contract of `mapSuccess`: the transform runs at most once, exactly when the state is a success, and the result is `mapSuccess`'s |
| UiStates.Ok | compose/src/commonMain/kotlin/com/github/naixx/compose/UiState.kt:27-28 | `ok` (loading or success) holds exactly when the state is not an error |
| UiStates.DefaultError | compose/src/commonMain/kotlin/com/github/naixx/compose/UiState.kt:24 | `Error()` has no throwable and the no-op retry |
| UiStates.OnRetry | compose/src/commonMain/kotlin/com/github/naixx/compose/UiState.kt:89 | an error gets the new retry and keeps its throwable; every other state is returned unchanged |
| UiStates.Of | compose/src/commonMain/kotlin/com/github/naixx/compose/UiState.kt:91 | `uiState()` lifts a value into a success holding it |
| UiStates.Catching | compose/src/commonMain/kotlin/com/github/naixx/compose/UiState.kt:124-134 | it re-raises exactly the non-timeout cancellations, unchanged; a value becomes a success; a timeout or any other throwable becomes an error carrying it and the given retry |
| UiStates.Render | compose/src/commonMain/kotlin/com/github/naixx/compose/UiState.kt:53-63 | exactly one handler is chosen, matching the state's variant and receiving the error or the data |
| UiStates.Holder | compose/src/commonMain/kotlin/com/github/naixx/compose/UiState.kt:136-141 | the `MutableStateFlow` value after a sequence of writes: the last write, or the initial value when nothing was written |
| UiStates.ProduceWrites | compose/src/commonMain/kotlin/com/github/naixx/compose/UiState.kt:136-141 | the holder is written `Loading` first, then `catching`'s state, and the second write is missing exactly when `catching` re-raises |
| UiStates.OkIffNotErrorView | compose/src/commonMain/kotlin/com/github/naixx/compose/UiState.kt:27-28 | `ok` is false exactly when `Render` would show the error handler |
| UiStates.OkCases | compose/src/commonMain/kotlin/com/github/naixx/compose/UiState.kt:21-28 | `ok` holds for loading and for every success, and fails for every error, including the default one |
| UiStates.MapPreservesOk | compose/src/commonMain/kotlin/com/github/naixx/compose/UiState.kt:66-76 | `map` never changes whether a state is ok |
| UiStates.MapIdentity | compose/src/commonMain/kotlin/com/github/naixx/compose/UiState.kt:66-76 | mapping the identity returns the same state |
| UiStates.MapComposition | compose/src/commonMain/kotlin/com/github/naixx/compose/UiState.kt:66-76 | two successive maps equal one map of the composed transform |
| UiStates.MapOfLifted | compose/src/commonMain/kotlin/com/github/naixx/compose/UiState.kt:66-91 | mapping a lifted value gives the success of the transformed value |
| UiStates.MapSuccessThroughMap | compose/src/commonMain/kotlin/com/github/naixx/compose/UiState.kt:66-87 | `mapSuccess` yields the data of `map`'s result when that is a success, and null otherwise |
| UiStates.MapSuccessTotal | compose/src/commonMain/kotlin/com/github/naixx/compose/UiState.kt:78-87 | with a transform that never yields null, `mapSuccess` is non-null exactly for a success |
| UiStates.OnRetryLastWins | compose/src/commonMain/kotlin/com/github/naixx/compose/UiState.kt:89 | the last `onRetry` wins; re-installing an error's own retry changes nothing; `ok` is kept |
| UiStates.OnRetryDefaultError | compose/src/commonMain/kotlin/com/github/naixx/compose/UiState.kt:24 | `onRetry` on the default error keeps the missing throwable and installs the new retry |
| UiStates.CatchingOkIffValue | compose/src/commonMain/kotlin/com/github/naixx/compose/UiState.kt:124-134 | the state from `catching` is ok exactly when the operation produced a value; an error state carries the raised throwable and the supplied retry |
| UiStates.TimeoutBecomesError | compose/src/commonMain/kotlin/com/github/naixx/compose/UiState.kt:127-128 | a timeout is a cancellation, yet `catching` turns it into an error rather than re-raising it |
| UiStates.ProduceFinalHolder | compose/src/commonMain/kotlin/com/github/naixx/compose/UiState.kt:136-141 | after `produce` the holder shows `catching`'s state, and stays `Loading` exactly when a non-timeout cancellation was raised |
| Prefs.Lookup | prefs/src/commonMain/kotlin/com/github/naixx/prefs/UpdatingFlow.kt:41 | `get…OrNull(key)`: non-null exactly when the key is stored, and then the stored value |
| Prefs.Update | prefs/src/commonMain/kotlin/com/github/naixx/prefs/UpdatingFlow.kt:22-25 | the store holds the value under the flow's key, every other key is untouched, and the flow keeps its key and holds the value |
| Prefs.PlusAssign | prefs/src/commonMain/kotlin/com/github/naixx/prefs/UpdatingFlow.kt:27-29 | `+=` writes the store and the flow just as `update` does |
| Prefs.NewDelegate | prefs/src/commonMain/kotlin/com/github/naixx/prefs/UpdatingFlow.kt:32-34 | a declared delegate holds its default and has no cached flow yet |
| Prefs.GetValue | prefs/src/commonMain/kotlin/com/github/naixx/prefs/UpdatingFlow.kt:32-46 | on first access the flow is keyed by the property name, starts from the stored value or else the default, and is cached; later accesses return the cached flow unchanged |
| Prefs.Read | prefs/src/commonMain/kotlin/com/github/naixx/prefs/UpdatingFlow.kt:32-46 | reading a property of a preference object yields its flow keyed by the property name; the property keeps its name and default, other properties and the store are untouched; every cached flow stays keyed by its property's name |
| Prefs.Write | prefs/src/commonMain/kotlin/com/github/naixx/prefs/UpdatingFlow.kt:22-46 | `prefs.prop.update(v)` stores `v` under the property name, leaves other keys and properties alone, keeps the property's name and default, and leaves the property's cached flow holding `v` |
| Prefs.UpdateThenLookup | prefs/src/commonTest/kotlin/com/github/naixx/prefs/UpdatingFlowTest.kt:141-148 | after an update the store reads back the value; `+=` equals `update`; a second update overrides the first |
| Prefs.GetValueMemoized | prefs/src/commonMain/kotlin/com/github/naixx/prefs/UpdatingFlow.kt:34-45 | a second access returns the same flow without consulting the store |
| Prefs.FreshReadSeesWrite | prefs/src/commonTest/kotlin/com/github/naixx/prefs/UpdatingFlowTest.kt:109-133 | a property whose flow is created after another instance wrote the same key starts with the written value, whatever its default |
| Prefs.CachedFlowNotNotified | prefs/src/commonMain/kotlin/com/github/naixx/prefs/UpdatingFlow.kt:13-30 | the flow is not an observable store flow: an already created flow of another property keeps its old value after a write |
| Prefs.ReadTwice | prefs/src/commonMain/kotlin/com/github/naixx/prefs/UpdatingFlow.kt:34-45 | reading a property twice is reading it once |
| AnnotatedText.EmptyBuilder | compose/src/commonMain/kotlin/com/github/naixx/compose/InlinedText.kt:78 | `AnnotatedString.Builder()` starts with no text, no ranges and nothing open |
| AnnotatedText.Append | compose/src/commonMain/kotlin/com/github/naixx/compose/InlinedText.kt:83 | `append(text)` extends the text by exactly the string, and leaves the ranges and the open ones alone |
| AnnotatedText.Push | compose/src/commonMain/kotlin/com/github/naixx/compose/InlinedText.kt:127 | pushing opens a range at the current end of the text and stacks it; the text is unchanged |
| AnnotatedText.Pop | compose/src/commonMain/kotlin/com/github/naixx/compose/InlinedText.kt:137 | popping closes the innermost open range at the current end of the text and nothing else |
| AnnotatedText.AppendAnnotated | compose/src/commonMain/kotlin/com/github/naixx/compose/InlinedText.kt:86-88 | appending an annotated string adds its text and its ranges, shifted to where the text lands, after the existing ranges |
| AnnotatedText.ToAnnotatedString | compose/src/commonMain/kotlin/com/github/naixx/compose/InlinedText.kt:141 | the built string has the builder's text and one range per builder range; ranges still open end at the end of the text |
| AnnotatedText.GetStringAnnotations | compose/src/commonMain/kotlin/com/github/naixx/compose/InlinedText.kt:42-46 | `getStringAnnotations` returns exactly the text's ranges with the tag that meet the query, and its first result is the first such range |
| AnnotatedText.Matches | compose/src/commonMain/kotlin/com/github/naixx/compose/InlinedText.kt:45-46 | the annotations found are exactly the ranges with the tag that meet the query, and the first one found is the first such range |
| InlinedText.ParseNatToString | compose/src/commonMain/kotlin/com/github/naixx/compose/InlinedText.kt:95 | the decimal rendering of the counter in the icon id reads back as the counter |
| InlinedText.IconIdInjective | compose/src/commonMain/kotlin/com/github/naixx/compose/InlinedText.kt:95 | two icon ids `<<icon{n}>>` are equal exactly when their counters are |
| InlinedText.NatToString | compose/src/commonMain/kotlin/com/github/naixx/compose/InlinedText.kt:95 | the counter in a string template is rendered as decimal digits without a leading zero (`0` itself aside) |
| InlinedText.IconId | compose/src/commonMain/kotlin/com/github/naixx/compose/InlinedText.kt:95 | an icon id is `<<icon`, then decimal digits, then `>>` |
| InlinedText.LinkStyle | compose/src/commonMain/kotlin/com/github/naixx/compose/InlinedText.kt:113-117 | the link style is underlined, in the secondary colour |
| InlinedText.WithUrl | compose/src/commonMain/kotlin/com/github/naixx/compose/InlinedText.kt:71 | `"s"["url"]` pairs the text with the url |
| InlinedText.New | compose/src/commonMain/kotlin/com/github/naixx/compose/InlinedText.kt:76-80 | a new builder has empty text, no ranges, an empty content map and counter 0 |
| InlinedText.PlusString | compose/src/commonMain/kotlin/com/github/naixx/compose/InlinedText.kt:82-84 | `+"s"` appends the text verbatim, adds no range, and leaves the content map and counter alone |
| InlinedText.PlusAnnotated | compose/src/commonMain/kotlin/com/github/naixx/compose/InlinedText.kt:86-88 | `+annotated` appends the annotated string with its ranges and leaves the content map and counter alone |
| InlinedText.Icon | compose/src/commonMain/kotlin/com/github/naixx/compose/InlinedText.kt:94-109 | `icon` appends `[icon]` under one inline-content annotation with the id `<<icon{counter}>>`, records a size-by-size content for that id, and increments the counter |
| InlinedText.PlusImage | compose/src/commonMain/kotlin/com/github/naixx/compose/InlinedText.kt:90-92 | `+image` records a 16-by-16 content under the next icon id and increments the counter |
| InlinedText.PlusImageIsDefaultIcon | compose/src/commonMain/kotlin/com/github/naixx/compose/InlinedText.kt:60-62 | `+image` is `icon(image, 16.sp)` |
| InlinedText.Wrapped | compose/src/commonMain/kotlin/com/github/naixx/compose/InlinedText.kt:112-121 | `withStyle { append }` adds exactly one closed range covering exactly the appended text and leaves the open-range stack as it was |
| InlinedText.MinusString | compose/src/commonMain/kotlin/com/github/naixx/compose/InlinedText.kt:111-122 | `-"s"` appends the text inside one underlined secondary-colour span that covers exactly that text |
| InlinedText.MinusUrl | compose/src/commonMain/kotlin/com/github/naixx/compose/InlinedText.kt:124-139 | `-"s"["url"]` appends the text under a `"URL"` annotation holding the url and an underlined span, both covering exactly the text, and leaves no range open |
| InlinedText.Build | compose/src/commonMain/kotlin/com/github/naixx/compose/InlinedText.kt:141 | `build` returns the accumulated text with every range, each with its start and tag, and its end where `pop` closed it or the end of the text where none did, plus the content map |
| InlinedText.Apply | compose/src/commonMain/kotlin/com/github/naixx/compose/InlinedText.kt:82-139 | every DSL call keeps the builder well formed and the stack of open ranges unchanged; only icon calls count |
| InlinedText.Run | compose/src/commonMain/kotlin/com/github/naixx/compose/InlinedText.kt:76-141 | after any sequence of calls the counter has advanced by the number of icon calls |
| InlinedText.IconIdSetStep | compose/src/commonMain/kotlin/com/github/naixx/compose/InlinedText.kt:95-108 | the next icon id is new, and taking it extends the set of used ids by that id |
| InlinedText.IconIdSetSize | compose/src/commonMain/kotlin/com/github/naixx/compose/InlinedText.kt:95-108 | `n` icon calls use `n` distinct ids |
| InlinedText.ApplyKeepsValid | compose/src/commonMain/kotlin/com/github/naixx/compose/InlinedText.kt:94-109 | every call keeps the content keys equal to the ids used so far, and an icon call adds a key that was not there |
| InlinedText.RunKeepsValid | compose/src/commonMain/kotlin/com/github/naixx/compose/InlinedText.kt:76-141 | any sequence of calls keeps the content keys equal to the ids used |
| InlinedText.RunFromNew | compose/src/commonMain/kotlin/com/github/naixx/compose/InlinedText.kt:76-141 | from a new builder the counter equals the number of icon calls, the content map has exactly that many entries, keyed by the distinct ids used, and no range is left open |
| InlinedText.InlineIdsConcat | compose/src/commonMain/kotlin/com/github/naixx/compose/InlinedText.kt:96 | the inline-content ids of concatenated ranges are those of the parts, in order |
| InlinedText.ApplyKeepsTracked | compose/src/commonMain/kotlin/com/github/naixx/compose/InlinedText.kt:82-139 | every call keeps the inline ids in the text equal to the icon ids in counter order |
| InlinedText.RunKeepsTracked | compose/src/commonMain/kotlin/com/github/naixx/compose/InlinedText.kt:76-141 | any sequence of calls keeps the inline ids in the text equal to the icon ids in counter order |
| InlinedText.BuiltInlineIds | compose/src/commonMain/kotlin/com/github/naixx/compose/InlinedText.kt:94-141 | in the built text the inline-content ids are `<<icon0>>`, `<<icon1>>`, … in order, distinct, one per content entry, and exactly the keys of the content map |
| InlinedText.PointIntersect | compose/src/commonMain/kotlin/com/github/naixx/compose/InlinedText.kt:45 | a tap at an offset hits a range exactly when the offset lies in it, or the range is empty and sits at the offset |
| InlinedText.TapUrl | compose/src/commonMain/kotlin/com/github/naixx/compose/InlinedText.kt:44-49 | a tap opens a url exactly when some `"URL"` annotation meets the tapped offset, and then it opens the first such annotation's url |
| InlinedText.HasUrlIffTappable | compose/src/commonMain/kotlin/com/github/naixx/compose/InlinedText.kt:42-49 | when every url range is non-empty and inside the text: with the whole-text query, the text is clickable exactly when a tap at some offset in it opens a url |
| InlinedText.UrlIsTappable | compose/src/commonMain/kotlin/com/github/naixx/compose/InlinedText.kt:42-49 | when every url range is non-empty and inside the text: a url annotation meeting the whole text can be tapped at its first character |
| InlinedText.TappableIsUrl | compose/src/commonMain/kotlin/com/github/naixx/compose/InlinedText.kt:42-49 | when every url range lies inside the text, empty ones included: a url hit by a tap inside the text meets the whole text |
| InlinedText.HasUrlAsWritten | compose/src/commonMain/kotlin/com/github/naixx/compose/InlinedText.kt:42 | the check as written holds exactly when some `"URL"` annotation meets `[0, length - 1)` |
| InlinedText.HasUrl | compose/src/commonMain/kotlin/com/github/naixx/compose/InlinedText.kt:42 | the corrected check holds exactly when some `"URL"` annotation meets the whole text `[0, length)` |
| InlinedText.InlinedTextView | compose/src/commonMain/kotlin/com/github/naixx/compose/InlinedText.kt:31-52 | the corrected composable of the Findings row, with the whole-text query in place of the query at line 42: it shows the built text and content, as clickable text exactly when a `"URL"` annotation meets the text |
| InlinedText.InlinedTextViewAsWritten | compose/src/commonMain/kotlin/com/github/naixx/compose/InlinedText.kt:42 | the composable as written, with the query `[0, length - 1)`: it shows the built text and content, and chooses clickable exactly when a `"URL"` annotation meets that range |
| InlinedText.LastCharacterLinkMissed | compose/src/commonMain/kotlin/com/github/naixx/compose/InlinedText.kt:42 | for `+"a"; -"b"["u"]` the query as written finds no url although a tap on `b` opens `u`, so the text is shown plain; the whole-text query shows it clickable |
| InlinedText.ApplyKeepsProper | compose/src/commonMain/kotlin/com/github/naixx/compose/InlinedText.kt:82-139 | every call keeps all ranges closed and inside the text, and, when link texts are required to be non-empty, keeps url ranges non-empty |
| InlinedText.RunKeepsProper | compose/src/commonMain/kotlin/com/github/naixx/compose/InlinedText.kt:76-141 | any sequence of such calls keeps all ranges closed and inside the text, and url ranges non-empty when every link text is |
| InlinedText.ClickableIffTappable | compose/src/commonMain/kotlin/com/github/naixx/compose/InlinedText.kt:31-52 | with non-empty link texts, the corrected composable is clickable exactly when a tap somewhere in the text opens a url |
| InlinedText.HasUrlIffTappableNonEmpty | compose/src/commonMain/kotlin/com/github/naixx/compose/InlinedText.kt:42-49 | on a non-empty text whose url ranges lie inside it, empty ones included, the whole-text query holds exactly when a tap at some offset opens a url |
| InlinedText.AppendAnnotatedKeepsProper | compose/src/commonMain/kotlin/com/github/naixx/compose/InlinedText.kt:86-88 | appending an annotated string whose ranges lie in its text keeps every range closed and inside the text |
| InlinedText.MinusUrlKeepsProper | compose/src/commonMain/kotlin/com/github/naixx/compose/InlinedText.kt:124-139 | `-"s"["url"]` keeps every range closed and inside the text, and keeps url ranges non-empty when the link text is |
| InlinedText.BuiltUrls | compose/src/commonMain/kotlin/com/github/naixx/compose/InlinedText.kt:141 | after `build`, the url ranges of a builder whose ranges are closed and inside the text lie inside the built text |
| InlinedText.ClickableIffTappableNonEmptyText | compose/src/commonMain/kotlin/com/github/naixx/compose/InlinedText.kt:31-52 | on a non-empty text, with any link texts, the corrected composable is clickable exactly when a tap somewhere in the text opens a url |
| InlinedText.EmptyLinkOnEmptyText | compose/src/commonMain/kotlin/com/github/naixx/compose/InlinedText.kt:31-52 | the one exception to the equivalence: `-""["u"]` alone gives an empty text that is shown clickable, with no offset to tap |
| Logger.TerminatorLength | logger/src/jvmMain/kotlin/com.github.naixx/logger/LL.jvm.kt:12 | the final line terminator before which `$` matches: none exactly when the name does not end with a line terminator, two characters exactly for a final `\r\n`, otherwise the one last character |
| Logger.DigitBlockEnd | logger/src/jvmMain/kotlin/com.github.naixx/logger/LL.jvm.kt:12 | `\d+` consumes the maximal block of digits |
| Logger.RunIffGroups | logger/src/jvmMain/kotlin/com.github.naixx/logger/LL.jvm.kt:12 | the run predicate holds exactly for the strings matched by `(\$\d+)+`, read group by group |
| Logger.RunOpensGroup | logger/src/jvmMain/kotlin/com.github.naixx/logger/LL.jvm.kt:12 | a match of `(\$\d+)+` starts with `$` and a digit |
| Logger.RunAtSlice | logger/src/jvmMain/kotlin/com.github.naixx/logger/LL.jvm.kt:12 | whether a slice matches depends only on the slice |
| Logger.ScanRunStart | logger/src/jvmMain/kotlin/com.github.naixx/logger/LL.jvm.kt:15-16 | the backward scan finds the leftmost start of a match ending at the anchor, or reports none |
| Logger.NoRunAcross | logger/src/jvmMain/kotlin/com.github.naixx/logger/LL.jvm.kt:15-16 | no match ending at the anchor starts before a character that cannot lie inside one |
| Logger.RunStart | logger/src/jvmMain/kotlin/com.github.naixx/logger/LL.jvm.kt:15-16 | `find` starts at the leftmost position from which a match reaches the anchor, so the match is the longest one |
| Logger.MatchEnd | logger/src/jvmMain/kotlin/com.github.naixx/logger/LL.jvm.kt:12 | the anchor `$` sits at the end of the name when it does not end in a line terminator, two characters back exactly when it ends in `\r\n`, and one character back otherwise |
| Logger.StripAnonymous | logger/src/jvmMain/kotlin/com.github.naixx/logger/LL.jvm.kt:15-18 | `replaceAll("")` removes exactly the found match and keeps a final line terminator; the name is unchanged exactly when nothing matched |
| Logger.LastIndexOf | logger/src/jvmMain/kotlin/com.github.naixx/logger/LL.jvm.kt:19 | `lastIndexOf` is -1 or the position of the last occurrence of the character |
| Logger.IndexOf | logger/src/jvmMain/kotlin/com.github.naixx/logger/LL.jvm.kt:8 | the first occurrence of the character, or -1 when it does not occur |
| Logger.CreateStackElementTag | logger/src/jvmMain/kotlin/com.github.naixx/logger/LL.jvm.kt:13-20 | the tag holds no `.`, it is the part of the stripped name after its last `.`, and it is the whole stripped name when there is no `.` |
| Logger.Split | logger/src/jvmMain/kotlin/com.github.naixx/logger/LL.jvm.kt:8 | `split` always yields at least one field |
| Logger.JoinCons | logger/src/jvmMain/kotlin/com.github.naixx/logger/LL.jvm.kt:8 | joining puts the delimiter between the first field and the rest |
| Logger.SplitStep | logger/src/jvmMain/kotlin/com.github.naixx/logger/LL.jvm.kt:8 | splitting yields the text before the first delimiter, then the split of the rest |
| Logger.SplitNone | logger/src/jvmMain/kotlin/com.github.naixx/logger/LL.jvm.kt:8 | without a delimiter the split is the whole string |
| Logger.SplitFieldsLackDelimiter | logger/src/jvmMain/kotlin/com.github.naixx/logger/LL.jvm.kt:8 | no field of a split holds the delimiter |
| Logger.JoinSplit | logger/src/jvmMain/kotlin/com.github.naixx/logger/LL.jvm.kt:8 | joining the fields of a split with the delimiter gives back the string |
| Logger.SplitHasSecondField | logger/src/jvmMain/kotlin/com.github.naixx/logger/LL.jvm.kt:8-9 | a split has a second field exactly when the delimiter occurs |
| Logger.LineOf | logger/src/jvmMain/kotlin/com.github.naixx/logger/LL.jvm.kt:7-9 | the line is present exactly when the frame text holds a `(` |
| Logger.LineIsSecondField | logger/src/jvmMain/kotlin/com.github.naixx/logger/LL.jvm.kt:7-9 | the line is the text after the first `(`, up to the next `(` if there is one |
| Logger.MethodAndLine | logger/src/jvmMain/kotlin/com.github.naixx/logger/LL.jvm.kt:5-10 | no frame gives no source; otherwise the tag is the class tag, `$` and the method name, and the line is present exactly when the frame text holds a `(`, and is then the text between the first `(` and the next `(` or the end, field 1 of `split('(')` (`Logger.LineOf`) |
| Logger.RunConcat | logger/src/jvmMain/kotlin/com.github.naixx/logger/LL.jvm.kt:12 | two adjacent matches of `(\$\d+)+` form one match |
| Logger.RunShift | logger/src/jvmMain/kotlin/com.github.naixx/logger/LL.jvm.kt:12 | a match stays a match behind any prefix |
| Logger.RunShiftToEnd | logger/src/jvmMain/kotlin/com.github.naixx/logger/LL.jvm.kt:12 | a match at the end of a string stays one at the end behind any prefix |
| Logger.RunPrefix | logger/src/jvmMain/kotlin/com.github.naixx/logger/LL.jvm.kt:12 | a match inside a prefix is a match in the whole string |
| Logger.StripLeavesNoRun | logger/src/jvmMain/kotlin/com.github.naixx/logger/LL.jvm.kt:12-18 | after stripping a name without line terminators no anonymous suffix is left |
| Logger.StripIdempotent | logger/src/jvmMain/kotlin/com.github.naixx/logger/LL.jvm.kt:12-18 | stripping a name without line terminators twice equals stripping it once |
| Logger.NoRunInSuffix | logger/src/jvmMain/kotlin/com.github.naixx/logger/LL.jvm.kt:12 | if a string ends in no match, neither does any of its suffixes |
| Logger.StrippedHasNoRun | logger/src/jvmMain/kotlin/com.github.naixx/logger/LL.jvm.kt:12-18 | the stripped name, line terminators or not, never ends in a match of `(\$\d+)+` |
| Logger.TagHasNoAnonymousSuffix | logger/src/jvmMain/kotlin/com.github.naixx/logger/LL.jvm.kt:13-20 | the tag never ends with `$` and digits |
| Logger.TagOfPlainName | logger/src/jvmMain/kotlin/com.github.naixx/logger/LL.jvm.kt:13-20 | a name without `.`, line terminators or anonymous suffix is its own tag |
| Logger.TagIdempotent | logger/src/jvmMain/kotlin/com.github.naixx/logger/LL.jvm.kt:13-20 | the tag of a tag is the tag, for names without line terminators |
| Logger.StripAddsNoCharacters | logger/src/jvmMain/kotlin/com.github.naixx/logger/LL.jvm.kt:17 | every character of the stripped name occurs in the name |
| Logger.StripKeepsNonDigitEnd | logger/src/jvmMain/kotlin/com.github.naixx/logger/LL.jvm.kt:12-18 | a name ending in neither a digit nor a line terminator is left unchanged |
| Logger.StripNotIdempotentWithTerminators | logger/src/jvmMain/kotlin/com.github.naixx/logger/LL.jvm.kt:12-18 | with Java's `$`, `A$5\r$1\n` strips to `A$5\r\n`, which strips again to `A\r\n` |
| Logger.TagOfNestedAnonymous | logger/src/jvmMain/kotlin/com.github.naixx/logger/LL.jvm.kt:13-20 | `a.b.Outer$1$2` has the tag `Outer`: nested anonymous suffixes go together with the package |
| Logger.TagOfNamedInner | logger/src/jvmMain/kotlin/com.github.naixx/logger/LL.jvm.kt:13-20 | `a.Outer$Inner` keeps its named inner class: the tag is `Outer$Inner` |

## Left out

- Compose rendering is not modelled: layout, `Text`, `ClickableText2` and its gesture handling (`detectTapGestures`, touch moves), `LoadingScope`, `RetryButtonTheme` and `LocalRetryButtonTheme`, and the drawable helpers. The model stops at which handler or which text variant is chosen, and at the tap lookup given an offset.
- The icon's drawing lambda (density conversion, `Icon`) and the placeholder's vertical alignment are not modelled. The content records only the width, the height and the image.
- InlinedText.Icon: the size is a natural number. In the source it is a `TextUnit` in sp, a float that may be fractional or `Unspecified`; the model does not use its value beyond recording it.
- The `@Composable produce` overloads are not modelled: `remember`, `LaunchedEffect`, and cancellation and restart when a key changes. Only `CoroutineScope.produce`'s two writes are modelled; launching the coroutine is left out.
- Coroutine suspension and real exceptions are not modelled. An operation's outcome is an input value, and only three kinds of throwable are told apart.
- The typed delegates (`intFlow`, `longFlow`, `floatFlow`, `doubleFlow`, `stringFlow`) are not modelled separately. They share one generic model, and the typed `put…` / `get…OrNull` of the settings library become map writes and lookups.
- `serializedFlow` and its kotlinx.serialization encoding are not modelled. Its delegate follows the same shared model, but the encode/decode round trip is not part of this model.
- `StateFlow` collection and emission to collectors are not modelled; a flow is its key and current value.
- Napier logging and the logger front end (`LL.kt`) are not modelled.
- `Thread.currentThread().stackTrace.drop(4)` is not modelled. The caller's frame (or its absence) is an input, and the frame's string form is an input string.
- The decimal rendering of the icon counter is not modelled as 32-bit. The counter is a natural number, so the wrap-around after 2^31 - 1 icons in one builder is not modelled.
- InlinedText.BuiltInlineIds: holds only when no appended annotated string brings inline-content annotations of its own, because such annotations carry ids the builder did not issue.
- InlinedText.ClickableIffTappable: assumes non-empty link texts and appended annotated strings whose ranges lie within their text. InlinedText.ClickableIffTappableNonEmptyText drops the condition on link texts for a non-empty text. Together they cover everything but an empty text that holds an empty link. That text is shown clickable although no offset can be tapped (InlinedText.EmptyLinkOnEmptyText).
- InlinedText.ClickableIffTappableNonEmptyText: assumes a non-empty built text and appended annotated strings whose ranges lie within their text, for the reason above.
- InlinedText.HasUrlAsWritten: strings are sequences of characters, so `length` and every range offset count characters, while Kotlin and the toolkit count UTF-16 code units. The two agree on text inside the Basic Multilingual Plane. With a character outside it they can differ: for `+"a"` followed by a link whose text is the single character U+1F600, the source's query `[0, 2)` meets the link `[1, 3)` and the text is clickable, while the model's query `[0, 1)` misses the link `[1, 2)` and shows the text plain.
- InlinedText.InlinedTextViewAsWritten: takes over that difference from InlinedText.HasUrlAsWritten, so for such text its choice between clickable and plain can differ from the source's.
- Logger.StripIdempotent: holds only for names without line terminators, because Java's `$` also matches before a final terminator (see Logger.StripNotIdempotentWithTerminators).
- Logger.TagIdempotent: holds only for names without line terminators, for the same reason.
- The toolkit's `AnnotatedString.Builder` and `getStringAnnotations` are modelled from the toolkit's documented behaviour, because the toolkit's source is not part of this model.

## Findings

| source | as written | input that shows it | evidently intended | confidence | as-written member | corrected member |
|---|---|---|---|---|---|---|
| compose/src/commonMain/kotlin/com/github/naixx/compose/InlinedText.kt:42 | the clickable check queries `"URL"` annotations over `[0, length - 1)`, an end-exclusive range that leaves out the last UTF-16 code unit, which is the whole last character for text inside the Basic Multilingual Plane | `+"a"; -"b"["u"]`: the text is `ab` and the only link covers `[1, 2)`; the query `[0, 1)` misses it, so the text is shown plain although a tap on `b` would open `u` | query the whole text, `[0, length)`, so that the text is clickable exactly when some tap opens a url | medium, not executed | InlinedText.LastCharacterLinkMissed | InlinedText.InlinedTextView |
