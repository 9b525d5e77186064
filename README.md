# A verified model of the `I18nProxy` translation interceptor

`I18nProxy` is an AspectJ advice that runs around every Spring handler
carrying the `@I18n` marker. When the caller's language differs from the
application's native language, it does two things:

- Before the handler runs, it translates the marked arguments into the
  native language. A `@TranslatableStringArgument` argument is translated
  as a whole. A `@TranslatableRegexArgument` argument has every captured
  substring replaced by its translation.
- After the handler returns, it replaces the body of the returned
  `ResponseEntity` with a name-to-value map. Marked accessors, and all
  String fields, are translated back into the caller's language.

This project models that pipeline in Dafny and proves what it does.

## How the model is laid out

- `values.dfy` (module `Values`) holds what crosses the boundary:
  - Java `null` as `Option`;
  - an `Object` as `Value = Null | Str | Obj`;
  - `Language`, the dictionary's `TranslationResult`;
  - the exceptions the advice lets escape (`Error`).

  `DictionaryService.translate` becomes a function parameter of type
  `Dictionary`. The regex engine also becomes a function parameter: given a
  pattern and an input, it returns every successive match, as a sequence of
  capture groups.
- `java_strings.dfy` (module `JavaStrings`) holds `String.startsWith`,
  `String.replace` and `toLowerCase(Locale.ROOT)`. `replace` is
  left-to-right, non-overlapping replace-all, and an empty target puts the
  replacement around every character, as Java does for text made of
  characters of the Basic Multilingual Plane.
- `arguments.dfy` covers argument rewriting:
  - module `ArgumentRewriter` holds the specification functions and the
    source's loops as methods (`ApplyRegex`, `FillSlot`,
    `RewriteArguments`). Each method is proved equal to its specification
    function, errors included.
  - module `ArgumentProperties` holds the lemmas.
- `response.dfy` covers response rewriting. Reflection is replaced by a
  tagged body:
  - `Accessors` stands for an anonymous class. The class of an object is
    never an interface, so the `isInterface()` test (`:95`) never holds and
    only anonymous classes reach the accessor loop;
  - `Fields` stands for a member class;
  - `Entries` stands for a `HashMap`;
  - `Opaque` stands for any other class. A JDK dynamic proxy is neither
    anonymous nor a member class, so its body becomes an empty map.

  Module `ResponseRewriter` holds the map-building loops as methods.
  Module `ResponseProperties` holds the lemmas.
- `proxy.dfy` (module `I18nProxy`) holds three things:
  - the constructor guard, as `NewProxy`;
  - the advice itself, as `Translate`: the locale gate, then rewriting,
    then the handler, then the response;
  - a worked call: a French caller of an English application.

Where the code and its documented intent disagree, the model follows the
code:

- A marked accessor whose String has no translation stores the dictionary's
  `foreignValue` even when that value is null. The same holds for a String
  field. The original text is not kept (`I18nProxy.java:111`, `:120`).
- A field-shaped body translates every String field, marked or not. It
  leaves out every non-String field (`:115-121`).
- A non-null body of neither shape yields a response with an empty map. It
  does not yield the original response (`:93`, `:124`).
- A whole-string marker whose `nativeKey` is null leaves a null slot, which
  the second loop then refills with the original argument (`:79`, `:83-87`).
  A regex-marked null argument works the same way when nothing is replaced.
  If it finds a translation, the advice throws a `NullPointerException`
  (`:58`, `:63`, `:71`).
- If a parameter carries several markers, the last one decides its slot.
- Only a null `nativeKey` counts as a missing translation (`:70`, `:79`).
  An empty native key is a translation: a whole-string argument becomes
  the empty String, and a regex capture is deleted from the argument.

## Model

| member | source | states |
|---|---|---|
| `I18nProxy.NewProxy` | src/main/java/org/matteria/i18n/I18nProxy.java:30-39 | construction fails with "language not declared" exactly when the native-language setting is null; otherwise the setting becomes the native language and the dictionary is kept |
| `I18nProxy.Translate` | src/main/java/org/matteria/i18n/I18nProxy.java:41-128 | when the caller's language code equals the native title, the handler gets the original arguments and its result is returned untouched; otherwise the result is the response rewrite of the handler run on the rewritten arguments, and an argument failure stops before the handler |
| `I18nProxy.SampleArguments` | src/main/java/org/matteria/i18n/I18nProxy.java:76-87 | for a French caller of an English application, the whole-string argument "hello" reaches the handler as its native key "bonjour-native" |
| `I18nProxy.SampleResponse` | src/main/java/org/matteria/i18n/I18nProxy.java:96-124 | a response whose marked accessor `getTitle` returns "ok" comes back as the map {"title": "d'accord"} with the same status |
| `I18nProxy.Intercepted` | src/main/java/org/matteria/i18n/I18nProxy.java:48-127 | the interception succeeds exactly when the argument rewrite succeeds and the handler, run on the rewritten arguments, answers with a `ResponseEntity`; the caller then receives a `ResponseEntity` |
| `I18nProxy.SampleCall` | src/main/java/org/matteria/i18n/I18nProxy.java:41-128 | the two halves of the worked call, composed around a handler |
| `JavaStrings.Replace` | src/main/java/org/matteria/i18n/I18nProxy.java:71 | no contract of its own: an empty target goes to `InsertEverywhere`, any other to the left-to-right scan; described by the `InsertEverywhere`, `InsertAt`, `InsertEnd`, `ReplaceFirst`, `ReplaceAbsent` and `ReplaceBySelf` rows |
| `JavaStrings.InsertEverywhere` | src/main/java/org/matteria/i18n/I18nProxy.java:71 | `replace` with an empty target grows the string by (n + 1) copies of the replacement, n being the original length |
| `JavaStrings.InsertAt` | src/main/java/org/matteria/i18n/I18nProxy.java:71 | with an empty target, character i of the original sits right after its own copy of the replacement, at position i·(r + 1) + r |
| `JavaStrings.InsertEnd` | src/main/java/org/matteria/i18n/I18nProxy.java:71 | with an empty target, the result ends with the replacement |
| `JavaStrings.StartsWith` | src/main/java/org/matteria/i18n/I18nProxy.java:102 | `startsWith` holds exactly when the string is the prefix followed by some rest, which is the prefix occurring at position 0 |
| `JavaStrings.ReplaceFirst` | src/main/java/org/matteria/i18n/I18nProxy.java:71 | `replace` keeps the text before the first occurrence of a non-empty target, puts the replacement in its place, and carries on after it without rescanning the replacement |
| `JavaStrings.ReplaceAbsent` | src/main/java/org/matteria/i18n/I18nProxy.java:71 | replacing a non-empty text that does not occur leaves the string unchanged |
| `JavaStrings.ReplaceBySelf` | src/main/java/org/matteria/i18n/I18nProxy.java:71 | replacing a text by itself leaves the string unchanged, the empty target included |
| `JavaStrings.ToLowerRoot` | src/main/java/org/matteria/i18n/I18nProxy.java:103-105 | lower-casing keeps the length, maps each character on its own, and leaves no upper-case ASCII letter |
| `JavaStrings.ToLowerRootIdempotent` | src/main/java/org/matteria/i18n/I18nProxy.java:103-105 | lower-casing twice equals lower-casing once |
| `ArgumentRewriter.RegexStep` | src/main/java/org/matteria/i18n/I18nProxy.java:66-72 | one group step fails exactly when the group index is out of range, or when a translation exists but the working string or the captured text is null; a step with a null native key leaves the working string unchanged; a non-null working string stays non-null |
| `ArgumentRewriter.GroupsFold` | src/main/java/org/matteria/i18n/I18nProxy.java:65-73 | the group loop never turns a non-null working string into null |
| `ArgumentRewriter.MatchesFold` | src/main/java/org/matteria/i18n/I18nProxy.java:64-74 | the match loop never turns a non-null working string into null |
| `ArgumentRewriter.RegexText` | src/main/java/org/matteria/i18n/I18nProxy.java:57-75 | the regex marker keeps a non-null String non-null, and when the engine finds no match in `target + delimiter` the argument is returned as it was |
| `ArgumentRewriter.MarkerStep` | src/main/java/org/matteria/i18n/I18nProxy.java:57-80 | an annotation other than the two markers leaves the slot alone; a marker on a non-String object raises `ClassCastException`; a marker that succeeds writes a String or null |
| `ArgumentRewriter.Slot` | src/main/java/org/matteria/i18n/I18nProxy.java:56-81 | the slot an argument's annotations produce is never a non-String object |
| `ArgumentRewriter.Slots` | src/main/java/org/matteria/i18n/I18nProxy.java:53-82 | a successful fill produces exactly one slot per argument |
| `ArgumentRewriter.Fallback` | src/main/java/org/matteria/i18n/I18nProxy.java:83-87 | the patch loop keeps the length; a non-null slot is kept, a null slot takes the original argument, so a position stays null only when both were null |
| `ArgumentRewriter.ApplyGroups` | src/main/java/org/matteria/i18n/I18nProxy.java:65-73 | the loop over one match's target groups computes the group fold from the working string it is given, failing with the first failing group |
| `ArgumentRewriter.ApplyRegex` | src/main/java/org/matteria/i18n/I18nProxy.java:57-75 | the `while (matcher.find())` loop, running the group loop on each match, computes the fold, in match order and then group order, of "replace every occurrence of the captured text by its native key" over `target`, matching `regex + delimiter` against `target + delimiter`, with the same failures |
| `ArgumentRewriter.FillSlot` | src/main/java/org/matteria/i18n/I18nProxy.java:56-81 | the annotation loop gives the slot that the annotations give in order, starting from null, with the same failures (see `ObjSlot` for the `ClassCastException`) |
| `ArgumentRewriter.Arguments` | src/main/java/org/matteria/i18n/I18nProxy.java:52-87 | the handler receives as many arguments as were passed, and a non-null argument never reaches it as null |
| `ArgumentRewriter.RewriteArguments` | src/main/java/org/matteria/i18n/I18nProxy.java:52-87 | the fill loop and the patch loop produce the slots with every null slot replaced by the original argument, or the first failure in argument order |
| `ArgumentRewriter.GroupsFoldFailure` | src/main/java/org/matteria/i18n/I18nProxy.java:65-73 | a failure in a group step is the failure of the whole group loop |
| `ArgumentRewriter.MatchesFoldFailure` | src/main/java/org/matteria/i18n/I18nProxy.java:64-74 | a failure for one match is the failure of the whole match loop |
| `ArgumentRewriter.SlotFailure` | src/main/java/org/matteria/i18n/I18nProxy.java:56-81 | a failure on one annotation is the failure of the whole argument |
| `ArgumentRewriter.SlotsFailure` | src/main/java/org/matteria/i18n/I18nProxy.java:53-82 | a failure on one argument is the failure of the whole rewrite |
| `ArgumentProperties.SlotsAt` | src/main/java/org/matteria/i18n/I18nProxy.java:53-82 | the rewrite succeeds exactly when every argument's annotations succeed, and each slot is the one its own parameter's annotations give |
| `ArgumentProperties.ObjSlot` | src/main/java/org/matteria/i18n/I18nProxy.java:56-81 | a non-String object under at least one translation marker makes its annotation loop raise `ClassCastException`, whatever other annotations it carries |
| `ArgumentProperties.ObjArgument` | src/main/java/org/matteria/i18n/I18nProxy.java:52-87 | such an argument makes the whole argument rewrite fail, so the handler never runs |
| `ArgumentProperties.UnmarkedSlot` | src/main/java/org/matteria/i18n/I18nProxy.java:56-81 | a parameter without a translation marker leaves its slot null |
| `ArgumentProperties.LastMarkerWins` | src/main/java/org/matteria/i18n/I18nProxy.java:56-80 | with several markers, the slot is what the last marker alone gives |
| `ArgumentProperties.SlotPrefixOk` | src/main/java/org/matteria/i18n/I18nProxy.java:56-81 | if the whole annotation list succeeds, so does every prefix of it |
| `ArgumentProperties.ArgumentsUnmarked` | src/main/java/org/matteria/i18n/I18nProxy.java:52-87 | the rewritten list has the original length, and every unmarked position holds the original argument |
| `ArgumentProperties.ArgumentSlot` | src/main/java/org/matteria/i18n/I18nProxy.java:56-87 | a marked argument receives its last marker's result, or the original argument when that result is null |
| `ArgumentProperties.WholeStringArgument` | src/main/java/org/matteria/i18n/I18nProxy.java:76-87 | a whole-string argument is a String or null and becomes its native key when one exists, otherwise stays the original argument |
| `ArgumentProperties.RegexArgumentString` | src/main/java/org/matteria/i18n/I18nProxy.java:57-87 | a String regex argument becomes the String produced by the substitution fold; with no match at all it equals the original |
| `ArgumentProperties.GroupsKeepText` | src/main/java/org/matteria/i18n/I18nProxy.java:65-73 | group steps whose captured text has no native key, or translates to itself, leave the working string unchanged |
| `ArgumentProperties.MatchesKeepText` | src/main/java/org/matteria/i18n/I18nProxy.java:64-75 | if every capture in every match lacks a translation, or translates to itself, the argument is unchanged |
| `ArgumentProperties.MatchesInOrder` | src/main/java/org/matteria/i18n/I18nProxy.java:64-74 | substitutions are cumulative in match order: the fold over `first + rest` continues from the result of the fold over `first` |
| `ArgumentProperties.SubstitutionsCompose` | src/main/java/org/matteria/i18n/I18nProxy.java:64-74 | the substitutions are not independent: with native keys a→b and b→c, "ab" becomes "cc" when "a" is captured first and "bc" when "b" is |
| `ResponseRewriter.FieldName` | src/main/java/org/matteria/i18n/I18nProxy.java:102-106 | a key is the name after a leading `get` (or the whole name), lower-cased character by character, with no upper-case ASCII letter |
| `ResponseRewriter.PutAll` | src/main/java/org/matteria/i18n/I18nProxy.java:93-121 | no contract of its own: the `HashMap` after a sequence of `put` calls; described by the `PutAllKeys` and `PutAllLast` rows |
| `ResponseRewriter.PutAllKeys` | src/main/java/org/matteria/i18n/I18nProxy.java:93-121 | a key is in the built map exactly when some put to it happens |
| `ResponseRewriter.AccessorPut` | src/main/java/org/matteria/i18n/I18nProxy.java:97-112 | an accessor's put goes to its derived key; it happens exactly when the accessor is unmarked or returns a String; a marked accessor stores only a String or null |
| `ResponseRewriter.FieldPut` | src/main/java/org/matteria/i18n/I18nProxy.java:115-121 | a field's put goes to its own name, happens exactly for a String value, and stores a String or null |
| `ResponseRewriter.BodyMap` | src/main/java/org/matteria/i18n/I18nProxy.java:93-123 | the map's keys are among the body's member names, and a body of neither shape gives the empty map |
| `ResponseRewriter.Response` | src/main/java/org/matteria/i18n/I18nProxy.java:91-127 | the rewrite succeeds exactly on a `ResponseEntity`, failing with `NullPointerException` on null and `ClassCastException` on another object; a null body returns the response unchanged; any other body gives a response with the original status and a map body whose keys are among the body's member names |
| `ResponseRewriter.CollectAccessors` | src/main/java/org/matteria/i18n/I18nProxy.java:96-113 | the accessor loop builds the map of the successive puts: unmarked values as they are, marked Strings as their foreign value, marked non-Strings skipped |
| `ResponseRewriter.CollectFields` | src/main/java/org/matteria/i18n/I18nProxy.java:115-122 | the field loop builds the map of the successive puts of every String field's foreign value |
| `ResponseRewriter.RewriteResponse` | src/main/java/org/matteria/i18n/I18nProxy.java:91-127 | the "after" part fails on a null or non-`ResponseEntity` result, returns the response itself for a null body, and otherwise returns the body's map under the same status |
| `ResponseProperties.PutAllLast` | src/main/java/org/matteria/i18n/I18nProxy.java:93-121 | the last put to a key decides its value |
| `ResponseProperties.KeyOfGetTitle` | src/main/java/org/matteria/i18n/I18nProxy.java:102-103 | the accessor `getTitle` gives the key `title` |
| `ResponseProperties.KeyOfStatus` | src/main/java/org/matteria/i18n/I18nProxy.java:104-105 | the accessor `status`, which has no `get` prefix, gives the key `status` |
| `ResponseProperties.AccessorMapKeys` | src/main/java/org/matteria/i18n/I18nProxy.java:96-112 | a key is in the accessor map exactly when an accessor with that derived name is unmarked or returns a String; marked non-Strings are omitted |
| `ResponseProperties.SingleAccessorMap` | src/main/java/org/matteria/i18n/I18nProxy.java:96-113 | a body with one storing accessor becomes the one-entry map from its derived key to its value, translated when marked |
| `ResponseProperties.AccessorMapValue` | src/main/java/org/matteria/i18n/I18nProxy.java:107-112 | under the last storing accessor's key: an unmarked value is copied unchanged, and a marked String becomes its foreign value, null included |
| `ResponseProperties.FieldMapKeys` | src/main/java/org/matteria/i18n/I18nProxy.java:115-121 | only String fields appear in the field map, under their own names |
| `ResponseProperties.FieldMapValue` | src/main/java/org/matteria/i18n/I18nProxy.java:118-120 | a String field, the last of its name, is stored as its foreign value, null included |

## Left out

- `I18nConfiguration.java` only passes the three settings to the constructor. It is not part of this model.
- The servlet request and its `Locale` lookup are replaced by the caller's language code, given as a string.
- AspectJ's `proceed` is replaced by a `handler` function. The handler's side effects and its exceptions are not modelled.
- `Pattern.compile` and `Matcher` are replaced by a regex-engine function. It returns every match's capture groups. `PatternSyntaxException` is not modelled.
- `DictionaryService` is a pure function. Its caching, I/O and exceptions are not modelled.
- Reflection is replaced by the tagged `Body`. This leaves out several things:
  - exceptions raised by `setAccessible`, `invoke` and `Field.get`;
  - methods that take parameters;
  - whether `getDeclaredMethods` and `getDeclaredFields` return their members in any particular order. The model takes the order as given. Only last-write-wins on a repeated key depends on it.
- `toLowerCase(Locale.ROOT)` is modelled over ASCII letters only. Other characters are left unchanged.
- Strings are sequences of Unicode scalar values, not of UTF-16 code units. `replace` with an empty target therefore inserts the replacement between whole characters: on text outside the Basic Multilingual Plane Java would also insert it between the two halves of a surrogate pair (`"😀".replace("", "-")` is `"-\uD83D-\uDE00-"` in Java, `"-😀-"` here).
- A round trip through a self-inverse dictionary is not a property of the interceptor. It never translates an argument from the native language into the caller's, and its substitutions compose in match order (`SubstitutionsCompose`). Any such round trip is a property of the dictionary alone.
- The rebuilt `ResponseEntity` keeps only the status and the new body. Headers are not modelled.
- Concurrency is not modelled. Each call is independent and shares no state.
