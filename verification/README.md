# Verified model of the AgentHub Skill Runtime

The Skill Runtime resolves tools and executes them: HTTP calls built from URL templates, SQL
templates, MCP servers behind a stdio pipe and LLM providers, behind a retry loop with a circuit
breaker and a JWT filter that caches signing keys. This Dafny project models the parts whose
behaviour is purely logical and proves what they promise, for all inputs, iteration orders, server
streams and interleavings.

| file | models |
|---|---|
| `Integers.dfy` | Go's 64-bit integers |
| `Strings.dfy` | byte strings, Go's string order, `sort.Strings`, `strings.Cut`, the orders in which Go may range over a map |
| `Replacer.dfy` | `strings.NewReplacer` by its documented rule |
| `Template.dfy`, `Segmentation.dfy`, `OrderFreedom.dfy` | the HTTP placeholder engine, the test for used inputs, and when the map order is free |
| `QueryString.dfy`, `HttpUrl.dfy` | query escaping, the form parser, and the URL of an HTTP tool call |
| `JavaUrl.dfy`, `JavaValues.dfy` | the Java `buildUrl`: sequential substitution and an unescaped query; values that hold braces |
| `SqlTemplate.dfy`, `SqlPatterns.dfy`, `SqlLiterals.dfy` | the compiler from `{{input.key}}` templates to `$n` parameters, what its two expressions match, and quoted literals |
| `Errors.dfy`, `Backoff.dfy`, `Invoker.dfy`, `Breaker.dfy` | permanent errors, backoff, one call of the invoker, and many callers sharing its counter |
| `Jwks.dfy` | the key cache whose lock is dropped during the fetch |
| `McpStdio.dfy`, `McpEnv.dfy` | the stdio client and the environment of its child process |
| `Anthropic.dfy` | message conversion, response conversion and the event stream |

A Go string is a sequence of bytes, and so is a `string` here: each character stands for one byte.
Where Go or Java picks the iteration order of a map, the loop takes an arbitrary key, and results
are stated for the order that was picked or for all of them. Input values are the strings that
`%v` or `String.valueOf` makes of them. Every modelled method that assigns in a loop or changes
fields is a method here, proved equal to a specification function; the properties are lemmas about
these functions.

## What the proofs say about the code

- A map is rendered alike in all orders, for any keys and values, exactly when it makes no difference
  which of two patterns is taken where one starts the other; for keys without `{` exactly when the value
  of the longer one is that of the shorter one and the text left over. For a key set and all values this
  means that no pattern of one key starts a pattern of another, and for brace-free keys that no key is
  spelled `input.` or `args.` followed by another key.
- For brace-free keys, that last condition is exactly when the use test of the HTTP executor agrees with
  its scanner, and exactly when no input is ever lost without a schema.
- An input named only as `{{args.key}}` is substituted and forwarded a second time as a query
  parameter (`internal/executor/http/executor.go:386-388` against line 452).
- A template with a fragment loses its query parameters: they are appended behind the `#`.
- A digit that directly follows a SQL placeholder becomes part of the parameter number. That, and
  numbers that outgrow an int64, are the only ways in which rendering changes the meaning or the
  parameter list as the two regular expressions read a query. For a reader that knows quoted literals,
  the swallowed quotes matter too: `'%{{input.q}}%'` puts its parameter inside a literal, and
  `'%{{input.q}}'` loses its closing quote.
- The cap promised at `internal/invoker/invoker.go:60-61` is kept exactly when the delay is computed
  (not for the first wait, nor for any wait under a multiplier of at most 1.0) or the base delay does not
  exceed it. An overflow does not break the cap but the value: where the conversion yields the least int64 there
  is no wait at all.
- Called by one caller at a time, an open breaker never closes again. Only a call that was already in
  flight can close it.
- An older JWKS fetch can overwrite a newer one, in every program with two callers or more. While no two
  fetches of a tenant overlap, its cached keys never become older. Keys in use are in any case younger
  than the time to live plus the fetch timeout plus the local time between reading and storing, and that
  bound is reached.
- The stdio client matches on the id alone, although sections 4 and 5 of JSON-RPC 2.0 tell requests from
  responses. A server request with id 1, such as a `ping`, is taken for the answer to initialize, and one
  with id 2 for the answer to the tool call. The client is reliable exactly with servers that never give
  their own requests these ids.
- Streaming and not streaming agree on the text for every way of cutting it and every interleaving. They
  agree on the arguments exactly when the argument deltas spell them: a tool call without input, or one
  whose only delta is empty, streams nothing and is converted to `{}`.
- A response whose text blocks are split or stand behind a tool call does not survive being sent
  back: texts are merged and moved to the front.
- For brace-free keys and values, the sequential substitution of the Java executor is the simultaneous
  one exactly when no brace pair of the template encloses another. For brace-free keys and any values,
  on such templates, it is exactly when no value has a part in the placeholder of another entry.

## Model

| member | source | states |
|---|---|---|
| `Strings.SortForgetsOrder` | internal/executor/mcp/executor.go:357-361 | Sorting the keys of a map gives the same sorted list whatever order the map was ranged over in. |
| `Strings.LeIff` | internal/executor/mcp/executor.go:361 | The order that is sorted by: a prefix comes first, and otherwise the first byte that differs decides. |
| `Replacer.FirstMatchIsFirst` | internal/executor/http/executor.go:363 | Argument order decides: the chosen rule is the first whose pattern starts the text, and none is chosen exactly when no pattern does. |
| `Replacer.SameMatchesSameText` | internal/executor/http/executor.go:363 | Two rule lists that choose the same rule at every text render every text alike. |
| `Template.CollectPairs` | internal/executor/http/executor.go:350-362 | For an arbitrary iteration order the loop appends exactly the four pairs of each key, each key once, in that order. |
| `Template.RenderTemplate` | internal/executor/http/executor.go:349-364 | The result is the replacer's text for the order Go picked, and for compatible keys the text of every other order as well. |
| `Template.PatternsMeet` | internal/executor/http/executor.go:356-361 | Among brace-free keys one pattern starts another only if both are the same text: same key and form, or one key spelled as the other's `input.`/`args.` alias. |
| `Template.OrderFree` | internal/executor/http/executor.go:349-364 | Rendering gives the same text for any two iteration orders of a compatible map. |
| `Template.OrderFreeIffAliasesAgree` | internal/executor/http/executor.go:349-364 | For brace-free keys, all orders agree on all templates if and only if keys that alias each other hold equal text. |
| `OrderFreedom.OrderFreeIffPairsJoin` | internal/executor/http/executor.go:349-364 | For every map, whatever its keys and values hold: all orders render all templates alike if and only if, wherever a pattern of one key starts a pattern of another, taking either gives the same text in front of whatever follows. |
| `OrderFreedom.OrderFreeIffLeftOversAgree` | internal/executor/http/executor.go:349-364 | For every map whose keys hold no `{`: all orders render all templates alike if and only if the value of the longer of two such patterns is the value of the shorter one followed by the text left over. |
| `OrderFreedom.OwnForms` | internal/executor/http/executor.go:356-361 | For every key, no pattern of it starts another of its own patterns. |
| `Template.FirstKeyWins` | internal/executor/http/executor.go:353-363 | The key ranged over first decides what a lone placeholder of it becomes. |
| `Template.EachFormIsReplaced` | internal/executor/http/executor.go:356-363 | For every brace-free key, each of `{{k}}`, `{k}`, `{{input.k}}` and `{{args.k}}` alone renders to its value, and its four pairs stand in this order. |
| `Segmentation.SegmentsSpellTemplate` | internal/executor/http/executor.go:444-456 | The cut into characters and placeholders spells out the template: nothing is lost or read twice. |
| `Segmentation.RenderIsFill` | internal/executor/http/executor.go:444-456 | Rendering is filling a cut that depends on template and keys only, so text inside a value is never expanded. |
| `Segmentation.CutOrderFree` | internal/executor/http/executor.go:444-456 | For clean brace-free keys the cut is the same for every iteration order. |
| `Segmentation.SubstitutedOccurs` | internal/executor/http/executor.go:383-391 | Whatever the scan substitutes occurs in the template, so the cheap test sees it. |
| `Segmentation.UsedWritten` | internal/executor/http/executor.go:383-391 | The use test looks for the texts `{k}`, `{{k}}` and `{{input.k}}`, and no other. |
| `Segmentation.OverlapIsTail` | internal/executor/http/executor.go:353-361 | The only placeholder an earlier match can overlap is the `{k}` inside its own `{{k}}`. |
| `Segmentation.OccurrenceIsSubstituted` | internal/executor/http/executor.go:383-391 | No earlier match swallows an occurrence of `{k}` or `{{input.k}}`: its key is substituted. |
| `Segmentation.UsedIffSubstituted` | internal/executor/http/executor.go:383-391 | For clean brace-free keys the `strings.Contains` test holds if and only if the leftmost non-overlapping scan really substitutes the key in one of the three tested forms. |
| `Segmentation.AgreementNeedsCleanKeys` | internal/executor/http/executor.go:383-391 | Among brace-free key sets, test and scan agree on all templates, orders and keys if and only if no key is an alias of another. |
| `Segmentation.OrderNeverMattersIff` | internal/executor/http/executor.go:349-364 | For every key set, braces allowed: all values, templates and orders render alike if and only if no pattern of one key starts a pattern of another. |
| `Segmentation.UnambiguousIffClean` | internal/executor/http/executor.go:349-364 | Among brace-free key sets, no pattern of one key starts one of another if and only if no key is an alias of another. |
| `Segmentation.BracesInKeysMakeOrderMatter` | internal/executor/http/executor.go:349-364 | An instance with braces in a key: with `x` and `{x`, the template `{{x}}` renders in two ways. |
| `QueryString.UnescapeEscape` | internal/executor/http/executor.go:447 | Query-escaping a byte string and unescaping it gives it back. |
| `QueryString.EscapesEachByte` | internal/executor/http/executor.go:447 | Wherever a byte stands, a letter, a digit and each of `-_.~` stays, a space becomes `+`, and any other byte `%` and its two upper-case hex digits. |
| `QueryString.EscapedAlphabet` | internal/executor/http/executor.go:440-447 | Escaped text has only letters, digits and `-_.~%+`; no `/` in a value adds a path segment. |
| `QueryString.VerbatimIff` | src/main/java/dev/cezar/agenthub/skillruntime/application/executor/impl/HttpToolExecutor.java:148-150 | Text written unescaped reads back as it is if and only if it has no `+` and no `%` with two hex digits behind it. |
| `QueryString.EscapedIsSafe` | internal/executor/http/executor.go:440-447 | Escaped text has no `&`, `=`, `#` or `?`. |
| `QueryString.ParseJoined` | internal/executor/http/executor.go:407-411 | Parsing two queries joined by `&` gives the pairs of the first and then those of the second. |
| `QueryString.ParseEncoded` | internal/executor/http/executor.go:411 | Parsing an encoded value map gives every key with its original bytes, in key order. |
| `HttpUrl.RenderTemplateURL` | internal/executor/http/executor.go:444-456 | The URL is the template rendered with query-escaped values in some iteration order, and in every order when keys are brace-free and aliases of each other hold the same value. |
| `HttpUrl.Encode` | internal/executor/http/executor.go:411 | The encoded query lists the keys in sorted order, whatever order they were collected in. |
| `HttpUrl.AppendUnusedInputAsQuery` | internal/executor/http/executor.go:379-412 | Exactly the inputs that are not used and that the schema allows are appended, after `?` or `&`; without any the URL is unchanged. |
| `HttpUrl.BuildURL` | internal/executor/http/executor.go:113-121 | GET, DELETE and HEAD calls render and then append, every other method renders only; under the same key condition the final URL is the same for every iteration order. |
| `HttpUrl.SchemaFilters` | internal/executor/http/executor.go:393-403 | For every template, input and schema: the keys forwarded under the schema are those forwarded without one that it names, with the same values. |
| `HttpUrl.RenderedIsFinalIff` | internal/executor/http/executor.go:113-121 | The final URL starts with the rendered one, and is the rendered one if and only if nothing is forwarded or the method is none of GET, DELETE and HEAD. |
| `HttpUrl.SchemaSendsOneInput` | internal/executor/http/executor.go:393-411 | With a schema that names one input, a template without braces and query gets that input and no other. |
| `HttpUrl.SchemaExample` | internal/executor/http/executor.go:393-411 | `/search` with a schema that names `q` becomes `/search?q=x`; the input `state` is not sent. |
| `HttpUrl.AnyInputFate` | internal/executor/http/executor.go:383-403 | For all keys: an input substituted in a tested form is not forwarded; it is both substituted and forwarded only as `{{args.k}}`, and neither if and only if it is not substituted and the schema filters it or the use test fires. |
| `HttpUrl.QueryRoundTrip` | internal/executor/http/executor.go:404-411 | Parsing the extended URL gives the pairs it had and then the forwarded inputs, in key order and with their original bytes, if and only if the rendered URL has no `#` or nothing is forwarded. |
| `HttpUrl.FragmentComesFromTemplate` | internal/executor/http/executor.go:440-456 | Values never bring a `#` into the URL: it is there exactly when the template has one outside its placeholders. |
| `HttpUrl.ForwardedInputsReachTheServer` | internal/executor/http/executor.go:113-121 | The round trip from template and inputs to the pairs a server parses; template and keys decide whether it succeeds, the values do not. |
| `HttpUrl.InputFate` | internal/executor/http/executor.go:383-403 | When no brace-free key is an alias of another, an input substituted in a tested form is not forwarded; it is delivered twice if and only if it is allowed and the template holds `{{args.k}}` and none of the tested forms, and not at all if and only if the schema filters it and no form of it occurs. |
| `HttpUrl.NothingIsLostIff` | internal/executor/http/executor.go:383-403 | Among brace-free key sets, every input is substituted or forwarded without a schema, for all values, templates and orders, if and only if no key is an alias of another. |
| `HttpUrl.FragmentLosesInput` | internal/executor/http/executor.go:404-411 | A template without braces and with a fragment: the input is forwarded, and the query of the final URL is that of the template. |
| `HttpUrl.FragmentExample` | internal/executor/http/executor.go:404-411 | The city for `/weather#today` does not reach the server. |
| `HttpUrl.ArgsIsDeliveredTwice` | internal/executor/http/executor.go:386-388 | For every brace-free key and value, the template `{{args.k}}` alone gives the value followed by `?k=value`. |
| `HttpUrl.ArgsExample` | internal/executor/http/executor.go:386-388 | `{{args.q}}` with `q` = `1` becomes `1?q=1`. |
| `JavaUrl.BuildUrl` | src/main/java/dev/cezar/agenthub/skillruntime/application/executor/impl/HttpToolExecutor.java:131-160 | For some iteration orders of the two maps, the URL is the sequentially substituted template, followed by its query when query parameters are given. |
| `JavaUrl.ReplacePathParams` | src/main/java/dev/cezar/agenthub/skillruntime/application/executor/impl/HttpToolExecutor.java:135-140 | The loop substitutes key after key; on a flat template with brace-free entries the result is the simultaneous substitution of every order. |
| `JavaUrl.AppendQueryParams` | src/main/java/dev/cezar/agenthub/skillruntime/application/executor/impl/HttpToolExecutor.java:143-157 | Writing a `&` behind each entry and cutting off a last `&` joins the entries by `&`, in some iteration order; an empty map leaves a lone `?`, or nothing behind an existing query. |
| `JavaUrl.FewParams` | src/main/java/dev/cezar/agenthub/skillruntime/application/executor/impl/HttpToolExecutor.java:143-157 | No query parameter gives a lone `?`, or nothing behind an existing query; one gives `?k=v` or `&k=v`. |
| `JavaUrl.ReplaceIsSubst` | src/main/java/dev/cezar/agenthub/skillruntime/application/executor/impl/HttpToolExecutor.java:137-139 | For brace-free keys the one-pass replacer over `{key}` patterns, in any order, replaces exactly the innermost brace pairs whose word is a key. |
| `JavaUrl.KeyByKey` | src/main/java/dev/cezar/agenthub/skillruntime/application/executor/impl/HttpToolExecutor.java:137-139 | Substituting one key and then the others is substituting all at once, provided the first brings none of the others into being. |
| `JavaUrl.FlatStaysFlat` | src/main/java/dev/cezar/agenthub/skillruntime/application/executor/impl/HttpToolExecutor.java:137-139 | Brace-free text substituted in a template without nested braces leaves it without nested braces. |
| `JavaUrl.SequentialIsSimultaneous` | src/main/java/dev/cezar/agenthub/skillruntime/application/executor/impl/HttpToolExecutor.java:135-140 | On a flat template with brace-free entries every iteration order gives the simultaneous substitution. |
| `JavaUrl.NotFlatDiffers` | src/main/java/dev/cezar/agenthub/skillruntime/application/executor/impl/HttpToolExecutor.java:135-140 | For every template that is not flat there are brace-free entries and an order for which the loop expands a placeholder that a replacement created. |
| `JavaUrl.SequentialIsSimultaneousIffFlat` | src/main/java/dev/cezar/agenthub/skillruntime/application/executor/impl/HttpToolExecutor.java:135-140 | Sequential and simultaneous substitution agree for all brace-free maps and all orders if and only if the template is flat. |
| `JavaUrl.NestedExpands` | src/main/java/dev/cezar/agenthub/skillruntime/application/executor/impl/HttpToolExecutor.java:137-139 | For all brace-free texts, in `{a{k}}` the value of `k` completes another name, and the loop puts that name's value in its place, where the simultaneous substitution leaves it. |
| `JavaUrl.NestedTemplateExample` | src/main/java/dev/cezar/agenthub/skillruntime/application/executor/impl/HttpToolExecutor.java:137-139 | `{a{k}}` with `k` = `b` and `ab` = `!` becomes `!`. |
| `JavaValues.SubstitutesAtOnceIff` | src/main/java/dev/cezar/agenthub/skillruntime/application/executor/impl/HttpToolExecutor.java:135-140 | For brace-free keys and any values, key after key is all at once for all orders and all flat templates if and only if, of any two entries, the value of one has no part in the placeholder of the other, or that other stands for its own placeholder. |
| `JavaValues.KeyLast` | src/main/java/dev/cezar/agenthub/skillruntime/application/executor/impl/HttpToolExecutor.java:137-139 | On a flat template, substituting one more key in the text the earlier ones left is substituting it with them at once, provided their values have no part in its placeholder; its own value is not read. |
| `JavaValues.HarmfulDiffers` | src/main/java/dev/cezar/agenthub/skillruntime/application/executor/impl/HttpToolExecutor.java:135-140 | Where a value has a part in another placeholder, some flat template and order tell the loop from the simultaneous substitution. |
| `JavaValues.BraceFreeMapIsHarmless` | src/main/java/dev/cezar/agenthub/skillruntime/application/executor/impl/HttpToolExecutor.java:135-140 | Values without braces have no part in any placeholder. |
| `JavaValues.ValueIsExpanded` | src/main/java/dev/cezar/agenthub/skillruntime/application/executor/impl/HttpToolExecutor.java:137-139 | For all brace-free keys, a placeholder inserted as a value is expanded by the loop and left alone by the simultaneous substitution. |
| `JavaValues.BracedValueExample` | src/main/java/dev/cezar/agenthub/skillruntime/application/executor/impl/HttpToolExecutor.java:137-139 | `{a}` with `a` = `{b}` and `b` = `1` becomes `1` in place of `{b}`. |
| `JavaUrl.PiecesArriveIff` | src/main/java/dev/cezar/agenthub/skillruntime/application/executor/impl/HttpToolExecutor.java:143-157 | The receiver splits off, behind what the path already had, exactly the entries written if and only if the path has no fragment and no entry holds a `&` or a `#`. |
| `JavaUrl.ParamsArriveIff` | src/main/java/dev/cezar/agenthub/skillruntime/application/executor/impl/HttpToolExecutor.java:143-157 | Nothing is escaped: the receiver decodes, behind what the path already had, exactly the names and values given if and only if there are none, or the path has no fragment, no name or value holds a `&`, `#`, `+` or `%` with two hex digits behind it, and no name a `=`. |
| `SqlTemplate.ValueDec` | internal/executor/sql/executor.go:196 | Reading the decimal digits of a parameter number gives the number back. |
| `SqlTemplate.MaxOf` | internal/executor/sql/executor.go:203-213 | The result bounds every parameter number that fits an int64 and is one of them, or 0. |
| `SqlTemplate.MaxSQLParamIndex` | internal/executor/sql/executor.go:202-214 | The scan with a running maximum finds the largest `$n` of the query that fits an int64. |
| `SqlTemplate.RenderInputTemplate` | internal/executor/sql/executor.go:185-200 | The text depends on the template alone, no input value can occur in it, and numbers go on from the largest of the template; the arguments are the values of the placeholders, left to right, nil for missing keys. |
| `SqlPatterns.PlaceholderExactly` | internal/executor/sql/executor.go:180 | For every text: the first expression matches at its start, with this length and key, if and only if the text starts with `{{input.`, a key of letters, digits and `_`, and `}}`, together with the quote on either side that is there. |
| `SqlPatterns.ParamExactly` | internal/executor/sql/executor.go:181 | For every query: the second expression matches at its start if and only if there is a `$` and a number without a leading zero, read to its last digit. |
| `SqlPatterns.MatchIsReplaced` | internal/executor/sql/executor.go:187-197 | A match becomes `$` and the next number, and its argument is the input of its key, nil if there is none. |
| `SqlPatterns.OtherTextStays` | internal/executor/sql/executor.go:187 | A character where nothing matches stays as it is. |
| `SqlPatterns.QuotesGoWithIt` | internal/executor/sql/executor.go:180-197 | For every key, number and following text: a placeholder with quotes on both sides, on one side or on none becomes the parameter alone, and the text behind it is rendered on its own. |
| `SqlTemplate.MeaningPreserved` | internal/executor/sql/executor.go:185-199 | Reading the rendered query with its fresh parameters bound to the arguments gives the template's tokens with each placeholder and its quotes replaced by its value, no explicit `$n` captured, if and only if no placeholder is directly followed by a digit and the numbers fit an int64. |
| `SqlTemplate.ReadRendered` | internal/executor/sql/executor.go:187-196 | The rendered query reads as the template's tokens with the placeholders numbered consecutively. |
| `SqlTemplate.ParamsDiffer` | internal/executor/sql/executor.go:187-196 | A glued digit or a number beyond int64 spoils the parameter list of every template it occurs in. |
| `SqlTemplate.FreshParameters` | internal/executor/sql/executor.go:185-214 | The parameters of the rendered query are the template's own, in place, interleaved with max+1, ..., max+n, if and only if no placeholder is directly followed by a digit and the numbers fit an int64; then its largest number is max+n. |
| `SqlTemplate.PlaceholderHasNoDollar` | internal/executor/sql/executor.go:180 | The text a placeholder spans contains no `$`. |
| `SqlTemplate.RenderIsIdempotent` | internal/executor/sql/executor.go:184-199 | Rendering a rendered query again changes nothing and binds nothing, for every template. |
| `SqlTemplate.GluedDigitExample` | internal/executor/sql/executor.go:187-196 | `{{input.id}}0` becomes `$10`, which is read as parameter ten. |
| `SqlLiterals.ParametersOutsideLiteralsIff` | internal/executor/sql/executor.go:180-199 | Where the fresh numbers fit: no fresh parameter of the rendered query stands inside a quoted literal and the quotes are balanced, if and only if the same holds for the placeholders of the template among the quotes that are not swallowed. |
| `SqlLiterals.OneIsSafeIff` | internal/executor/sql/executor.go:180-196 | A template with one placeholder between two plain texts has this property if and only if the quotes that are not swallowed are even in number on both sides. |
| `SqlLiterals.QuotedExamples` | internal/executor/sql/executor.go:180-196 | `'%{{input.q}}%'` and `'%{{input.q}}'` do not have it. |
| `Errors.PermanentAnywhere` | internal/executor/executor.go:28-31 | An error is permanent if and only if a `PermanentError` occurs anywhere in its chain. |
| `Backoff.RetryDelayForAttempt` | internal/invoker/invoker.go:62-75 | The multiplying loop computes base times multiplier to the attempt, truncated and then cut at the cap. |
| `Backoff.DelayIsPower` | internal/invoker/invoker.go:62-75 | For a base delay that is not negative: the first delay, and all under a multiplier of at most 1.0, are the base delay; any other is base times multiplier to the attempt without its fraction, or the cap if that is less, or, beyond int64, what the platform gives, cut at the cap. |
| `Backoff.DefaultDelays` | internal/invoker/invoker.go:50-75 | The default configuration waits 200 and 400 milliseconds, and 30 seconds where the power would be 51.2. |
| `Backoff.CapKeptIff` | internal/invoker/invoker.go:60-75 | For every attempt, multiplier and platform, a wait keeps to the cap if and only if it is computed or the base delay keeps to it. |
| `Backoff.PromisedIff` | internal/invoker/invoker.go:60-75 | For every attempt and multiplier, the delay is the capped exponential on every platform if and only if it is computed and the uncut delay fits an int64, or it is not computed and needs no cut. |
| `Backoff.WaitsIff` | internal/invoker/invoker.go:62-75 | For every attempt and multiplier, the delay is not negative on every platform if and only if the base delay is not and a computed delay fits an int64. |
| `Backoff.UncutDelays` | internal/invoker/invoker.go:63-65 | A constant delay of 100 under a cap of 10 waits 100 after every attempt; so does the first wait of a growing one. |
| `Backoff.OverflowDoesNotWait` | internal/invoker/invoker.go:70-74 | With one second, a large multiplier and a cap of a minute, a platform whose conversion gives the least int64 does not wait. |
| `Backoff.DelayMonotone` | internal/invoker/invoker.go:62-75 | For every base delay that is not negative and every multiplier, a delay is at least the one before it on every platform if and only if it is not the second one, computed, under a cap below the base delay, and not the first one that does not fit an int64. |
| `Backoff.GeometricSumClosed` | internal/invoker/invoker.go:66-69 | The geometric sum times (m - 1) is m to the n, minus 1. |
| `Backoff.TotalWaitGeometric` | internal/invoker/invoker.go:62-75 | All waits together are at most the base delay times the geometric sum, for every multiplier and on every platform, overflow included. |
| `Backoff.TotalWaitCapped` | internal/invoker/invoker.go:71-73 | With a cap no smaller than the base delay, all waits together are at most the number of retries times the cap, whatever the multiplier, the sign of the base delay and the platform. |
| `Invoker.ToolInvoker.Invoke` | internal/invoker/invoker.go:95-134 | What one call executes, returns and does to the counter: every attempt but the last failed with a transient error and its wait ran out, and success resets, cancellation keeps and final failure increments the counter. |
| `Invoker.BehaviourIsDetermined` | internal/invoker/invoker.go:95-134 | That contract leaves no freedom: outcomes and cancellations determine result, number of attempts and counter. |
| `Invoker.LastOutcomeDecides` | internal/invoker/invoker.go:95-134 | A call that is not rejected executes until an outcome is a success or permanent, its wait is cancelled, or the retries are used up; that outcome decides the result, and it resets, keeps or increments the counter. |
| `Invoker.PermanenceIsReported` | internal/invoker/invoker.go:117-133 | The returned error is permanent if and only if the last attempt's error was, and there is none if and only if that attempt succeeded. |
| `Invoker.CounterCountsFailures` | internal/invoker/invoker.go:95-134 | Over any history the counter is the number of counted failures since the last success, cancellations and rejections not counted, and a call is rejected exactly when there is a positive threshold and that number has reached it. |
| `Invoker.OpenForEver` | internal/invoker/invoker.go:96-99 | With one call at a time, every call after the breaker opened is rejected without executing. |
| `Invoker.CallDuration` | internal/invoker/invoker.go:108-145 | If attempts keep their deadline and waits do not overrun, a call ends within (MaxRetries+1) times the timeout plus all backoff waits, for every delay configuration. |
| `Breaker.BoundedStep` | internal/invoker/invoker.go:96-133 | Every step of every caller keeps failures plus calls in flight within threshold - 1 plus the number of callers. |
| `Breaker.CounterBound` | internal/invoker/invoker.go:96-133 | In every interleaving of n callers, failures plus calls in flight are at most T - 1 + n. |
| `Breaker.CounterBoundIsReached` | internal/invoker/invoker.go:96-133 | For every n some interleaving takes the counter to T - 1 + n, so the bound is exact. |
| `Breaker.OpenBreakerBudget` | internal/invoker/invoker.go:96-130 | Once open with k calls in flight, at most k times (MaxRetries+1) executor calls happen before the breaker closes. |
| `Breaker.OpenBreakerBudgetIsReached` | internal/invoker/invoker.go:96-130 | For every k some run opens the breaker with k calls in flight that then make k times (MaxRetries+1) executor calls, so that bound is exact as well. |
| `Breaker.OnlyInFlightSuccessCloses` | internal/invoker/invoker.go:96-112 | The step that closes an open breaker is the reset of a call that was in flight all along. |
| `Breaker.OpenAndQuietIsAbsorbing` | internal/invoker/invoker.go:96-99 | Open with nothing in flight, no run executes anything or changes the state. |
| `Breaker.SequentialIsARun` | internal/invoker/invoker.go:95-134 | Each sequential call is an interleaved run of one caller with the same counter and number of executions. |
| `Jwks.CollectKeys` | internal/middleware/auth.go:99-109 | For every document and id: the id is kept if and only if some entry with it has `kty` `RSA`, `use` `sig` and a well-formed key, and the key kept is that of the last such entry. |
| `Jwks.KeptKeyIsLast` | internal/middleware/auth.go:99-109 | A kept key is the last RSA signing key of the document with its id. |
| `Jwks.KeptExactly` | internal/middleware/auth.go:99-109 | The kept ids are those of the RSA signing keys, whatever else the document holds under them, and the last one counts. |
| `Jwks.EncryptionKeyIsNotKept` | internal/middleware/auth.go:100-103 | Beside a signing key, an RSA key for encryption is not kept. |
| `Jwks.JwksCache.FetchJWKS` | internal/middleware/auth.go:62-116 | An unexpired entry is returned and the cache stays; otherwise a failed fetch changes nothing, and a good one stores and returns, for this tenant only, keys whose ids are those of the RSA signing keys of the document. |
| `Jwks.OneFetchIsARun` | internal/middleware/auth.go:62-116 | A call of the class is a run of one process of the interleaved cache, with the same keys returned and the same cache at its end. |
| `Jwks.ConsistentStep` | internal/middleware/auth.go:62-116 | Every step of every concurrent fetch keeps each entry genuine: served for its own tenant, within the fetch window before it was stored. |
| `Jwks.HitIsFreshEnough` | internal/middleware/auth.go:44-115 | In every interleaving a hit returns keys served for that tenant less than 305 seconds plus local processing time ago, and stored less than 300 seconds ago. |
| `Jwks.StalenessBoundIsReached` | internal/middleware/auth.go:44-115 | For every local delay some run has a hit one nanosecond short of that bound. |
| `Jwks.FetchedIsGenuine` | internal/middleware/auth.go:71-115 | Fetched keys were served for the tenant after the request was sent. |
| `Jwks.ExpiryNeverMovesBack` | internal/middleware/auth.go:111-113 | Whoever stores, a tenant's entry stays and its expiry never moves back. |
| `Jwks.SoloProgramNeverOlder` | internal/middleware/auth.go:62-116 | While no two fetches of a tenant overlap, its entry stays and its keys never become older, in every run of any number of processes. |
| `Jwks.OlderFetchMayOverwriteNewer` | internal/middleware/auth.go:62-113 | With two processes or more, whatever the issuer serves, some run puts keys that were served earlier in the place of later ones. |
| `Jwks.NeverOlderIff` | internal/middleware/auth.go:62-116 | Cached keys never become older in any run of n processes if and only if n is at most 1. |
| `McpStdio.StdioProtocol.Write` | internal/executor/mcp/executor.go:344-354 | A successful write appends the request and a failed one writes nothing. |
| `McpStdio.StdioProtocol.Call` | internal/executor/mcp/executor.go:312-338 | The id goes up by one, the request is written, and the scan returns the first line carrying the id unless cancellation, a bad line or the end comes first; the lines up to it are consumed. |
| `McpStdio.AnswerIsFirst` | internal/executor/mcp/executor.go:319-330 | A wait succeeds if and only if some line is the first with the id that nothing before it ends; its message is the answer and the stream continues behind it. |
| `McpStdio.FailureIsFirst` | internal/executor/mcp/executor.go:319-337 | Why a wait fails: cancellation or a bad line at the first line that ends it, or the end of the stream, where cancellation comes before a read error and that before a closed stream. |
| `McpStdio.StdioProtocol.Notify` | internal/executor/mcp/executor.go:340-342 | A notification is a request without an id. |
| `McpStdio.ExecuteStdio` | internal/executor/mcp/executor.go:264-298 | For every stream and every pattern of write failures, the outcome, what was written, and what the caller gets: the error of the answer if it has one, else its output. |
| `McpStdio.WritesFollowTheScript` | internal/executor/mcp/executor.go:264-291 | The writes are a prefix of `initialize` with id 1, `notifications/initialized` without one and `tools/call` with id 2, and the outcome tells how far they got; the tool call goes out only after the first message with id 1, response or not, came without an error. |
| `McpStdio.SessionSucceedsIff` | internal/executor/mcp/executor.go:264-342 | A session yields an answer if and only if its writes succeed, a first id-1 message without error and then a first id-2 message come, and nothing ends the wait before; the answer is that message. |
| `McpStdio.ToolResultIff` | internal/executor/mcp/executor.go:288-298 | A caller gets an output or a tool error if and only if its session yields an answer without, or with, that error. |
| `McpStdio.OtherOutcomesIff` | internal/executor/mcp/executor.go:264-290 | Each of the other outcomes, if and only if: the write that failed, the wait that failed, or the error of the first message with id 1. |
| `McpStdio.ForeignMessagesAreInvisible` | internal/executor/mcp/executor.go:319-330 | Adding a message without an id, or with an integer id nobody asked for, anywhere in the stream changes neither the outcome nor the writes. |
| `McpStdio.InvisibleIff` | internal/executor/mcp/executor.go:319-330 | A line can be added anywhere in every stream unnoticed if and only if it decodes, its id is neither 1 nor 2, and the context is not done there. |
| `McpStdio.AcceptedDecides` | internal/executor/mcp/executor.go:273-290 | The messages accepted for the two ids decide the session: the handshake is made exactly when the first has no error, and the outcome is the second. |
| `McpStdio.OnlyResponsesIff` | internal/executor/mcp/executor.go:319-330 | For every stream, only responses are accepted if and only if the first message with id 1 is one and, when that starts the tool call, so is the first with id 2 behind it. |
| `McpStdio.ReliableIff` | internal/executor/mcp/executor.go:319-330 | Only responses are accepted from all streams of a server whose own requests use the ids of a given set, if and only if the set holds neither 1 nor 2. |
| `McpStdio.ToolCallFollowsResponse` | internal/executor/mcp/executor.go:264-291 | With a server that keeps id 1 off its own requests, the tool call goes out only after a response to initialize without an error. |
| `McpStdio.PingIsTakenForInitializeAnswer` | internal/executor/mcp/executor.go:327-329 | A stream whose only line is a `ping` request with id 1 makes the client call the tool. |
| `McpStdio.ServerRequestIsTakenForAnswer` | internal/executor/mcp/executor.go:327-329 | A `roots/list` request with id 2 is taken for the answer to the tool call. |
| `McpEnv.IsPOSIXEnvName` | internal/executor/mcp/executor.go:421-435 | The loop accepts exactly the names made of letters, digits and `_` that do not start with a digit. |
| `McpEnv.CollectKeys` | internal/executor/mcp/executor.go:357-361 | Collecting and sorting the keys forgets the iteration order. |
| `McpEnv.StdioEnvironment` | internal/executor/mcp/executor.go:356-380 | Accepted if and only if every key is a POSIX name, none is `PATH`, `ENV`, `BASH_ENV`, `NODE_OPTIONS`, `RUBYOPT`, `PERL5OPT` or `GODEBUG` or starts with `LD_`, `DYLD_` or `PYTHON` in any case, and no value has a NUL; then PATH followed by the entries in key order, otherwise the least key that breaks this is reported. |
| `McpEnv.AcceptableIff` | internal/executor/mcp/executor.go:365-380 | Comparing upper-cased names, as the guard does, is comparing them in any case. |
| `McpEnv.PreloadIsRefused` | internal/executor/mcp/executor.go:379 | A configuration with `LD_PRELOAD` is refused, and that key reported. |
| `McpEnv.EnvironmentReadsBack` | internal/executor/mcp/executor.go:363-380 | Splitting each entry at its first `=` gives the configured map plus one PATH, no name twice, and no configured name is PATH in any case. |
| `McpEnv.EnvironmentIsDetermined` | internal/executor/mcp/executor.go:356-372 | The result is the same for every iteration order, the reported key included. |
| `Anthropic.ConvertMessage` | internal/ai/provider/anthropic/provider.go:296-343 | The loop writes one tool_use block for each call behind the text, if any, with invalid arguments as `{}`; results and plain texts become one block. |
| `Anthropic.MessageIsWritten` | internal/ai/provider/anthropic/provider.go:296-343 | What is written for any message: a tool result in the role `user`, one text in the role of the message, or the text, if any, and the calls in the role `assistant`, in order, with arguments that are no JSON as `{}`. |
| `Anthropic.BuildRequest` | internal/ai/provider/anthropic/provider.go:256-294 | The request has the converted non-system messages in order, the first system text that is not empty, and 4096 tokens by default. |
| `Anthropic.RequestKeepsMessage` | internal/ai/provider/anthropic/provider.go:269-283 | Wherever a message stands it reaches the request exactly once and at its place, unless it is a system message. |
| `Anthropic.SystemTextIsFirst` | internal/ai/provider/anthropic/provider.go:262-276 | The system text is the caller's if there is one, else that of the first system message that says anything, else empty. |
| `Anthropic.ConvertResponse` | internal/ai/provider/anthropic/provider.go:345-391 | The loop concatenates the texts and collects the tool calls in order; the finish reason is `stop` for `end_turn`, `tool_calls` for `tool_use`, `length` for `max_tokens`, and any other reason unchanged. |
| `Anthropic.ResponseKeepsBlock` | internal/ai/provider/anthropic/provider.go:357-374 | Wherever it stands in a response, a tool call becomes one function call with its id, name and input, `{}` if it has none, a text goes into the content, and other blocks leave no trace. |
| `Anthropic.MessageRoundTrip` | internal/ai/provider/anthropic/provider.go:296-374 | Reading back the blocks written for any message recovers its role, its text or tool result and all its tool calls, in order, up to normal form. |
| `Anthropic.CallsArrive` | internal/ai/provider/anthropic/provider.go:317-374 | Read back from the blocks written for a message, the calls keep order, ids and names, and arguments that are no JSON are `{}`. |
| `Anthropic.NormalisingIsIdempotent` | internal/ai/provider/anthropic/provider.go:317-332 | Normalising tool calls twice is normalising them once. |
| `Anthropic.NormalMessageIsEquivalent` | internal/ai/provider/anthropic/provider.go:296-343 | Normalising a message changes nothing of what is sent, and doing it twice is doing it once. |
| `Anthropic.ResponseRoundTrip` | internal/ai/provider/anthropic/provider.go:311-374 | Sending a response back gives the blocks that came if and only if it is one text alone, or normal tool calls with at most one text, not empty, in front. |
| `Anthropic.TwoTextsAreMerged` | internal/ai/provider/anthropic/provider.go:311-360 | Two text blocks come back as one. |
| `Anthropic.ChatStream` | internal/ai/provider/anthropic/provider.go:200-249 | For every stream of lines, the chunks sent before the channel is closed; what they say follows in the rows below. |
| `Anthropic.FinishesFollow` | internal/ai/provider/anthropic/provider.go:236-239 | For every stream, the finish reasons sent are the stop reasons received before `message_stop`, one for one and in order: `stop` for `end_turn`, `tool_calls` for `tool_use`, `length` for `max_tokens`, any other unchanged. |
| `Anthropic.OneChunkEach` | internal/ai/provider/anthropic/provider.go:213-248 | For every stream, one chunk is sent for each content delta of any kind and each stop reason, and one for an error. |
| `Anthropic.TextAgreesIff` | internal/ai/provider/anthropic/provider.go:200-249 | For every stream of lines, its `text_delta`s spell a text and `message_stop` comes before any line that is not an event, if and only if the deltas of its chunks spell that text and it is so closed; with the content of the converted response, however it is cut and whatever other events are interleaved. |
| `Anthropic.ClosedHasNoError` | internal/ai/provider/anthropic/provider.go:213-248 | Such a closed stream sends no error chunk. |
| `Anthropic.InputAgreesIff` | internal/ai/provider/anthropic/provider.go:228-233 | The same for the `input_json_delta`s and the argument deltas. |
| `Anthropic.ArgumentsAgreeIff` | internal/ai/provider/anthropic/provider.go:228-233 | When the argument deltas spell the raw inputs of the blocks, they are the arguments of the converted response if and only if no tool call lacks its input. |
| `Anthropic.StreamAgrees` | internal/ai/provider/anthropic/provider.go:200-249 | For a stream that follows the blocks one by one, each cut into deltas in any way, with other events in between: the deltas spell the content of the converted response, the argument deltas the raw inputs of the tool calls, and the finish reason is the same, without an error chunk. |
| `Anthropic.StreamsSpell` | internal/ai/provider/anthropic/provider.go:200-249 | Streams that follow the blocks are among those whose deltas spell the content and the raw inputs. |
| `Anthropic.MissingInputExample` | internal/ai/provider/anthropic/provider.go:361-364 | A tool call without input has no argument delta and `{}` in the converted response. |
| `Anthropic.EmptyArgumentsExample` | internal/ai/provider/anthropic/provider.go:228-233 | With one empty argument delta for a tool call whose input is `{}`, the text agrees and the arguments do not. |
| `Anthropic.ErrorChunkIsLast` | internal/ai/provider/anthropic/provider.go:213-248 | An error chunk is the last chunk and says nothing else, and there is one if and only if a data line is no event or reading fails before `message_stop`. |
| `Anthropic.NothingFollowsStop` | internal/ai/provider/anthropic/provider.go:241-242 | Nothing behind `message_stop` is looked at, a read error included. |

## Left out

- Template.RenderTemplate: takes the input values as the strings `%v` makes of them; formatting itself is not modelled.
- QueryString.ParseEncoded: works on bytes; the UTF-8 decoding that ends the form parser is not modelled.
- SqlTemplate.MeaningPreserved: reads a query as the two regular expressions do, and tells no part of it apart from the rest.
- SqlLiterals.ParametersOutsideLiteralsIff: knows plain single-quoted literals; comments, dollar quotes, escape strings and quoted identifiers are not modelled.
- Backoff.RetryDelayForAttempt: multiplies over `real`, so floating-point rounding is not modelled; the result of converting an out-of-range float is a parameter, as the Go specification leaves it open.
- Invoker.CallDuration: assumes that attempts keep their deadline; `attemptOnce` hands the deadline to the executor, which has to honour it.
- Invoker.ToolInvoker.Invoke: the latency field is a clock reading, and the text of error messages is abbreviated; the wrap-around of the 64-bit counter is not modelled.
- Jwks.JwksCache.FetchJWKS: the network, the JWKS decoder and URL building are one parameter, the outcome of the fetch; whether a key is well-formed base64url is part of the document.
- McpStdio.ExecuteStdio: starts with a running child process; starting and killing it, the command allowlist, the empty capabilities object and the line-length limit of the scanner (a read error here) are not modelled, and a failed write is taken to have written nothing.
- McpEnv.IsPOSIXEnvName: looks at bytes where Go ranges over runes; a name with a byte outside ASCII is refused either way.
- Anthropic.ConvertMessage: returns content blocks; the JSON text around them is not modelled, and `Marshal`'s compaction of raw arguments (whitespace and the escaping of `<`, `>`, `&` and line separators) is a function that keeps JSON valid and is done once it was done.
- Anthropic.BuildRequest: the tool list, the model name and the stream flag are copied by the source and not modelled.
- Anthropic.ConvertResponse: model name and token counts are copied by the source and not modelled.
- JavaUrl.BuildUrl: the class casts and null checks of the Java maps are not modelled.
- Errors with several causes (`Unwrap() []error`) do not occur in an error chain here.
- Request bodies and headers use the same template engine and add nothing to it.
- URL validation against blocked addresses, JWT verification, Keycloak URLs and key parsing are thin layers over Go's libraries.
- Skill and tool resolution, registries, configuration parsing, row collection and the HTTP server would add only simple members.
- The OpenAI, OpenRouter and Ollama providers, the script executor and the other Java executors add little beyond what is modelled or live in foreign components.
