# Agent response normaliser

A model of the response normaliser in the warehouse agent's Django views. The
agent returns a record `{status, response}` or `{status, message}`.
`parse_agent_response` turns it into a result with at most four fields:
`observation`, `thought`, `action` and `final_answer`.

- **Error records.** An error record becomes `{error: message}`.
- **Text payloads.** Four fixed regular expressions pick the fields out of the text. When the final-answer pattern does not match, the whole stripped text is the final answer.
- **Dict payloads.** The known keys are copied. `final_answer` is `output`, or the payload's own `final_answer` when `output` is falsy.
- **Clean-up.** Every falsy field is then dropped.

The `Query` view then walks the payload's `intermediate_steps` (when the
payload is a dict). Each `(action, observation)` step overwrites fields of the
cleaned result, so the last dict-shaped step wins.

The model has six modules:

- `Wrappers`: the `Option` datatype.
- `Python`: a datatype of Python values, Python's truth test, `dict.get`, `or`, and the exceptions the code can raise.
- `Text`: substring occurrence, line segments, and `str.strip()` over the characters `str.isspace()` accepts.
- `Patterns`: the four regular expressions as three generic shapes. These are a braced group, a line field ending at a lookahead, and a quoted value after a lazy filler. Each is written as the backtracking attempt at one index, and `re.search` is the leftmost index at which the attempt succeeds. For each shape, a lemma characterises the search without reference to the engine: where it finds what, and when it finds nothing.
- `Views`: `parse_agent_response` and the overlay loop as methods. They build `structured_response` field by field, run `.update(...)`, and walk the steps with a loop invariant. Each method is proved to compute a function (`Parse`, `Walk`, `Overlay`, `QueryResult`).
- `ViewsProperties`: what those functions promise, stated in terms of the text and the record.

`json.loads` is a parameter `decode: string -> Option<Value>`, where `None`
stands for `JSONDecodeError`. The agent's record is a parameter of `Query`
instead of the result of the agent call.

- **Overlay condition.** The overlay runs only when `response` is a dict (agent/views.py:96). It also runs on the `{error: …}` result of an error record whose `response` is a dict (`ViewsProperties.QueryWithDict`).
- **`observation` value.** A dict payload's `observation` is copied as it is, so it can be any value. A text payload's `observation` is a dict whenever the decoder, like `json.loads`, turns a text that starts with `{` and ends with `}` only into an object (`ViewsProperties.ObservationIsDict`).
- **`None` values.** The overlay's `action.get('tool')` can put `None` back into a cleaned result (`ViewsProperties.QueryMayInsertNone`).

## Model

| member | source | states |
|---|---|---|
| Views.ParseAgentResponse | agent/views.py:25-76 | returns or raises exactly what `Parse` gives for every record and every decoder |
| Views.ParseText | agent/views.py:40-62 | the four searches, applied in order to the defaults, give `TextFields` of the text |
| Views.SearchObservation | agent/views.py:42-47 | `observation` is replaced only when the pattern matches and the fragment decodes; nothing else changes |
| Views.SearchLineField | agent/views.py:49-55 | `thought` or `action` is replaced by the stripped group only when the marker is found; nothing else changes |
| Views.SearchFinalAnswer | agent/views.py:57-62 | `final_answer` becomes the group, or else the stripped text; nothing else changes |
| Views.UpdateFromDict | agent/views.py:64-71 | `.update` with the four extracted fields replaces every default, giving `DictFields` of the payload |
| Views.WalkSteps | agent/views.py:98-104 | the loop returns `Walk`: it raises at a step that does not unpack, and otherwise each field reflects the last dict-shaped step (loop invariant) |
| Views.ApplyIntermediateSteps | agent/views.py:98-104 | `for step in intermediate_steps` over a list, a string, a dict or a non-iterable value, as `Overlay` states |
| Views.Query | agent/views.py:95-104 | parse, then overlay when `response` is a dict, as `QueryResult` states |
| Views.LastWinsExtend | agent/views.py:98-104 | one more loop iteration applied to the last-wins fields of a prefix gives the last-wins fields of the longer prefix |
| Views.OverwriteTwice | agent/views.py:100-104 | two rounds of assignments equal one round with the later values |
| Views.LastWhere | agent/views.py:98-104 | returns the last index whose step satisfies the test, or none when no step does |
| Views.Parse | agent/views.py:25-76 | the reference for `parse_agent_response`: the error record, `KeyError` on a missing `message` or `response`, and the cleaned fields of the payload; its meaning is stated by the `ViewsProperties` lemmas |
| Views.TextObservation | agent/views.py:42-47 | `observation` after a text payload: the decoded fragment of the first match, or `{}` when nothing matches or decoding fails |
| Views.TextLineField | agent/views.py:49-55 | `thought` or `action` after a text payload: the stripped group of the first match, or `""` |
| Views.TextFinalAnswer | agent/views.py:57-62 | `final_answer` after a text payload: the group of the first match, or the stripped text |
| Views.TextFields | agent/views.py:40-62 | the four text-payload fields written over the defaults |
| Views.DictFields | agent/views.py:64-71 | the four fields `.update` writes for a dict payload, with `output or final_answer` |
| Views.Fields | agent/views.py:31-71 | the fields before the clean-up for a text, a dict or any other payload |
| Views.DropFalsy | agent/views.py:74 | the comprehension that keeps exactly the entries whose value is truthy |
| Views.ObservesDict | agent/views.py:100-101 | `isinstance(observation, dict)` after the step unpacks |
| Views.ActsOnDict | agent/views.py:102-104 | `isinstance(action, dict)` after the step unpacks |
| Text.IsSpace | agent/views.py:51-62 | the characters `str.isspace()` accepts, which `strip()` removes |
| Patterns.Lookahead | agent/views.py:49-55 | the lookahead `(?=\n\|stop\|$)`: a newline, the stop marker, the end, or just before a final newline |
| Patterns.Group | agent/views.py:45-59 | `match.group(1)`: the slice of the text the group spans |
| Patterns.Attempts | agent/views.py:42-57 | the pattern tried at every index of the text, the end included, as `re.search` tries it |
| Views.Unpack | agent/views.py:99 | `action, observation = step`: a two-item list binds its items, a two-character string or two-key dict binds strings, anything else raises |
| Views.Overwrite | agent/views.py:100-104 | one iteration's assignments: a dict observation replaces `observation`, a dict action sets `action` to `tool` and `thought` to `log` |
| Views.LastWins | agent/views.py:98-104 | the reference for the loop: each field from the last step that is dict-shaped there, else unchanged |
| Views.Walk | agent/views.py:98-104 | the loop over a list: raises when some step does not unpack, otherwise `LastWins` |
| Views.Overlay | agent/views.py:98-104 | iterating any value of `intermediate_steps`: a list, a string, a dict's keys, or a non-iterable value that raises |
| Views.QueryResult | agent/views.py:95-104 | the reference for the view: the parser's outcome, overlaid when `response` is a dict |
| Python.Truthy | agent/views.py:74 | Python's truth test, used by `if v` and by `or` |
| Python.Or | agent/views.py:70 | `a or b`: the first operand when truthy, else the second |
| Python.GetOr | agent/views.py:67-69 | `d.get(key, default)` |
| Python.Get | agent/views.py:70 | `d.get(key)`, defaulting to None |
| Text.Strip | agent/views.py:51-62 | `str.strip()`: the text without leading and trailing whitespace; `Text.StripIs` and `Text.StripShape` characterise it |
| Patterns.MatchAt | agent/views.py:42-57 | one pattern's attempt at one index; its ensures bound the group within the text |
| Patterns.Search | agent/views.py:42-57 | `re.search`: the first index whose attempt succeeds; its ensures bound the group within the text |
| Patterns.Leftmost | agent/views.py:42-57 | the scan over the attempts from an index on; a reported success is the attempt at its index |
| Patterns.LazyTo | agent/views.py:42-57 | `.*?` followed by one character: a reported index lies within the text |
| Patterns.LazyToLookahead | agent/views.py:49-55 | the lazy body before the lookahead for a newline, the stop marker or the end of text: the end lies between the start and the end of the text |
| Patterns.LazyToKey | agent/views.py:57 | `.*?key(.*?)close`: a reported group lies after the key and before the end of the text |
| ViewsProperties.ErrorShortCircuit | agent/views.py:27-28 | an error record returns exactly `{error: message}` whatever its `response` and decoder, and raises `KeyError('message')` without a message |
| ViewsProperties.CleanResult | agent/views.py:31-74 | off the error path, the record returns exactly when it has `response` (else `KeyError('response')`); the result's keys are among the four fields and every value is truthy |
| ViewsProperties.FieldsKeys | agent/views.py:31-36 | before the clean-up all four fields are set, whatever the payload |
| ViewsProperties.CleanedField | agent/views.py:74 | each result field is present exactly when its value before the clean-up is truthy, and then equals it |
| ViewsProperties.TextCleaned | agent/views.py:40-62 | the four fields of a text payload's result are the four searches' values, each kept only when truthy |
| ViewsProperties.ThoughtFromText | agent/views.py:49-51 | `thought` is the stripped text from the first `Thought:` to the first newline, `Action:` or end, present exactly when non-empty |
| ViewsProperties.ThoughtMissing | agent/views.py:49-51 | without `Thought:` in the text there is no `thought` |
| ViewsProperties.ActionFromText | agent/views.py:53-55 | `action` is the stripped text from the first `Action:` to the first newline, `Observation:` or end, present exactly when non-empty |
| ViewsProperties.ActionMissing | agent/views.py:53-55 | without `Action:` in the text there is no `action` |
| ViewsProperties.LineFieldFound | agent/views.py:49-55 | a line field whose marker first occurs at `p` holds the stripped text up to the first boundary |
| ViewsProperties.LineFieldMissing | agent/views.py:49-55 | a line field whose marker does not occur stays `""` |
| ViewsProperties.LineFieldStripped | agent/views.py:51 | a line field is already stripped |
| ViewsProperties.ObservationFromText | agent/views.py:42-47 | given the first closed `Observation: {…}` match, `observation` is present exactly when decoding the fragment succeeds with a truthy value, and then holds it |
| ViewsProperties.ObservationFound | agent/views.py:42-47 | the observation field is the decoded fragment, or `{}` when decoding fails |
| ViewsProperties.ObservationMissing | agent/views.py:42-47 | without `Observation: {` closed by `}` on its line, there is no `observation` |
| ViewsProperties.ObservationIsDict | agent/views.py:42-47 | when the decoder turns braced texts only into objects, a text payload's `observation` is a dict |
| ViewsProperties.ObservationFragment | agent/views.py:42 | the decoded fragment starts with `{`, ends with the first `}` after it, and has no newline |
| ViewsProperties.NestedObjectCut | agent/views.py:42-45 | a nested object after `Observation: ` is cut at its first inner `}`, so the decoder sees a proper prefix of it |
| ViewsProperties.DecodeOnlyObservation | agent/views.py:42-47 | the decoder affects the result only through its value on the observation fragment |
| ViewsProperties.FinalAnswerFromText | agent/views.py:57-59 | with a same-line final-answer candidate, `final_answer` is the nearest `action_input` value up to the next quote, present exactly when non-empty |
| ViewsProperties.FinalAnswerFound | agent/views.py:57-59 | the final-answer search settles on the nearest `action_input` value of the first candidate |
| ViewsProperties.FinalAnswerFallback | agent/views.py:57-62 | without a candidate, `final_answer` is the stripped text, present exactly when the text is not all whitespace |
| ViewsProperties.DictPayload | agent/views.py:64-71 | a dict payload's `observation`, `thought` and `action` are copied and kept when truthy; `final_answer` is `output` if truthy, else `final_answer`; the decoder plays no part |
| ViewsProperties.EmptyDictPayload | agent/views.py:64-74 | a dict payload with no truthy known field gives `{}` |
| ViewsProperties.DictExample | agent/views.py:64-74 | `{output: "done", observation: {}, thought: "", action: ""}` gives exactly `{final_answer: "done"}` |
| ViewsProperties.OtherPayload | agent/views.py:40-74 | a payload that is neither a string nor a dict gives `{}` |
| ViewsProperties.LastObservationWins | agent/views.py:98-101 | `observation` ends as the observation of the last step whose observation is a dict |
| ViewsProperties.LastActionWins | agent/views.py:98-104 | `action` and `thought` end as `tool` and `log` of the last step whose action is a dict (None if missing) |
| ViewsProperties.ObservationUntouched | agent/views.py:98-101 | steps without a dict observation leave `observation` as it was |
| ViewsProperties.ActionUntouched | agent/views.py:98-104 | steps without a dict action leave `action` and `thought` as they were |
| ViewsProperties.OtherKeysUntouched | agent/views.py:98-104 | every key other than the three overwritten ones is untouched |
| ViewsProperties.BadStepRaises | agent/views.py:99 | a step that does not hold exactly two items makes the walk raise |
| ViewsProperties.StepsExample | agent/views.py:98-104 | of two dict-shaped steps, only the second one's observation, tool and log survive |
| ViewsProperties.QueryStepsExample | agent/views.py:95-105 | the view on a payload holding only those two steps returns the second step's values |
| ViewsProperties.QueryMayInsertNone | agent/views.py:95-104 | a last dict action without `tool` leaves a falsy `action` in the view's result |
| ViewsProperties.QueryWithoutDict | agent/views.py:95-96 | without a dict `response` the view returns what the parser returns |
| ViewsProperties.QueryWithDict | agent/views.py:95-104 | with a dict `response` the overlay runs on the parser's result, error records included; without `intermediate_steps` nothing changes |
| Patterns.SearchLeftmost | agent/views.py:42-57 | `re.search` reports the leftmost index at which the pattern matches, and nothing when it matches nowhere |
| Patterns.LeftmostFirst | agent/views.py:42-57 | the scan over attempts returns the first success and none only when all fail |
| Patterns.SearchFinds | agent/views.py:42-57 | the search reports the match at `p` exactly when the pattern matches at `p` and at no earlier index |
| Patterns.SearchMissing | agent/views.py:42-57 | the search finds nothing exactly when the pattern matches at no index |
| Patterns.LineSearch | agent/views.py:49-55 | a line pattern matches at the first occurrence of its marker, with the group running to the first newline, stop marker or end |
| Patterns.LineSearchMissing | agent/views.py:49-55 | a line pattern finds nothing exactly when its marker does not occur |
| Patterns.LineMatchAt | agent/views.py:49-55 | a line pattern matches at an index exactly when its marker occurs there |
| Patterns.LazyToLookaheadFirst | agent/views.py:49-55 | the lazy body stops at the first newline, stop marker or end of text |
| Patterns.BracedSearch | agent/views.py:42 | the braced pattern matches at the first place where `open` after the prefix is closed on its line, capturing up to the first `close` |
| Patterns.BracedSearchMissing | agent/views.py:42-43 | the braced pattern finds nothing exactly when no prefix and `open` are closed on their line |
| Patterns.BracedMatchAt | agent/views.py:42 | the braced pattern matches at an index exactly when a `close` ends it on its line, and then ends at the first one |
| Patterns.BracedGroupShape | agent/views.py:42 | a braced group starts with `open`, ends with `close`, has no newline and no inner `close` |
| Patterns.LazyToFirst | agent/views.py:42-57 | `.*?` followed by a character stops at its first occurrence on the line, and fails at the end of the line |
| Patterns.QuotedSearch | agent/views.py:57 | the quoted pattern matches at the first head with a same-line `key…close`, capturing the text after the nearest key |
| Patterns.QuotedSearchMissing | agent/views.py:57-58 | the quoted pattern finds nothing exactly when no same-line candidate exists |
| Patterns.QuotedMatchAt | agent/views.py:57 | the quoted pattern matches at an index exactly when a candidate starts there, and settles on the nearest one |
| Patterns.QuotedGroupShape | agent/views.py:57 | a quoted value is followed by the closing character and holds neither it nor a newline |
| Patterns.LazyToKeyFirst | agent/views.py:57 | the lazy filler stops in front of the nearest same-line `key…close`, and fails when there is none |
| Text.StripIs | agent/views.py:51-62 | `strip()` is the slice between the leading and trailing whitespace |
| Text.StripShape | agent/views.py:51-62 | the stripped text neither starts nor ends with whitespace, and is empty exactly when the text is all whitespace |
| Text.StripIdempotent | agent/views.py:51-62 | stripping twice equals stripping once |
| Text.LeadingSpace | agent/views.py:51-62 | the length of the whitespace prefix that `strip()` removes |
| Text.TrailingSpace | agent/views.py:51-62 | the length of the whitespace suffix that `strip()` removes |

## Left out

- agent/agent.py is not part of this model. That covers the language-model agent, its prompt and memory, `process_query` and the tool stubs, which return constants and the current time. The agent's record is a parameter of `Query`.
- agent/urls.py, `Home`, `GoogleLogin` and the construction of the agent in each view are left out: they are routing, authentication and configuration.
- `warehouse_query_view` (agent/views.py:108-141) is left out. This covers its 400 answer for an empty query and its 500 answer for any exception. It calls `parse_agent_response` without the overlay, so `Views.ParseAgentResponse` covers what it returns on success.
- `JsonResponse` and the serialisation of the result are left out. Insertion order of dicts is not kept: results are maps.
- `json.loads` is a parameter. Its grammar, and what it returns for a given fragment, are not modelled. The parameter may return any value for any text; only `ViewsProperties.ObservationIsDict` assumes what `json.loads` guarantees, namely that a braced text decodes to an object or not at all. Only `JSONDecodeError` is caught by the source, so any other exception from it is not modelled.
- Python strings are sequences of Unicode scalar values here. Lone surrogates cannot be represented.
- Floats, and objects of any other class, are the single `Other` case, which carries only its truthiness.
- Views.Unpack: treats an `Other` step as not iterable. Agent-framework objects that define their own iteration are not modelled. Unpacking errors (`ValueError` or `TypeError`) are one `CannotUnpack` exception.
