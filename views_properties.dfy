/**
  What `parse_agent_response` and the `Query` view promise, proved about the
  functions `Views.Parse`, `Views.Walk` and `Views.QueryResult`, which the
  methods of `Views` are proved to compute. Each text-payload property is the
  matching characterisation of `Patterns` applied to one of the four patterns,
  followed through the defaults and the removal of falsy values.
 */
module ViewsProperties {
  import opened Wrappers
  import opened Python
  import opened Text
  import opened Patterns
  import opened Views

  /** A non-error record whose `response` is the value `v`. */
  predicate Answered(a: map<string, Value>, v: Value)
  {
    Get(a, "status") != Str("error") && "response" in a && a["response"] == v
  }

  /** In the cleaned result `r`, the field `key` is present exactly when `v`
      is truthy, and then holds `v`. */
  predicate Cleaned(r: map<string, Value>, key: string, v: Value)
  {
    (key in r <==> Truthy(v)) && (key in r ==> r[key] == v)
  }

  // ---------------------------------------------------------------------------
  // The two ways out before any parsing, and the clean-up
  // ---------------------------------------------------------------------------

  /** An error record yields `{'error': message}` and nothing else, whatever its
      `response` holds; without a `message` it raises `KeyError('message')`. */
  lemma ErrorShortCircuit(a: map<string, Value>, decode: string -> Option<Value>, other: string -> Option<Value>)
    requires Get(a, "status") == Str("error")
    ensures Parse(a, decode).Returned? <==> "message" in a
    ensures Parse(a, decode).Returned? ==> Parse(a, decode).dict == map["error" := a["message"]]
    ensures Parse(a, decode).Raised? ==> Parse(a, decode).error == KeyError("message")
    ensures Parse(a, decode) == Parse(a - {"response"}, other)
  {
    assert Get(a - {"response"}, "status") == Str("error");
  }

  /** Before the clean-up every field holds a value, whatever the payload. */
  lemma FieldsKeys(payload: Value, decode: string -> Option<Value>)
    ensures Fields(payload, decode).Keys == FIELD_NAMES
  {
  }

  /** On the non-error path the record must hold `response` (else `KeyError`),
      and the result holds only the four fields, none of them falsy. */
  lemma CleanResult(a: map<string, Value>, decode: string -> Option<Value>)
    requires Get(a, "status") != Str("error")
    ensures Parse(a, decode).Returned? <==> "response" in a
    ensures Parse(a, decode).Raised? ==> Parse(a, decode).error == KeyError("response")
    ensures Parse(a, decode).Returned? ==>
      var r := Parse(a, decode).dict;
      r.Keys <= FIELD_NAMES && forall k :: k in r ==> Truthy(r[k])
  {
    if "response" in a {
      FieldsKeys(a["response"], decode);
    }
  }

  /** Each field of the result is its value before the clean-up, if truthy. */
  lemma CleanedField(a: map<string, Value>, decode: string -> Option<Value>, v: Value, key: string)
    requires Answered(a, v) && key in FIELD_NAMES
    ensures Parse(a, decode).Returned?
    ensures Cleaned(Parse(a, decode).dict, key, Fields(v, decode)[key])
  {
    FieldsKeys(v, decode);
  }

  // ---------------------------------------------------------------------------
  // A text payload
  // ---------------------------------------------------------------------------

  /** Each field of a text payload's result is what its search gives, if truthy. */
  lemma TextCleaned(a: map<string, Value>, decode: string -> Option<Value>, s: string)
    requires Answered(a, Str(s))
    ensures Parse(a, decode).Returned?
    ensures var r := Parse(a, decode).dict;
      Cleaned(r, "observation", TextObservation(s, decode)) &&
      Cleaned(r, "thought", TextLineField(THOUGHT, s)) &&
      Cleaned(r, "action", TextLineField(ACTION, s)) &&
      Cleaned(r, "final_answer", TextFinalAnswer(s))
  {
    CleanedField(a, decode, Str(s), "observation");
    CleanedField(a, decode, Str(s), "thought");
    CleanedField(a, decode, Str(s), "action");
    CleanedField(a, decode, Str(s), "final_answer");
  }

  /** A line field whose marker first occurs at `p` holds the stripped text up
      to the first boundary `e`. */
  lemma LineFieldFound(pat: Pattern, s: string, p: nat, e: nat)
    requires pat.Line?
    requires FirstAt(s, pat.marker, p) && FirstBoundary(s, pat.stop, p + |pat.marker|, e)
    ensures TextLineField(pat, s) == Str(Strip(s[p + |pat.marker|..e]))
  {
    LineSearch(pat, s, p, e);
    var f := Found(p, Span(p + |pat.marker|, e));
    assert Search(pat, s, 0) == Some(f);
    assert Group(s, f) == s[p + |pat.marker|..e];
  }

  /** A line field whose marker does not occur is empty. */
  lemma LineFieldMissing(pat: Pattern, s: string)
    requires pat.Line?
    requires forall q: nat :: !At(s, q, pat.marker)
    ensures TextLineField(pat, s) == Str("")
  {
    LineSearchMissing(pat, s);
  }

  /** `thought` is the stripped text from the first `Thought:` up to the first
      newline, `Action:` or end of text; it is absent when that is empty. */
  lemma ThoughtFromText(a: map<string, Value>, decode: string -> Option<Value>, s: string, p: nat, e: nat)
    requires Answered(a, Str(s))
    requires FirstAt(s, "Thought:", p) && FirstBoundary(s, "Action:", p + 8, e)
    ensures Parse(a, decode).Returned?
    ensures Cleaned(Parse(a, decode).dict, "thought", Str(Strip(s[p + 8..e])))
  {
    TextCleaned(a, decode, s);
    LineFieldFound(THOUGHT, s, p, e);
  }

  /** Without a `Thought:` in the text there is no `thought`. */
  lemma ThoughtMissing(a: map<string, Value>, decode: string -> Option<Value>, s: string)
    requires Answered(a, Str(s))
    requires forall q: nat :: !At(s, q, "Thought:")
    ensures Parse(a, decode).Returned? && "thought" !in Parse(a, decode).dict
  {
    TextCleaned(a, decode, s);
    LineFieldMissing(THOUGHT, s);
  }

  /** `action` is the stripped text from the first `Action:` up to the first
      newline, `Observation:` or end of text; it is absent when that is empty. */
  lemma ActionFromText(a: map<string, Value>, decode: string -> Option<Value>, s: string, p: nat, e: nat)
    requires Answered(a, Str(s))
    requires FirstAt(s, "Action:", p) && FirstBoundary(s, "Observation:", p + 7, e)
    ensures Parse(a, decode).Returned?
    ensures Cleaned(Parse(a, decode).dict, "action", Str(Strip(s[p + 7..e])))
  {
    TextCleaned(a, decode, s);
    LineFieldFound(ACTION, s, p, e);
  }

  /** Without an `Action:` in the text there is no `action`. */
  lemma ActionMissing(a: map<string, Value>, decode: string -> Option<Value>, s: string)
    requires Answered(a, Str(s))
    requires forall q: nat :: !At(s, q, "Action:")
    ensures Parse(a, decode).Returned? && "action" !in Parse(a, decode).dict
  {
    TextCleaned(a, decode, s);
    LineFieldMissing(ACTION, s);
  }

  /** A stripped line field has nothing left to strip. */
  lemma LineFieldStripped(pat: Pattern, s: string)
    requires pat.Line?
    ensures TextLineField(pat, s).Str? && Strip(TextLineField(pat, s).s) == TextLineField(pat, s).s
  {
    match Search(pat, s, 0)
    case None =>
    case Some(f) => StripIdempotent(Group(s, f));
  }

  /** `observation` is what `json.loads` makes of the fragment from the `{`
      after the first `Observation: ` that is closed on its line up to the first
      `}`: absent when decoding fails or gives a falsy value. */
  lemma ObservationFromText(a: map<string, Value>, decode: string -> Option<Value>, s: string, p: nat, c: nat)
    requires Answered(a, Str(s))
    requires BracedAt(OBSERVATION, s, p, c)
    requires forall q: nat, c': nat :: q < p ==> !BracedAt(OBSERVATION, s, q, c')
    ensures Parse(a, decode).Returned?
    ensures var fragment := s[p + 13..c + 1];
      var r := Parse(a, decode).dict;
      ("observation" in r <==> decode(fragment).Some? && Truthy(decode(fragment).value)) &&
      ("observation" in r ==> r["observation"] == decode(fragment).value)
  {
    TextCleaned(a, decode, s);
    ObservationFound(s, decode, p, c);
  }

  /** The observation search settles on that fragment. */
  lemma ObservationFound(s: string, decode: string -> Option<Value>, p: nat, c: nat)
    requires BracedAt(OBSERVATION, s, p, c)
    requires forall q: nat, c': nat :: q < p ==> !BracedAt(OBSERVATION, s, q, c')
    ensures var fragment := s[p + |OBSERVATION.prefix|..c + 1];
      TextObservation(s, decode) == if decode(fragment).Some? then decode(fragment).value else Dict(map[])
  {
    BracedSearch(OBSERVATION, s, p, c);
  }

  /** Without a closed `Observation: {…}` on some line there is no `observation`. */
  lemma ObservationMissing(a: map<string, Value>, decode: string -> Option<Value>, s: string)
    requires Answered(a, Str(s))
    requires forall q: nat, c: nat :: !BracedAt(OBSERVATION, s, q, c)
    ensures Parse(a, decode).Returned? && "observation" !in Parse(a, decode).dict
  {
    TextCleaned(a, decode, s);
    BracedSearchMissing(OBSERVATION, s);
  }

  /** The text handed to `json.loads` starts with `{`, ends with the first `}`
      after it and holds no newline. */
  lemma ObservationFragment(s: string)
    requires Search(OBSERVATION, s, 0).Some?
    ensures var g := Group(s, Search(OBSERVATION, s, 0).value);
      |g| >= 2 && g[0] == '{' && g[|g| - 1] == '}' &&
      (forall i :: 0 <= i < |g| ==> g[i] != '\n') &&
      (forall i :: 1 <= i < |g| - 1 ==> g[i] != '}')
  {
    BracedGroupShape(OBSERVATION, s);
  }

  /** What `json.loads` does with a text that starts with `{` and ends with `}`:
      it either raises or gives an object. */
  ghost predicate DecodesBracesToDicts(decode: string -> Option<Value>)
  {
    forall t: string :: |t| >= 2 && t[0] == '{' && t[|t| - 1] == '}' && decode(t).Some? ==> decode(t).value.Dict?
  }

  /** With such a decoder, the `observation` of a text payload's result is a dict. */
  lemma ObservationIsDict(a: map<string, Value>, decode: string -> Option<Value>, s: string)
    requires Answered(a, Str(s))
    requires DecodesBracesToDicts(decode)
    ensures Parse(a, decode).Returned?
    ensures var r := Parse(a, decode).dict; "observation" in r ==> r["observation"].Dict?
  {
    TextCleaned(a, decode, s);
    if Search(OBSERVATION, s, 0).Some? {
      ObservationFragment(s);
    }
  }

  /** A nested object written after `Observation: ` is cut at its first inner
      `}`: `json.loads` is handed a proper prefix of it. */
  lemma NestedObjectCut(s: string, obj: string, i: nat)
    requires Search(OBSERVATION, s, 0).Some?
    requires At(s, Search(OBSERVATION, s, 0).value.group.lo, obj)
    requires 1 <= i < |obj| - 1 && obj[i] == '}'
    ensures var g := Group(s, Search(OBSERVATION, s, 0).value);
      |g| <= i + 1 < |obj| && g == obj[..|g|]
  {
    var f := Search(OBSERVATION, s, 0).value;
    var lo := f.group.lo;
    var g := Group(s, f);
    ObservationFragment(s);
    assert g == s[lo..f.group.hi];
    assert s[lo..lo + |obj|] == obj;
    forall j | 0 <= j < |g| && j < |obj| ensures g[j] == obj[j] {
      assert g[j] == s[lo + j] == s[lo..lo + |obj|][j];
    }
    CutAtFirstClose(g, obj, i);
  }

  /** Two texts that agree where both are defined: when the first holds no inner
      `}` and the second has one at `i`, the first ends by `i`. */
  lemma CutAtFirstClose(g: string, t: string, i: nat)
    requires forall j :: 1 <= j < |g| - 1 ==> g[j] != '}'
    requires 1 <= i < |t| && t[i] == '}'
    requires forall j :: 0 <= j < |g| && j < |t| ==> g[j] == t[j]
    ensures |g| <= i + 1
  {
  }

  /** With a same-line `"action": "Final Answer" … "action_input": "<x>"`,
      `final_answer` is the shortest `<x>` after the nearest `"action_input": "`,
      up to the next `"`; it is absent when `<x>` is empty. */
  lemma FinalAnswerFromText(a: map<string, Value>, decode: string -> Option<Value>, s: string, p: nat, x: nat, h: nat)
    requires Answered(a, Str(s))
    requires QuotedAt(FINAL_ANSWER, s, p, x, h)
    requires forall q: nat, x': nat, h': nat :: q < p ==> !QuotedCandidate(FINAL_ANSWER, s, q, x', h')
    ensures Parse(a, decode).Returned?
    ensures Cleaned(Parse(a, decode).dict, "final_answer", Str(s[x + 17..h]))
  {
    TextCleaned(a, decode, s);
    FinalAnswerFound(s, p, x, h);
  }

  /** The final-answer search settles on that value. */
  lemma FinalAnswerFound(s: string, p: nat, x: nat, h: nat)
    requires QuotedAt(FINAL_ANSWER, s, p, x, h)
    requires forall q: nat, x': nat, h': nat :: q < p ==> !QuotedCandidate(FINAL_ANSWER, s, q, x', h')
    ensures TextFinalAnswer(s) == Str(s[x + |FINAL_ANSWER.key|..h])
  {
    QuotedSearch(FINAL_ANSWER, s, p, x, h);
  }

  /** Without such a candidate, `final_answer` is the whole stripped text, and
      is present exactly when that is not empty. */
  lemma FinalAnswerFallback(a: map<string, Value>, decode: string -> Option<Value>, s: string)
    requires Answered(a, Str(s))
    requires forall q: nat, x: nat, h: nat :: !QuotedCandidate(FINAL_ANSWER, s, q, x, h)
    ensures Parse(a, decode).Returned?
    ensures Cleaned(Parse(a, decode).dict, "final_answer", Str(Strip(s)))
    ensures "final_answer" in Parse(a, decode).dict <==> !AllSpace(s, 0, |s|)
  {
    TextCleaned(a, decode, s);
    QuotedSearchMissing(FINAL_ANSWER, s);
    StripShape(s);
  }

  /** `json.loads` is only consulted on the observation fragment. */
  lemma DecodeOnlyObservation(a: map<string, Value>, s: string, d1: string -> Option<Value>, d2: string -> Option<Value>)
    requires Answered(a, Str(s))
    requires Search(OBSERVATION, s, 0).Some? ==>
      var g := Group(s, Search(OBSERVATION, s, 0).value); d1(g) == d2(g)
    ensures Parse(a, d1) == Parse(a, d2)
  {
    assert TextObservation(s, d1) == TextObservation(s, d2);
  }

  // ---------------------------------------------------------------------------
  // A dict payload, and any other payload
  // ---------------------------------------------------------------------------

  /** A dict payload's `observation`, `thought` and `action` are copied and kept
      when truthy; `final_answer` is `output` when that is truthy and the payload's
      `final_answer` otherwise. `json.loads` plays no part. */
  lemma DictPayload(a: map<string, Value>, decode: string -> Option<Value>, other: string -> Option<Value>,
                    d: map<string, Value>)
    requires Answered(a, Dict(d))
    ensures Parse(a, decode).Returned?
    ensures var r := Parse(a, decode).dict;
      Cleaned(r, "observation", Get(d, "observation")) &&
      Cleaned(r, "thought", Get(d, "thought")) &&
      Cleaned(r, "action", Get(d, "action"))
    ensures var r := Parse(a, decode).dict;
      ("final_answer" in r <==> Truthy(Get(d, "output")) || Truthy(Get(d, "final_answer"))) &&
      ("final_answer" in r ==>
        r["final_answer"] == if Truthy(Get(d, "output")) then d["output"] else d["final_answer"])
    ensures Parse(a, decode) == Parse(a, other)
  {
    CleanedField(a, decode, Dict(d), "observation");
    CleanedField(a, decode, Dict(d), "thought");
    CleanedField(a, decode, Dict(d), "action");
    CleanedField(a, decode, Dict(d), "final_answer");
  }

  /** `{"output": "done", "observation": {}, "thought": "", "action": ""}` is
      parsed to `{"final_answer": "done"}`. */
  lemma DictExample(decode: string -> Option<Value>)
    ensures var d := map["output" := Str("done"), "observation" := Dict(map[]), "thought" := Str(""), "action" := Str("")];
      Parse(map["status" := Str("success"), "response" := Dict(d)], decode) == Returned(map["final_answer" := Str("done")])
  {
    var d := map["output" := Str("done"), "observation" := Dict(map[]), "thought" := Str(""), "action" := Str("")];
    var a := map["status" := Str("success"), "response" := Dict(d)];
    DictPayload(a, decode, decode, d);
    CleanResult(a, decode);
    var r := Parse(a, decode).dict;
    assert r.Keys == {"final_answer"};
  }

  /** A payload that is neither a string nor a dict gives the empty result. */
  lemma OtherPayload(a: map<string, Value>, decode: string -> Option<Value>, v: Value)
    requires Answered(a, v) && !v.Str? && !v.Dict?
    ensures Parse(a, decode) == Returned(map[])
  {
    FieldsKeys(v, decode);
    CleanResult(a, decode);
    var r := Parse(a, decode).dict;
    forall k | k in FIELD_NAMES ensures k !in r {
      CleanedField(a, decode, v, k);
    }
  }

  // ---------------------------------------------------------------------------
  // The overlay of intermediate steps
  // ---------------------------------------------------------------------------

  /** `observation` ends up as the observation of the last step that has a
      dict there. */
  lemma LastObservationWins(res: map<string, Value>, xs: seq<Value>, j: nat)
    requires forall i :: 0 <= i < |xs| ==> Unpacks(xs[i])
    requires j < |xs| && ObservesDict(xs[j])
    requires forall i :: j < i < |xs| ==> !ObservesDict(xs[i])
    ensures Walk(res, xs).Returned?
    ensures var r := Walk(res, xs).dict; "observation" in r && r["observation"] == xs[j].items[1]
  {
    var w := LastWhere(xs, ObservesDict);
    assert w == Some(j);
  }

  /** `action` and `thought` end up as `tool` and `log` of the last step whose
      action is a dict; a missing key gives None. */
  lemma LastActionWins(res: map<string, Value>, xs: seq<Value>, j: nat)
    requires forall i :: 0 <= i < |xs| ==> Unpacks(xs[i])
    requires j < |xs| && ActsOnDict(xs[j])
    requires forall i :: j < i < |xs| ==> !ActsOnDict(xs[i])
    ensures Walk(res, xs).Returned?
    ensures var r := Walk(res, xs).dict; var act := xs[j].items[0].entries;
      "action" in r && r["action"] == Get(act, "tool") &&
      "thought" in r && r["thought"] == Get(act, "log")
  {
    var w := LastWhere(xs, ActsOnDict);
    assert w == Some(j);
  }

  /** Steps without a dict observation leave `observation` as it was. */
  lemma ObservationUntouched(res: map<string, Value>, xs: seq<Value>)
    requires forall i :: 0 <= i < |xs| ==> Unpacks(xs[i]) && !ObservesDict(xs[i])
    ensures Walk(res, xs).Returned?
    ensures var r := Walk(res, xs).dict;
      ("observation" in r <==> "observation" in res) &&
      ("observation" in res ==> r["observation"] == res["observation"])
  {
  }

  /** Steps without a dict action leave `action` and `thought` as they were. */
  lemma ActionUntouched(res: map<string, Value>, xs: seq<Value>)
    requires forall i :: 0 <= i < |xs| ==> Unpacks(xs[i]) && !ActsOnDict(xs[i])
    ensures Walk(res, xs).Returned?
    ensures var r := Walk(res, xs).dict;
      ("action" in r <==> "action" in res) && ("action" in res ==> r["action"] == res["action"]) &&
      ("thought" in r <==> "thought" in res) && ("thought" in res ==> r["thought"] == res["thought"])
  {
  }

  /** Every other key, `final_answer` and `error` among them, is untouched. */
  lemma OtherKeysUntouched(res: map<string, Value>, xs: seq<Value>, k: string)
    requires forall i :: 0 <= i < |xs| ==> Unpacks(xs[i])
    requires k != "observation" && k != "action" && k != "thought"
    ensures Walk(res, xs).Returned?
    ensures var r := Walk(res, xs).dict; (k in r <==> k in res) && (k in res ==> r[k] == res[k])
  {
  }

  /** A step that does not hold exactly two items raises, whatever came before. */
  lemma BadStepRaises(res: map<string, Value>, xs: seq<Value>, j: nat)
    requires j < |xs| && !Unpacks(xs[j])
    ensures Walk(res, xs) == Raised(CannotUnpack)
  {
  }

  /** Since the overlay runs after the clean-up, a dict action without `tool`
      puts a None `action` into the view's result. */
  lemma QueryMayInsertNone(a: map<string, Value>, decode: string -> Option<Value>, d: map<string, Value>,
                           xs: seq<Value>, j: nat)
    requires Answered(a, Dict(d)) && "intermediate_steps" in d && d["intermediate_steps"] == List(xs)
    requires forall i :: 0 <= i < |xs| ==> Unpacks(xs[i])
    requires j < |xs| && ActsOnDict(xs[j]) && "tool" !in xs[j].items[0].entries
    requires forall i :: j < i < |xs| ==> !ActsOnDict(xs[i])
    ensures QueryResult(a, decode).Returned?
    ensures var r := QueryResult(a, decode).dict; "action" in r && r["action"] == NoneV && !Truthy(r["action"])
  {
    LastActionWins(Parse(a, decode).dict, xs, j);
  }

  /** A step of an inventory check. */
  const INVENTORY_STEP: Value :=
    List([Dict(map["tool" := Str("InventoryCheck"), "log" := Str("checking")]), Dict(map["total_items" := Int(5)])])

  /** A later step of an environment check. */
  const MONITOR_STEP: Value :=
    List([Dict(map["tool" := Str("EnvMonitor"), "log" := Str("monitoring")]), Dict(map["temp" := Int(22)])])

  /** Of two steps with dict actions and observations, only the second one's
      values survive the overlay. */
  lemma StepsExample(res: map<string, Value>)
    requires res.Keys <= {"observation", "action", "thought"}
    ensures Walk(res, [INVENTORY_STEP, MONITOR_STEP]) ==
      Returned(map["observation" := Dict(map["temp" := Int(22)]), "action" := Str("EnvMonitor"),
                   "thought" := Str("monitoring")])
  {
    var xs := [INVENTORY_STEP, MONITOR_STEP];
    assert LastWhere(xs, ObservesDict) == Some(1);
    assert LastWhere(xs, ActsOnDict) == Some(1);
  }

  /** The view on a record whose dict payload holds nothing but those two steps
      returns the second step's values. */
  lemma QueryStepsExample(a: map<string, Value>, decode: string -> Option<Value>)
    requires Answered(a, Dict(map["intermediate_steps" := List([INVENTORY_STEP, MONITOR_STEP])]))
    ensures QueryResult(a, decode) ==
      Returned(map["observation" := Dict(map["temp" := Int(22)]), "action" := Str("EnvMonitor"),
                   "thought" := Str("monitoring")])
  {
    var d := map["intermediate_steps" := List([INVENTORY_STEP, MONITOR_STEP])];
    EmptyDictPayload(a, decode, d);
    QueryWithDict(a, decode, d);
    StepsExample(map[]);
  }

  /** A dict payload none of whose known fields is truthy parses to `{}`. */
  lemma EmptyDictPayload(a: map<string, Value>, decode: string -> Option<Value>, d: map<string, Value>)
    requires Answered(a, Dict(d))
    requires !Truthy(Get(d, "observation")) && !Truthy(Get(d, "thought")) && !Truthy(Get(d, "action"))
    requires !Truthy(Get(d, "output")) && !Truthy(Get(d, "final_answer"))
    ensures Parse(a, decode) == Returned(map[])
  {
    DictPayload(a, decode, decode, d);
    CleanResult(a, decode);
    assert Parse(a, decode).dict.Keys == {};
  }

  /** Without a dict `response` the view returns what the parser returns. */
  lemma QueryWithoutDict(a: map<string, Value>, decode: string -> Option<Value>)
    requires !("response" in a && a["response"].Dict?)
    ensures QueryResult(a, decode) == Parse(a, decode)
  {
  }

  /** With a dict `response` the overlay runs even on an error record, and walks
      `intermediate_steps` (an empty list when missing, which changes nothing). */
  lemma QueryWithDict(a: map<string, Value>, decode: string -> Option<Value>, d: map<string, Value>)
    requires "response" in a && a["response"] == Dict(d)
    ensures Parse(a, decode).Raised? ==> QueryResult(a, decode) == Parse(a, decode)
    ensures Parse(a, decode).Returned? ==>
      QueryResult(a, decode) == Overlay(Parse(a, decode).dict, GetOr(d, "intermediate_steps", List([])))
    ensures "intermediate_steps" !in d ==> QueryResult(a, decode) == Parse(a, decode)
  {
    if "intermediate_steps" !in d && Parse(a, decode).Returned? {
      assert LastWins(Parse(a, decode).dict, []) == Parse(a, decode).dict;
    }
  }
}
