/**
  The response normaliser of the agent views: `parse_agent_response`, which turns
  the agent's `{status, response}` or `{status, message}` record into at most four
  fields (observation, thought, action, final_answer), and the `Query` view, which
  afterwards overwrites fields from the agent's intermediate steps.

  Each piece of imperative code is a method proved against a function that says
  what it computes; the properties of those functions are in `ViewsProperties`.
 */
module Views {
  import opened Wrappers
  import opened Python
  import opened Text
  import opened Patterns

  /** The four keys `parse_agent_response` can return on the non-error path. */
  const FIELD_NAMES: set<string> := {"observation", "thought", "action", "final_answer"}

  /** `structured_response` as first initialised: every field empty. */
  const DEFAULTS: map<string, Value> :=
    map["observation" := Dict(map[]), "thought" := Str(""), "action" := Str(""), "final_answer" := NoneV]

  // ---------------------------------------------------------------------------
  // parse_agent_response
  // ---------------------------------------------------------------------------

  /** `observation` after a text payload: the decoded `{…}` fragment, or the empty
      dict when the pattern finds nothing or decoding fails. `decode` stands for
      `json.loads`; None is its `JSONDecodeError`. */
  function TextObservation(s: string, decode: string -> Option<Value>): Value
  {
    match Search(OBSERVATION, s, 0)
    case None => Dict(map[])
    case Some(f) =>
      match decode(Group(s, f))
      case Some(v) => v
      case None => Dict(map[])
  }

  /** `thought` or `action` after a text payload: the stripped group, or "". */
  function TextLineField(pat: Pattern, s: string): Value
    requires pat.Line?
  {
    match Search(pat, s, 0)
    case None => Str("")
    case Some(f) => Str(Strip(Group(s, f)))
  }

  /** `final_answer` after a text payload: the group, or else the whole stripped text. */
  function TextFinalAnswer(s: string): Value
  {
    match Search(FINAL_ANSWER, s, 0)
    case None => Str(Strip(s))
    case Some(f) => Str(Group(s, f))
  }

  /** `structured_response` once a text payload has been searched. */
  function TextFields(s: string, decode: string -> Option<Value>): map<string, Value>
  {
    DEFAULTS
      ["observation" := TextObservation(s, decode)]
      ["thought" := TextLineField(THOUGHT, s)]
      ["action" := TextLineField(ACTION, s)]
      ["final_answer" := TextFinalAnswer(s)]
  }

  /** `structured_response` once a dict payload has been copied in. */
  function DictFields(d: map<string, Value>): map<string, Value>
  {
    map[
      "observation" := GetOr(d, "observation", Dict(map[])),
      "thought" := GetOr(d, "thought", Str("")),
      "action" := GetOr(d, "action", Str("")),
      "final_answer" := Or(Get(d, "output"), Get(d, "final_answer"))]
  }

  /** `structured_response` before the clean-up, for any payload. A payload that
      is neither a string nor a dict leaves the defaults. */
  function Fields(payload: Value, decode: string -> Option<Value>): map<string, Value>
  {
    match payload
    case Str(s) => TextFields(s, decode)
    case Dict(d) => DictFields(d)
    case _ => DEFAULTS
  }

  /** `{k: v for k, v in m.items() if v}`. */
  function DropFalsy(m: map<string, Value>): map<string, Value>
  {
    map k | k in m && Truthy(m[k]) :: m[k]
  }

  /** What `parse_agent_response(agent_response)` returns or raises. */
  function Parse(agentResponse: map<string, Value>, decode: string -> Option<Value>): Outcome
  {
    if Get(agentResponse, "status") == Str("error") then
      if "message" in agentResponse then Returned(map["error" := agentResponse["message"]])
      else Raised(KeyError("message"))
    else if "response" in agentResponse then
      Returned(DropFalsy(Fields(agentResponse["response"], decode)))
    else
      Raised(KeyError("response"))
  }

  /** The observation search of a text payload: the field keeps its default
      unless the pattern finds a fragment that decodes. */
  method SearchObservation(text: string, decode: string -> Option<Value>, structured: map<string, Value>)
    returns (updated: map<string, Value>)
    requires "observation" in structured && structured["observation"] == Dict(map[])
    ensures updated == structured["observation" := TextObservation(text, decode)]
  {
    updated := structured;
    var observationMatch := Search(OBSERVATION, text, 0);
    if observationMatch.Some? {
      var decoded := decode(Group(text, observationMatch.value));
      if decoded.Some? {
        updated := updated["observation" := decoded.value];
      }
    }
  }

  /** The thought or action search of a text payload: the field keeps its
      default "" unless the pattern finds its marker. */
  method SearchLineField(pat: Pattern, key: string, text: string, structured: map<string, Value>)
    returns (updated: map<string, Value>)
    requires pat.Line?
    requires key in structured && structured[key] == Str("")
    ensures updated == structured[key := TextLineField(pat, text)]
  {
    updated := structured;
    var lineMatch := Search(pat, text, 0);
    if lineMatch.Some? {
      updated := updated[key := Str(Strip(Group(text, lineMatch.value)))];
    }
  }

  /** The final-answer search of a text payload, with the whole stripped text
      as the fallback. */
  method SearchFinalAnswer(text: string, structured: map<string, Value>) returns (updated: map<string, Value>)
    ensures updated == structured["final_answer" := TextFinalAnswer(text)]
  {
    var finalAnswerMatch := Search(FINAL_ANSWER, text, 0);
    if finalAnswerMatch.Some? {
      updated := structured["final_answer" := Str(Group(text, finalAnswerMatch.value))];
    } else {
      updated := structured["final_answer" := Str(Strip(text))];
    }
  }

  /** The text branch of `parse_agent_response`: the four searches in order,
      each overwriting its default only when it finds something. */
  method ParseText(text: string, decode: string -> Option<Value>) returns (structured: map<string, Value>)
    ensures structured == TextFields(text, decode)
  {
    structured := DEFAULTS;
    structured := SearchObservation(text, decode, structured);
    structured := SearchLineField(THOUGHT, "thought", text, structured);
    structured := SearchLineField(ACTION, "action", text, structured);
    structured := SearchFinalAnswer(text, structured);
  }

  /** The dict branch of `parse_agent_response`: `structured_response.update(…)`
      with the four known fields of the payload, which replaces every default. */
  method UpdateFromDict(d: map<string, Value>, structured: map<string, Value>) returns (updated: map<string, Value>)
    requires structured.Keys == FIELD_NAMES
    ensures updated == DictFields(d)
  {
    updated := structured + map[
      "observation" := GetOr(d, "observation", Dict(map[])),
      "thought" := GetOr(d, "thought", Str("")),
      "action" := GetOr(d, "action", Str("")),
      "final_answer" := Or(Get(d, "output"), Get(d, "final_answer"))];
  }

  /** `parse_agent_response`: the error record, the missing key, and the text,
      dict and other payloads, followed by the removal of empty fields. */
  method ParseAgentResponse(agentResponse: map<string, Value>, decode: string -> Option<Value>)
    returns (r: Outcome)
    ensures r == Parse(agentResponse, decode)
  {
    if Get(agentResponse, "status") == Str("error") {
      if "message" !in agentResponse {
        return Raised(KeyError("message"));
      }
      return Returned(map["error" := agentResponse["message"]]);
    }
    var structured := DEFAULTS;
    if "response" !in agentResponse {
      return Raised(KeyError("response"));
    }
    var responseData := agentResponse["response"];
    match responseData {
      case Str(text) =>
        structured := ParseText(text, decode);
      case Dict(d) =>
        structured := UpdateFromDict(d, structured);
      case _ =>
    }
    r := Returned(DropFalsy(structured));
  }

  // ---------------------------------------------------------------------------
  // The intermediate-steps overlay of the Query view
  // ---------------------------------------------------------------------------

  /** The dict-valued targets of `action, observation = step`; a target that is
      not a dict is None, since the loop body ignores it. */
  datatype Bound = Bound(action: Option<map<string, Value>>, observation: Option<map<string, Value>>)

  function DictOf(v: Value): Option<map<string, Value>>
  {
    if v.Dict? then Some(v.entries) else None
  }

  /** `action, observation = step`, or None when that raises. A list or tuple of
      two binds its items; a two-character string or a two-key dict unpacks into
      two strings; anything else holds the wrong number of items or is not iterable. */
  function Unpack(step: Value): Option<Bound>
  {
    match step
    case List(items) => if |items| == 2 then Some(Bound(DictOf(items[0]), DictOf(items[1]))) else None
    case Str(t) => if |t| == 2 then Some(Bound(None, None)) else None
    case Dict(m) => if |m| == 2 then Some(Bound(None, None)) else None
    case _ => None
  }

  predicate Unpacks(step: Value)
  {
    Unpack(step).Some?
  }

  /** The step's observation is a dict. */
  predicate ObservesDict(step: Value)
  {
    Unpack(step).Some? && Unpack(step).value.observation.Some?
  }

  /** The step's action is a dict. */
  predicate ActsOnDict(step: Value)
  {
    Unpack(step).Some? && Unpack(step).value.action.Some?
  }

  /** The last index of `xs` whose element satisfies `p`. */
  function LastWhere(xs: seq<Value>, p: Value -> bool): (r: Option<nat>)
    ensures r.Some? ==> r.value < |xs| && p(xs[r.value]) && forall j :: r.value < j < |xs| ==> !p(xs[j])
    ensures r.None? ==> forall j :: 0 <= j < |xs| ==> !p(xs[j])
  {
    if xs == [] then None
    else if p(xs[|xs| - 1]) then Some(|xs| - 1)
    else LastWhere(xs[..|xs| - 1], p)
  }

  /** The observation of the last step whose observation is a dict, if any. */
  function LastObservation(xs: seq<Value>): Option<map<string, Value>>
  {
    match LastWhere(xs, ObservesDict)
    case Some(j) => Unpack(xs[j]).value.observation
    case None => None
  }

  /** The action of the last step whose action is a dict, if any. */
  function LastAction(xs: seq<Value>): Option<map<string, Value>>
  {
    match LastWhere(xs, ActsOnDict)
    case Some(j) => Unpack(xs[j]).value.action
    case None => None
  }

  /** The assignments of one loop iteration: a dict observation replaces
      `observation`; a dict action sets `action` to its `tool` and `thought` to
      its `log` (None when the key is missing). */
  function Overwrite(res: map<string, Value>, observation: Option<map<string, Value>>,
                     action: Option<map<string, Value>>): map<string, Value>
  {
    var withObservation := if observation.Some? then res["observation" := Dict(observation.value)] else res;
    if action.Some? then
      withObservation["action" := Get(action.value, "tool")]["thought" := Get(action.value, "log")]
    else withObservation
  }

  /** The overlay stated as "last step wins": `observation` comes from the last
      dict-shaped observation, `action` and `thought` from the last dict-shaped
      action; without such a step the field is left as it was. */
  function LastWins(res: map<string, Value>, xs: seq<Value>): map<string, Value>
  {
    Overwrite(res, LastObservation(xs), LastAction(xs))
  }

  /** Walking a list of steps: it raises at the first step that does not unpack. */
  function Walk(res: map<string, Value>, xs: seq<Value>): Outcome
  {
    if forall j :: 0 <= j < |xs| ==> Unpacks(xs[j]) then Returned(LastWins(res, xs))
    else Raised(CannotUnpack)
  }

  /** `for step in steps: …` applied to `res`, for any value of `steps`. Iterating
      a string yields one-character strings, which do not unpack into two;
      iterating a dict yields its keys, which unpack (into two strings) only when
      they have two characters. */
  function Overlay(res: map<string, Value>, steps: Value): Outcome
  {
    match steps
    case List(xs) => Walk(res, xs)
    case Str(t) => if t == "" then Returned(res) else Raised(CannotUnpack)
    case Dict(m) => if forall k :: k in m ==> |k| == 2 then Returned(res) else Raised(CannotUnpack)
    case _ => Raised(NotIterable)
  }

  function Latest(newer: Option<map<string, Value>>, older: Option<map<string, Value>>): Option<map<string, Value>>
  {
    if newer.Some? then newer else older
  }

  /** Two rounds of assignments amount to one with the later values. */
  lemma OverwriteTwice(res: map<string, Value>, o1: Option<map<string, Value>>, a1: Option<map<string, Value>>,
                       o2: Option<map<string, Value>>, a2: Option<map<string, Value>>)
    ensures Overwrite(Overwrite(res, o1, a1), o2, a2) == Overwrite(res, Latest(o2, o1), Latest(a2, a1))
  {
    var lhs := Overwrite(Overwrite(res, o1, a1), o2, a2);
    var rhs := Overwrite(res, Latest(o2, o1), Latest(a2, a1));
    assert lhs.Keys == rhs.Keys;
    forall k | k in lhs ensures lhs[k] == rhs[k] {
    }
  }

  /** Extending the steps by one applies one loop iteration to the last-wins result. */
  lemma {:induction false} LastWinsExtend(res: map<string, Value>, xs: seq<Value>, i: nat)
    requires i < |xs| && Unpacks(xs[i])
    ensures var b := Unpack(xs[i]).value;
      LastWins(res, xs[..i + 1]) == Overwrite(LastWins(res, xs[..i]), b.observation, b.action)
  {
    var pre, ext := xs[..i], xs[..i + 1];
    assert ext[..|ext| - 1] == pre;
    assert ext[|ext| - 1] == xs[i];
    var b := Unpack(xs[i]).value;
    assert LastObservation(ext) == Latest(b.observation, LastObservation(pre));
    assert LastAction(ext) == Latest(b.action, LastAction(pre));
    OverwriteTwice(res, LastObservation(pre), LastAction(pre), b.observation, b.action);
  }

  /** The loop `for step in intermediate_steps` over a list, overwriting fields of
      `res` in place. */
  method WalkSteps(res: map<string, Value>, xs: seq<Value>) returns (r: Outcome)
    ensures r == Walk(res, xs)
  {
    var structured := res;
    var i := 0;
    while i < |xs|
      invariant 0 <= i <= |xs|
      invariant forall j :: 0 <= j < i ==> Unpacks(xs[j])
      invariant structured == LastWins(res, xs[..i])
    {
      var bound := Unpack(xs[i]);
      if bound.None? {
        return Raised(CannotUnpack);
      }
      LastWinsExtend(res, xs, i);
      var b := bound.value;
      if b.observation.Some? {
        structured := structured["observation" := Dict(b.observation.value)];
      }
      if b.action.Some? {
        structured := structured["action" := Get(b.action.value, "tool")];
        structured := structured["thought" := Get(b.action.value, "log")];
      }
      i := i + 1;
    }
    assert xs[..i] == xs;
    return Returned(structured);
  }

  /** The overlay loop for whatever value `intermediate_steps` holds. */
  method ApplyIntermediateSteps(res: map<string, Value>, steps: Value) returns (r: Outcome)
    ensures r == Overlay(res, steps)
  {
    match steps {
      case List(xs) =>
        r := WalkSteps(res, xs);
      case Str(t) =>
        r := if t == "" then Returned(res) else Raised(CannotUnpack);
      case Dict(m) =>
        r := if forall k :: k in m ==> |k| == 2 then Returned(res) else Raised(CannotUnpack);
      case _ =>
        r := Raised(NotIterable);
    }
  }

  /** What the `Query` view hands to `JsonResponse`, or raises, given the agent's record. */
  function QueryResult(agentResponse: map<string, Value>, decode: string -> Option<Value>): Outcome
  {
    match Parse(agentResponse, decode)
    case Raised(e) => Raised(e)
    case Returned(res) =>
      match Get(agentResponse, "response")
      case Dict(d) => Overlay(res, GetOr(d, "intermediate_steps", List([])))
      case _ => Returned(res)
  }

  /** The `Query` view after the agent call: parse, then overlay the intermediate steps. */
  method Query(agentResponse: map<string, Value>, decode: string -> Option<Value>) returns (r: Outcome)
    ensures r == QueryResult(agentResponse, decode)
  {
    r := ParseAgentResponse(agentResponse, decode);
    if r.Raised? {
      return;
    }
    var response := Get(agentResponse, "response");
    if response.Dict? {
      var steps := GetOr(response.entries, "intermediate_steps", List([]));
      r := ApplyIntermediateSteps(r.dict, steps);
    }
  }
}
