/**
 * Stripping recorded chat messages down to what the endpoint accepts
 * (`_sanitize_messages_for_openai` in `scripts/debug_vllm_toolcalls.py`).
 */
module MessageSanitizer {
  import opened Prelude

  /** A JSON value. */
  datatype Value =
    | Null
    | Bool(b: bool)
    | Num(n: int)
    | Str(s: string)
    | List(items: seq<Value>)
    | Dict(fields: Fields)

  type Fields = map<string, Value>

  /** Python's truth value. */
  predicate Truthy(v: Value) {
    match v
    case Null => false
    case Bool(b) => b
    case Num(n) => n != 0
    case Str(s) => s != ""
    case List(items) => items != []
    case Dict(fields) => fields != map[]
  }

  function Get(m: Fields, k: string): Value {
    if k in m then m[k] else Null
  }

  function SetDefault(m: Fields, k: string, v: Value): Fields {
    if k in m then m else m[k := v]
  }

  /** The listed keys of `m`, without the null ones. */
  function Keep(m: Fields, keys: set<string>): Fields {
    map k | k in m && k in keys && m[k] != Null :: m[k]
  }

  const TOOL_CALL_FIELDS: set<string> := {"id", "type", "function", "index"}
  const FUNCTION_FIELDS: set<string> := {"name", "arguments"}

  function AllowedFields(role: Value): set<string> {
    match role
    case Str("assistant") => {"role", "content", "name", "tool_calls", "refusal", "audio"}
    case Str("tool") => {"role", "content", "tool_call_id"}
    case _ => {"role", "content", "name"}
  }

  /** A role the lookup table cannot hash. */
  predicate Unhashable(role: Value) {
    Truthy(role) && (role.List? || role.Dict?)
  }

  // ---------------------------------------------------------- tool calls

  function SanitizeFunction(fn: Fields): Fields {
    SetDefault(Keep(fn, FUNCTION_FIELDS), "arguments", Str(""))
  }

  function SanitizeToolCall(tc: Value): Option<Fields> {
    if !tc.Dict? then None
    else
      var kept := SetDefault(Keep(tc.fields, TOOL_CALL_FIELDS), "type", Str("function"));
      var fn := Get(kept, "function");
      Some(if fn.Dict? then kept["function" := Dict(SanitizeFunction(fn.fields))] else kept)
  }

  function SanitizeToolCalls(items: seq<Value>): seq<Value> {
    if items == [] then []
    else
      (match SanitizeToolCall(items[0])
       case None => []
       case Some(fields) => [Dict(fields)])
      + SanitizeToolCalls(items[1..])
  }

  lemma FunctionSettles(fn: Fields)
    ensures SanitizeFunction(SanitizeFunction(fn)) == SanitizeFunction(fn)
  {}

  lemma ToolCallSettles(tc: Value)
    requires tc.Dict?
    ensures SanitizeToolCall(Dict(SanitizeToolCall(tc).value)) == SanitizeToolCall(tc)
  {
    var once := SanitizeToolCall(tc).value;
    var fn := Get(Keep(tc.fields, TOOL_CALL_FIELDS), "function");
    if fn.Dict? {
      FunctionSettles(fn.fields);
    }
    assert Keep(once, TOOL_CALL_FIELDS) == once;
    assert "type" in once && Get(once, "function") ==
      (if fn.Dict? then Dict(SanitizeFunction(fn.fields)) else fn);
    if fn.Dict? {
      assert once["function" := once["function"]] == once;
    }
  }

  lemma {:induction false} ToolCallsSettle(items: seq<Value>)
    ensures SanitizeToolCalls(SanitizeToolCalls(items)) == SanitizeToolCalls(items)
  {
    if items != [] {
      ToolCallsSettle(items[1..]);
      if items[0].Dict? {
        ToolCallSettles(items[0]);
        var once := SanitizeToolCalls(items);
        assert once[1..] == SanitizeToolCalls(items[1..]);
      } else {
        assert SanitizeToolCalls(items) == SanitizeToolCalls(items[1..]);
      }
    }
  }

  // ------------------------------------------------------------ messages

  /** One field of a message: tool calls are cleaned, and dropped when none is left. */
  function CleanField(k: string, v: Value): Option<Value> {
    if v == Null then None
    else if k == "tool_calls" && v.List? then
      var calls := SanitizeToolCalls(v.items);
      if calls == [] then None else Some(List(calls))
    else Some(v)
  }

  function CleanFields(m: Fields, allowed: set<string>): Fields {
    map k | k in m && k in allowed && CleanField(k, m[k]).Some? :: CleanField(k, m[k]).value
  }

  function SanitizeMessage(m: Fields): Option<Fields> {
    var role := Get(m, "role");
    var cleaned := CleanFields(m, AllowedFields(role));
    var out := if role == Str("assistant") && "content" !in cleaned && "tool_calls" !in cleaned
               then cleaned["content" := Str("")] else cleaned;
    if role == Str("tool") && !Truthy(Get(out, "tool_call_id")) then None
    else Some(out["role" := role])
  }

  /** What one element of the recorded list contributes. */
  function Surviving(v: Value): seq<Fields> {
    if !v.Dict? then []
    else
      match SanitizeMessage(v.fields)
      case None => []
      case Some(out) => [out]
  }

  function SanitizeAll(messages: seq<Value>): seq<Fields> {
    if messages == [] then [] else Surviving(messages[0]) + SanitizeAll(messages[1..])
  }

  predicate Crashes(v: Value) {
    v.Dict? && Unhashable(Get(v.fields, "role"))
  }

  function AsValues(messages: seq<Fields>): seq<Value> {
    if messages == [] then [] else [Dict(messages[0])] + AsValues(messages[1..])
  }

  lemma SanitizeLast(done: seq<Value>, v: Value)
    ensures SanitizeAll(done + [v]) == SanitizeAll(done) + Surviving(v)
  {
    SanitizeKeepsOrder(done, [v]);
    assert SanitizeAll([v]) == Surviving(v);
  }

  method SanitizeMessages(messages: seq<Value>) returns (r: Result<seq<Fields>>)
    ensures r.Err? <==> exists v | v in messages :: Crashes(v)
    ensures r.Ok? ==> r.value == SanitizeAll(messages)
  {
    var cleaned: seq<Fields> := [];
    for i := 0 to |messages|
      invariant forall j | 0 <= j < i :: !Crashes(messages[j])
      invariant cleaned == SanitizeAll(messages[..i])
    {
      var m := messages[i];
      assert messages[..i + 1] == messages[..i] + [m];
      SanitizeLast(messages[..i], m);
      if Crashes(m) {
        assert m in messages;
        return Err("unhashable type");
      }
      if m.Dict? {
        var out := SanitizeMessage(m.fields);
        if out.Some? {
          cleaned := cleaned + [out.value];
        }
      }
    }
    assert messages[..|messages|] == messages;
    r := Ok(cleaned);
  }

  // ---------------------------------------------------------- properties

  lemma CleanFieldSettles(k: string, v: Value)
    requires CleanField(k, v).Some?
    ensures CleanField(k, CleanField(k, v).value) == CleanField(k, v)
  {
    if k == "tool_calls" && v.List? {
      ToolCallsSettle(v.items);
    }
  }

  lemma CleanFieldsSettle(m: Fields, out: Fields, allowed: set<string>)
    requires forall k | k in out :: k in allowed && CleanField(k, out[k]) == Some(out[k])
    ensures CleanFields(out, allowed) == out
  {}

  /** A message that survives is left alone by a second pass. */
  lemma MessageSettles(m: Fields)
    requires SanitizeMessage(m).Some?
    ensures SanitizeMessage(SanitizeMessage(m).value) == SanitizeMessage(m)
  {
    var role := Get(m, "role");
    var allowed := AllowedFields(role);
    var once := SanitizeMessage(m).value;
    forall k | k in once && k != "role"
      ensures k in allowed && CleanField(k, once[k]) == Some(once[k])
    {
      if k in CleanFields(m, allowed) {
        CleanFieldSettles(k, m[k]);
      }
    }
    if role == Null {
      CleanFieldsSettle(m, once - {"role"}, allowed);
      assert CleanFields(once, allowed) == once - {"role"};
    } else {
      CleanFieldsSettle(m, once, allowed);
    }
    assert Get(once, "role") == role;
    assert CleanFields(once, allowed)["role" := role] == once;
    assert role == Str("assistant") ==> "content" in once || "tool_calls" in once;
  }

  lemma SurvivorsSettle(v: Value)
    ensures forall out | out in Surviving(v) :: Surviving(Dict(out)) == [out]
  {
    if v.Dict? && SanitizeMessage(v.fields).Some? {
      MessageSettles(v.fields);
    }
  }

  /** Sanitizing an already sanitized list changes nothing. */
  lemma {:induction false} SanitizeIdempotent(messages: seq<Value>)
    ensures SanitizeAll(AsValues(SanitizeAll(messages))) == SanitizeAll(messages)
  {
    if messages != [] {
      var head, rest := Surviving(messages[0]), SanitizeAll(messages[1..]);
      SanitizeIdempotent(messages[1..]);
      SurvivorsSettle(messages[0]);
      if head == [] {
        assert SanitizeAll(messages) == rest;
      } else {
        assert head == [head[0]];
        assert (head + rest)[1..] == rest;
        assert AsValues(head + rest) == [Dict(head[0])] + AsValues(rest);
        assert AsValues(head + rest)[1..] == AsValues(rest);
        assert head[0] in head;
      }
    }
  }

  /** Order is kept: cleaning two stretches one after the other is cleaning the whole. */
  lemma {:induction false} SanitizeKeepsOrder(a: seq<Value>, b: seq<Value>)
    ensures SanitizeAll(a + b) == SanitizeAll(a) + SanitizeAll(b)
  {
    if a == [] {
      assert a + b == b;
    } else {
      assert (a + b)[1..] == a[1..] + b;
      SanitizeKeepsOrder(a[1..], b);
    }
  }

  /** What the endpoint accepts. */
  predicate Acceptable(out: Fields) {
    && "role" in out
    && (forall k | k in out :: k in AllowedFields(out["role"]))
    && (forall k | k in out && k != "role" :: out[k] != Null)
    && (out["role"] == Str("assistant") ==> "content" in out || "tool_calls" in out)
    && (out["role"] == Str("tool") ==> Truthy(Get(out, "tool_call_id")))
  }

  lemma {:induction false} SurvivorsAreAcceptable(messages: seq<Value>)
    ensures forall out | out in SanitizeAll(messages) :: Acceptable(out)
  {
    if messages != [] {
      SurvivorsAreAcceptable(messages[1..]);
    }
  }

  // ------------------------------------------------------ what is kept, outright

  /** What a cleaned function object holds: the name and the arguments, which default to empty text. */
  ghost predicate FunctionIs(out: Fields, fn: Fields) {
    && (forall k :: k in out <==> k == "arguments" || (k == "name" && k in fn && fn[k] != Null))
    && ("name" in out ==> out["name"] == fn["name"])
    && out["arguments"] == if "arguments" in fn && fn["arguments"] != Null then fn["arguments"] else Str("")
  }

  /** What a cleaned tool call holds: id, index and function as they were, and a type, "function" if none is given. */
  ghost predicate ToolCallIs(out: Fields, tc: Fields) {
    && (forall k :: k in out <==> k == "type" || (k in {"id", "function", "index"} && k in tc && tc[k] != Null))
    && (out["type"] == if "type" in tc && tc["type"] != Null then tc["type"] else Str("function"))
    && (forall k | k in out && k in {"id", "index"} :: out[k] == tc[k])
    && ("function" in out ==>
          if tc["function"].Dict? then out["function"].Dict? && FunctionIs(out["function"].fields, tc["function"].fields)
          else out["function"] == tc["function"])
  }

  lemma ToolCallOutright(tc: Fields)
    ensures SanitizeToolCall(Dict(tc)).Some? && ToolCallIs(SanitizeToolCall(Dict(tc)).value, tc)
  {
    var kept := SetDefault(Keep(tc, TOOL_CALL_FIELDS), "type", Str("function"));
    assert forall k :: k in kept <==> k == "type" || (k in {"id", "function", "index"} && k in tc && tc[k] != Null);
    if Get(kept, "function").Dict? {
      assert FunctionIs(SanitizeFunction(tc["function"].fields), tc["function"].fields);
    }
  }

  function Objects(items: seq<Value>): seq<Value> {
    Filter(items, (v: Value) => v.Dict?)
  }

  /** Each cleaned tool call belongs to the object at the same place. */
  ghost predicate Cleaned(out: seq<Value>, objects: seq<Value>) {
    && |out| == |objects|
    && forall i | 0 <= i < |out| ::
         out[i].Dict? && objects[i].Dict? && ToolCallIs(out[i].fields, objects[i].fields)
  }

  lemma OneMoreCleaned(head: Value, given: Value, out: seq<Value>, objects: seq<Value>)
    requires Cleaned(out, objects) && head.Dict? && given.Dict? && ToolCallIs(head.fields, given.fields)
    ensures Cleaned([head] + out, [given] + objects)
  {}

  /** The tool calls that are kept: all objects of the list, in order, each cleaned. */
  lemma {:induction false} ToolCallsOutright(items: seq<Value>)
    ensures Cleaned(SanitizeToolCalls(items), Objects(items))
  {
    if items != [] {
      var rest, objects := SanitizeToolCalls(items[1..]), Objects(items[1..]);
      ToolCallsOutright(items[1..]);
      if items[0].Dict? {
        ToolCallOutright(items[0].fields);
        OneMoreCleaned(Dict(SanitizeToolCall(items[0]).value), items[0], rest, objects);
      } else {
        assert [] + rest == rest;
      }
    }
  }

  /** A field that messages of a role may carry. */
  predicate MayCarry(role: Value, k: string) {
    || k in {"role", "content"}
    || (role == Str("assistant") && k in {"name", "tool_calls", "refusal", "audio"})
    || (role == Str("tool") && k == "tool_call_id")
    || (role != Str("assistant") && role != Str("tool") && k == "name")
  }

  /** A list of tool calls none of which is an object. */
  predicate NoUsableCalls(v: Value) {
    v.List? && Objects(v.items) == []
  }

  lemma CarriedIsAllowed(role: Value, k: string)
    ensures k in AllowedFields(role) <==> MayCarry(role, k)
  {}

  /**
   * Field by field what a surviving message holds: its role; every field its
   * role may carry that is not null, unchanged but for the cleaning of tool
   * calls; and empty content for an assistant that has nothing else to say.
   */
  lemma SurvivorOutright(m: Fields, out: Fields, k: string)
    requires SanitizeMessage(m) == Some(out)
    ensures var role := if "role" in m then m["role"] else Null;
            var kept := k in m && m[k] != Null && MayCarry(role, k) && !(k == "tool_calls" && NoUsableCalls(m[k]));
            && "role" in out && out["role"] == role
            && (k != "role" && k in out ==>
                  kept || (k == "content" && role == Str("assistant") && out[k] == Str("") && "tool_calls" !in out))
            && (kept ==> k in out)
            && (kept && !(k == "tool_calls" && m[k].List?) ==> out[k] == m[k])
            && (kept && k == "tool_calls" && m[k].List? ==> out[k] == List(SanitizeToolCalls(m[k].items)))
            && (role == Str("assistant") ==> "content" in out || "tool_calls" in out)
  {
    var role := Get(m, "role");
    CarriedIsAllowed(role, k);
    if k in m && m[k].List? {
      ToolCallsOutright(m[k].items);
    }
    var cleaned := CleanFields(m, AllowedFields(role));
    assert k in cleaned <==> k in m && k in AllowedFields(role) && CleanField(k, m[k]).Some?;
  }

  /** Only non-objects and tool messages with a missing, null or otherwise empty call id are dropped. */
  lemma OnlyUnusableMessagesDropped(v: Value)
    ensures Surviving(v) == [] <==>
              !v.Dict? || (Get(v.fields, "role") == Str("tool") && !Truthy(Get(v.fields, "tool_call_id")))
    ensures forall m: Fields | v == Dict(m) && "role" in m && m["role"] == Str("tool") ::
              Surviving(v) == [] <==>
                "tool_call_id" !in m || m["tool_call_id"] in {Null, Bool(false), Num(0), Str(""), List([]), Dict(map[])}
  {
    if v.Dict? {
      var m := v.fields;
      var cleaned := CleanFields(m, AllowedFields(Get(m, "role")));
      if Get(m, "role") == Str("tool") {
        assert Get(cleaned, "tool_call_id") == Get(m, "tool_call_id");
      }
    }
  }

  /** The only roles that stop the run are lists and objects that are not empty. */
  lemma CrashesOutright(v: Value)
    ensures Crashes(v) <==>
              && v.Dict? && "role" in v.fields
              && ((v.fields["role"].List? && v.fields["role"].items != [])
                  || (v.fields["role"].Dict? && v.fields["role"].fields != map[]))
  {}
}
