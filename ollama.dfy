/**
 * The model backend's data shapes (`ollama_service`): the model list as the
 * backend reports it, and the conversion of chat messages to the backend's
 * message format. The backend call itself is an input.
 */
module Ollama {
  import opened Wrappers
  import opened Json

  /** The model the chat falls back to (`DEFAULT_MODEL`, and the literal in `get_available_models`). */
  const DefaultModel: string := "deepseek-r1:14b"

  /**
   * What `ollama.list()` did: raised an exception, returned a JSON-shaped
   * value, or returned some other object (neither a dictionary nor a list).
   */
  datatype ListResponse = Raised | Returned(v: Value) | OtherObject

  /** An entry of a model list has a name when it is a dictionary with a `name` key. */
  predicate Named(entry: Value)
  {
    entry.Obj? && "name" in entry.fields
  }

  /**
   * `[model["name"] for model in entries]`: the names in order, or `None`
   * for the exception raised by the first entry that is not a dictionary
   * with a name.
   */
  function NamesOf(entries: seq<Value>): (r: Option<seq<Value>>)
    ensures r.Some? <==> forall i :: 0 <= i < |entries| ==> Named(entries[i])
    ensures r.Some? ==> |r.value| == |entries|
                        && forall i :: 0 <= i < |entries| ==> r.value[i] == entries[i].fields["name"]
  {
    if |entries| == 0 then Some([])
    else if !Named(entries[0]) then None
    else
      match NamesOf(entries[1..])
      case None => None
      case Some(rest) => Some([entries[0].fields["name"]] + rest)
  }

  /**
   * Iterating over the `models` entry: a list gives its names; an empty
   * string or dictionary gives no names; iterating a non-empty one yields
   * strings, whose `["name"]` raises, and the other values cannot be iterated.
   */
  function NamesOfEntry(models: Value): (r: Option<seq<Value>>)
    ensures models.Arr? ==> r == NamesOf(models.items)
    ensures (models.Str? || models.Obj?) ==> (r.Some? <==> Len(models) == Some(0)) && (r.Some? ==> r.value == [])
    ensures (models.Null? || models.Bool? || models.Int?) ==> r.None?
  {
    match models
    case Arr(items) => NamesOf(items)
    case Str(s) => if |s| == 0 then Some([]) else None
    case Obj(fields) => if |fields| == 0 then Some([]) else None
    case _ => None
  }

  const Fallback: seq<Value> := [Str(DefaultModel)]

  /**
   * `get_available_models`: the names of a dictionary's `models` entry or of
   * a list, in order; the fallback list for any other response and for
   * any exception.
   */
  function GetAvailableModels(response: ListResponse): (r: seq<Value>)
    ensures response.Returned? && response.v.Obj? && "models" in response.v.fields ==>
              r == (var n := NamesOfEntry(response.v.fields["models"]); if n.Some? then n.value else Fallback)
    ensures response.Returned? && response.v.Arr? ==>
              r == (var n := NamesOf(response.v.items); if n.Some? then n.value else Fallback)
    ensures !(response.Returned? && (response.v.Arr? || (response.v.Obj? && "models" in response.v.fields)))
            ==> r == Fallback
  {
    match response
    case Returned(v) =>
      if v.Obj? && "models" in v.fields then
        match NamesOfEntry(v.fields["models"])
        case Some(names) => names
        case None => Fallback
      else if v.Arr? then
        match NamesOf(v.items)
        case Some(names) => names
        case None => Fallback
      else Fallback
    case _ => Fallback
  }

  /** A response listing named models gives exactly their names, in order. */
  lemma ListedModelsReported(entries: seq<Value>)
    requires forall i :: 0 <= i < |entries| ==> Named(entries[i])
    ensures GetAvailableModels(Returned(Obj(map["models" := Arr(entries)]))) == GetAvailableModels(Returned(Arr(entries)))
    ensures |GetAvailableModels(Returned(Arr(entries)))| == |entries|
    ensures forall i :: 0 <= i < |entries| ==> GetAvailableModels(Returned(Arr(entries)))[i] == entries[i].fields["name"]
  {
  }

  /** A message in the backend's format: only a role and the content. */
  datatype OllamaMessage = OllamaMessage(role: string, content: Value)

  /**
   * `convert_to_ollama_messages`: each message keeps its content, and its
   * role becomes "assistant" when it is "assistant" and "user" otherwise;
   * all other keys are dropped. `None` stands for the `KeyError` of a
   * message without `role` or `content`.
   */
  method ConvertToOllamaMessages(messages: seq<map<string, Value>>) returns (r: Option<seq<OllamaMessage>>)
    ensures r.Some? <==> forall i :: 0 <= i < |messages| ==> "role" in messages[i] && "content" in messages[i]
    ensures r.Some? ==> |r.value| == |messages|
    ensures r.Some? ==> forall i :: 0 <= i < |messages| ==>
                          && r.value[i].content == messages[i]["content"]
                          && (r.value[i].role == "assistant" <==> messages[i]["role"] == Str("assistant"))
                          && (r.value[i].role == "assistant" || r.value[i].role == "user")
  {
    var converted: seq<OllamaMessage> := [];
    for n := 0 to |messages|
      invariant |converted| == n
      invariant forall i :: 0 <= i < n ==> "role" in messages[i] && "content" in messages[i]
      invariant forall i :: 0 <= i < n ==>
                  && converted[i].content == messages[i]["content"]
                  && (converted[i].role == "assistant" <==> messages[i]["role"] == Str("assistant"))
                  && (converted[i].role == "assistant" || converted[i].role == "user")
    {
      var msg := messages[n];
      if "role" !in msg || "content" !in msg {
        return None;
      }
      var role := if msg["role"] == Str("assistant") then "assistant" else "user";
      converted := converted + [OllamaMessage(role, msg["content"])];
    }
    r := Some(converted);
  }
}

/** The model picker of the sidebar, reduced to the index it selects. */
module Sidebar {
  import opened Json
  import opened Helpers
  import opened Ollama

  /** The picker's options: the reported models, with the default model appended when absent. */
  function ModelOptions(names: seq<Value>): (r: seq<Value>)
    ensures Str(DefaultModel) in r && names <= r
    ensures |r| <= |names| + 1
    ensures Str(DefaultModel) in names ==> r == names
  {
    if Str(DefaultModel) in names then names else names + [Str(DefaultModel)]
  }

  /**
   * Whatever the backend reports, the picker's index is a valid option, and
   * it designates the current model exactly when that model is an option.
   */
  lemma SelectedIndexValid(response: ListResponse, current: string)
    ensures var options := ModelOptions(GetAvailableModels(response));
            && GetModelIndex(options, Str(current)) < |options|
            && (options[GetModelIndex(options, Str(current))] == Str(current) <==> Str(current) in options)
  {
    GetModelIndexValid(ModelOptions(GetAvailableModels(response)), Str(current));
  }
}
