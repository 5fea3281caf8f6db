/**
 * Small helpers of the chat client: reading a streamed response chunk,
 * picking the selected model, formatting an error, and the delayed echo.
 */
module Helpers {
  import opened Wrappers
  import opened Text

  /** The `message` dictionary of a chunk; `content` is `None` when the key is absent. */
  datatype ChunkMessage = ChunkMessage(content: Option<string>)

  /**
   * One element of the backend's response stream: `Falsy` stands for `None`
   * or an empty dictionary; otherwise a dictionary whose `message` key may be absent.
   */
  datatype Chunk = Falsy | ChunkDict(message: Option<ChunkMessage>)

  /** `extract_chunk_content`: `chunk["message"]["content"]` when both keys exist, else `None`. */
  function ExtractChunkContent(chunk: Chunk): (r: Option<string>)
    ensures r.Some? <==> chunk.ChunkDict? && chunk.message.Some? && chunk.message.value.content.Some?
    ensures r.Some? ==> r.value == chunk.message.value.content.value
  {
    if chunk.ChunkDict? && chunk.message.Some? && chunk.message.value.content.Some? then
      Some(chunk.message.value.content.value)
    else
      None
  }

  /** Chunks the stream loops keep: both keys present. */
  predicate IsValidChunk(chunk: Chunk)
  {
    ExtractChunkContent(chunk).Some?
  }

  /** The in-order concatenation of the contents of the valid chunks of a stream. */
  function StreamText(stream: seq<Chunk>): (r: string)
    ensures |stream| == 0 ==> r == ""
    ensures |stream| != 0 ==> StreamText(stream[..|stream| - 1]) <= r
  {
    if |stream| == 0 then ""
    else
      var last := stream[|stream| - 1];
      StreamText(stream[..|stream| - 1]) + (if IsValidChunk(last) then ExtractChunkContent(last).value else "")
  }

  /** The text of a prefix of the stream is a prefix of the text of the stream. */
  lemma {:induction false} StreamTextPrefix(stream: seq<Chunk>, k: nat)
    requires k <= |stream|
    ensures StreamText(stream[..k]) <= StreamText(stream)
    decreases |stream| - k
  {
    if k < |stream| {
      var init := stream[..|stream| - 1];
      assert init[..k] == stream[..k];
      StreamTextPrefix(init, k);
    } else {
      assert stream[..k] == stream;
    }
  }

  /** Python's `list.index`: the position of the first occurrence of `x`. */
  function IndexOf<T(==)>(xs: seq<T>, x: T): (r: nat)
    requires x in xs
    ensures r < |xs| && xs[r] == x
    ensures forall j :: 0 <= j < r ==> xs[j] != x
  {
    if xs[0] == x then 0 else 1 + IndexOf(xs[1..], x)
  }

  /** `get_model_index`: the first position of `current` in `models`, or 0 when it is absent. */
  function GetModelIndex<T(==)>(models: seq<T>, current: T): (r: nat)
    ensures current in models ==> r < |models| && models[r] == current
                                  && forall j :: 0 <= j < r ==> models[j] != current
    ensures current !in models ==> r == 0
  {
    if current in models then IndexOf(models, current) else 0
  }

  /** For a non-empty list the index is valid, and it designates `current` exactly when `current` is listed. */
  lemma GetModelIndexValid<T>(models: seq<T>, current: T)
    requires models != []
    ensures GetModelIndex(models, current) < |models|
    ensures models[GetModelIndex(models, current)] == current <==> current in models
  {
  }

  /** `format_error_message`, with the exception's class name and text as inputs. */
  function FormatErrorMessage(typeName: string, message: string): (r: string)
    ensures |r| == 10 + |typeName| + |message|
    ensures r[..7] == "Error: " && r[7..7 + |typeName|] == typeName
    ensures r[7 + |typeName|..10 + |typeName|] == " - " && r[10 + |typeName|..] == message
  {
    "Error: " + typeName + " - " + message
  }

  /** `slow_text_display`: after a delay (not modelled) the text comes back unchanged. */
  function SlowTextDisplay(text: string): (r: string)
    ensures r == text
  {
    text
  }
}
