/**
 * The accumulate-and-rescan splitter (`render_thinking_in_realtime`): after
 * each valid chunk it appends the chunk to the whole response so far, takes
 * the stripped contents of the first complete block as the reasoning (when
 * there is one), and the stripped response without its complete blocks as
 * the visible text.
 */
module StreamThinking {
  import opened Wrappers
  import opened Text
  import opened Helpers
  import opened Thinking

  /** The stripped contents of the first complete block, or "" when there is none. */
  function FirstThinking(s: string): (r: string)
    ensures NoOuterSpace(r)
    ensures |Blocks(s)| == 0 ==> r == ""
    ensures |Blocks(s)| != 0 ==> r == Strip(Blocks(s)[0])
  {
    match FirstBlock(s)
    case None => ""
    case Some(b) => Strip(Inner(s, b))
  }

  /** Appending text never changes the reasoning once a complete block has been seen. */
  lemma FirstThinkingStable(s: string, t: string)
    requires |Blocks(s)| != 0
    ensures FirstThinking(s + t) == FirstThinking(s)
  {
    FirstBlockExtends(s, t);
    var b := FirstBlock(s).value;
    assert Inner(s + t, b) == Inner(s, b);
  }

  /**
   * On a response with exactly one complete block whose stripped contents are
   * long enough, the rescanning splitter and the batch extractor find the
   * same reasoning, and their answers hold the same visible characters.
   */
  lemma RescanMatchesBatch(s: string, t: string)
    requires Blocks(s) == [t] && |Strip(t)| >= MinThinking
    ensures ExtractThinking(s).thinking == Some(FirstThinking(s))
    ensures NonSpace(ExtractThinking(s).clean) == NonSpace(Strip(RemoveBlocks(s)))
  {
    ExtractSingleBlock(s, t);
    ExtractKeepsAnswer(s);
    NonSpaceStrip(RemoveBlocks(s));
  }

  /**
   * `render_thinking_in_realtime` without its rendering: the visible text is
   * the whole response without its complete blocks, stripped; the reasoning
   * is the stripped contents of its first complete block, or "".
   */
  method RenderThinkingInRealtime(stream: seq<Chunk>) returns (visibleText: string, thinkingText: string)
    ensures visibleText == Strip(RemoveBlocks(StreamText(stream)))
    ensures thinkingText == FirstThinking(StreamText(stream))
  {
    var fullResponse := "";
    visibleText := "";
    thinkingText := "";
    for n := 0 to |stream|
      invariant fullResponse == StreamText(stream[..n])
      invariant thinkingText == FirstThinking(fullResponse)
      invariant visibleText == Strip(RemoveBlocks(fullResponse))
    {
      assert stream[..n + 1][..n] == stream[..n];
      var chunk := stream[n];
      var content := ExtractChunkContent(chunk);
      if content.Some? {
        var before := fullResponse;
        fullResponse := fullResponse + content.value;
        var found := FirstBlock(fullResponse);
        if found.Some? {
          thinkingText := Strip(Inner(fullResponse, found.value));
        } else if |Blocks(before)| != 0 {
          FirstThinkingStable(before, content.value);
        }
        visibleText := Strip(RemoveBlocks(fullResponse));
      }
    }
    assert stream[..|stream|] == stream;
  }

  /** A stream with no valid chunk gives two empty texts. */
  lemma {:induction false} NoValidChunk(stream: seq<Chunk>)
    requires forall i :: 0 <= i < |stream| ==> !IsValidChunk(stream[i])
    ensures StreamText(stream) == ""
    ensures Strip(RemoveBlocks(StreamText(stream))) == "" && FirstThinking(StreamText(stream)) == ""
  {
    if |stream| != 0 {
      NoValidChunk(stream[..|stream| - 1]);
    }
  }
}
