/**
 * What the conversation store writes for a message with reasoning, read
 * back by the batch extractor.
 */
module RoundTrip {
  import opened Wrappers
  import opened Text
  import opened Thinking
  import opened Json
  import opened Storage

  /** The text a message with reasoning `t` and answer `c` is saved as. */
  function SavedText(t: string, c: string): string
  {
    OpenTag + t + CloseTag + "\n\n" + c
  }

  /** In the saved text, the block opens at the start and closes right after `t`. */
  lemma SavedBlock(t: string, c: string)
    requires forall j :: !OccursAt(t, CloseTag, j)
    ensures FirstBlock(SavedText(t, c)) == Some(Block(0, |OpenTag| + |t|))
  {
    var s := SavedText(t, c);
    var close := |OpenTag| + |t|;
    assert s[..|OpenTag|] == OpenTag;
    FindIs(s, OpenTag, 0, 0);
    assert s[close..close + |CloseTag|] == CloseTag;
    forall j | |OpenTag| <= j < close
      ensures !OccursAt(s, CloseTag, j)
    {
      if j + |CloseTag| <= close {
        assert s[j..j + |CloseTag|] == t[j - |OpenTag|..j - |OpenTag| + |CloseTag|];
        assert !OccursAt(t, CloseTag, j - |OpenTag|);
      } else {
        assert s[j..j + |CloseTag|][close - j] == '<' != CloseTag[close - j];
      }
    }
    FindIs(s, CloseTag, |OpenTag|, close);
  }

  /** The blank line after the block cannot start a `<think>`. */
  lemma NoOpenAfterBreak(c: string)
    requires forall j :: !OccursAt(c, OpenTag, j)
    ensures FirstBlock("\n\n" + c).None?
  {
    var s := "\n\n" + c;
    forall j | 0 <= j
      ensures !OccursAt(s, OpenTag, j)
    {
      if j < 2 {
        if j + |OpenTag| <= |s| {
          assert s[j..j + |OpenTag|][0] == '\n' != OpenTag[0];
        }
      } else {
        OccursInSuffix("\n\n", c, OpenTag, j - 2);
      }
    }
    FindIs(s, OpenTag, 0, -1);
  }

  /** The batch view of the saved text: one block, `t`, and the blank line and answer around nothing else. */
  lemma SavedBatch(t: string, c: string)
    requires forall j :: !OccursAt(t, CloseTag, j)
    requires forall j :: !OccursAt(c, OpenTag, j)
    ensures Blocks(SavedText(t, c)) == [t]
    ensures RemoveBlocks(SavedText(t, c)) == "\n\n" + c
  {
    var s := SavedText(t, c);
    SavedBlock(t, c);
    var b := Block(0, |OpenTag| + |t|);
    assert Inner(s, b) == t;
    assert After(s, b) == "\n\n" + c;
    NoOpenAfterBreak(c);
  }

  /** A dictionary content with a non-empty reasoning string is saved as `SavedText`. */
  lemma FlattenedContent(msg: Message, t: string, c: string)
    requires "content" in msg && msg["content"] == Obj(map["thinking" := Str(t), "content" := Str(c)])
    requires |t| != 0
    ensures FlattenMessage(msg)["content"] == Str(SavedText(t, c))
  {
    var inner := msg["content"].fields;
    assert Get(inner, "thinking", Null) == Str(t);
    assert Get(inner, "content", Null) == Str(c);
  }

  lemma BreakInvisible(c: string)
    ensures NonSpace("\n\n" + c) == NonSpace(c)
  {
    NonSpaceAppend("\n\n", c);
    NonSpaceOfSpace("\n\n");
  }

  /** The batch extractor on a saved text. */
  lemma ExtractSaved(t: string, c: string)
    requires forall j :: !OccursAt(t, CloseTag, j)
    requires forall j :: !OccursAt(c, OpenTag, j)
    ensures ExtractThinking(SavedText(t, c)).thinking.Some? <==> |Strip(t)| >= MinThinking
    ensures ExtractThinking(SavedText(t, c)).thinking.Some? ==>
              && ExtractThinking(SavedText(t, c)).thinking.value == Strip(t)
              && NonSpace(ExtractThinking(SavedText(t, c)).clean) == NonSpace(c)
  {
    var s := SavedText(t, c);
    SavedBatch(t, c);
    ExtractSingleBlock(s, t);
    ExtractKeepsAnswer(s);
    BreakInvisible(c);
  }

  /**
   * A message saved with reasoning `t` (containing no `</think>`) and an
   * answer `c` (containing no `<think>`) is recognised again by the batch
   * extractor: the reasoning comes back stripped when it is long enough, and
   * the answer keeps every visible character of `c`.
   */
  lemma SavedReasoningExtracts(msg: Message, t: string, c: string)
    requires "content" in msg && msg["content"] == Obj(map["thinking" := Str(t), "content" := Str(c)])
    requires |t| != 0
    requires forall j :: !OccursAt(t, CloseTag, j)
    requires forall j :: !OccursAt(c, OpenTag, j)
    ensures FlattenMessage(msg)["content"] == Str(SavedText(t, c))
    ensures ExtractThinking(SavedText(t, c)).thinking.Some? <==> |Strip(t)| >= MinThinking
    ensures ExtractThinking(SavedText(t, c)).thinking.Some? ==>
              && ExtractThinking(SavedText(t, c)).thinking.value == Strip(t)
              && NonSpace(ExtractThinking(SavedText(t, c)).clean) == NonSpace(c)
  {
    FlattenedContent(msg, t, c);
    ExtractSaved(t, c);
  }
}
