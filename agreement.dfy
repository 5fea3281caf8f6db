/**
 * How the streaming splitter of the chat page relates to the batch
 * extractor: read in one piece, the splitter's visible text is the text with
 * its complete blocks removed and its reasoning is their contents run
 * together; a block left open at the end puts its tag in neither.
 */
module Agreement {
  import opened Wrappers
  import opened Text
  import opened Helpers
  import opened Chat
  import opened Thinking

  /** `FirstBlock` in terms of the two searches the splitter makes. */
  lemma FirstBlockBySteps(s: string, p: nat, c1: int)
    requires p == Find(s, OpenTag, 0)
    requires p + |OpenTag| <= |s| && c1 == Find(s[p + |OpenTag|..], CloseTag, 0)
    ensures c1 == -1 ==> FirstBlock(s).None?
    ensures c1 != -1 ==> FirstBlock(s) == Some(Block(p, p + |OpenTag| + c1))
  {
    FindDrop(s, CloseTag, p + |OpenTag|);
  }

  /** One block of the batch view: what precedes it, its contents, what follows it. */
  lemma BatchStep(s: string, b: Block)
    requires FirstBlock(s) == Some(b)
    ensures RemoveBlocks(s) == s[..b.open] + RemoveBlocks(After(s, b))
    ensures Concat(Blocks(s)) == Inner(s, b) + Concat(Blocks(After(s, b)))
  {
    var bs := [Inner(s, b)] + Blocks(After(s, b));
    assert Blocks(s) == bs;
    assert bs[1..] == Blocks(After(s, b));
  }

  /** A text with no complete block, seen by both sides. */
  lemma BatchNone(s: string)
    requires FirstBlock(s).None?
    ensures RemoveBlocks(s) == s && Concat(Blocks(s)) == ""
  {
  }

  /** The splitter, outside a block, meets a `<think>` at `p` and switches to the reasoning. */
  lemma OpenStep(s: string, st: SplitState, p: int)
    requires !st.insideThink && |s| != 0
    requires p == Find(s, OpenTag, 0) && p != -1
    ensures p + |OpenTag| <= |s|
    ensures Scan(s, st) == Scan(s[p + |OpenTag|..], SplitState(st.normal + s[..p], st.thinking, true))
    ensures s == s[..p] + OpenTag + s[p + |OpenTag|..]
  {
    ScanStep(s, st, p, s[p + |OpenTag|..], SplitState(st.normal + s[..p], st.thinking, true));
    FindSpec(s, OpenTag, 0);
    SplitAtOccurrence(s, OpenTag, p);
  }

  /** The splitter, inside a block, meets a `</think>` at `c` and switches back. */
  lemma CloseStep(r: string, st: SplitState, c: int)
    requires st.insideThink && |r| != 0
    requires c == Find(r, CloseTag, 0) && c != -1
    ensures c + |CloseTag| <= |r|
    ensures Scan(r, st) == Scan(r[c + |CloseTag|..], SplitState(st.normal, st.thinking + r[..c], false))
  {
    ScanStep(r, st, c, r[c + |CloseTag|..], SplitState(st.normal, st.thinking + r[..c], false));
  }

  /** The batch view of a text whose first `<think>` is at `p` and is closed `c` characters after it. */
  lemma BlockAt(s: string, p: nat, c: int)
    requires p == Find(s, OpenTag, 0)
    requires p + |OpenTag| <= |s| && c == Find(s[p + |OpenTag|..], CloseTag, 0) && c != -1
    ensures c + |CloseTag| <= |s[p + |OpenTag|..]|
    ensures RemoveBlocks(s) == s[..p] + RemoveBlocks(s[p + |OpenTag|..][c + |CloseTag|..])
    ensures Concat(Blocks(s)) == s[p + |OpenTag|..][..c] + Concat(Blocks(s[p + |OpenTag|..][c + |CloseTag|..]))
  {
    FirstBlockBySteps(s, p, c);
    var b := Block(p, p + |OpenTag| + c);
    assert Inner(s, b) == s[p + |OpenTag|..][..c];
    assert After(s, b) == s[p + |OpenTag|..][c + |CloseTag|..];
    BatchStep(s, b);
  }

  /**
   * What `ScanAgreesWithBatch` states about a final state `e` reached from
   * `st`, for a text whose blocks removed give `removed` and whose block
   * contents run together give `joined`.
   */
  ghost predicate AgreesWith(removed: string, joined: string, st: SplitState, e: SplitState)
  {
    && (!e.insideThink ==> e.normal == st.normal + removed && e.thinking == st.thinking + joined)
    && (e.insideThink ==>
          exists d :: e.normal + OpenTag + d == st.normal + removed && e.thinking == st.thinking + joined + d)
  }

  ghost predicate Agrees(s: string, st: SplitState, e: SplitState)
  {
    AgreesWith(RemoveBlocks(s), Concat(Blocks(s)), st, e)
  }

  /** Agreement carries over a block: prepend its preceding text and its contents. */
  lemma AgreesAcrossBlock(removed: string, joined: string, st: SplitState, pre: string, inner: string,
                          restRemoved: string, restJoined: string, e: SplitState)
    requires removed == pre + restRemoved && joined == inner + restJoined
    requires AgreesWith(restRemoved, restJoined, SplitState(st.normal + pre, st.thinking + inner, false), e)
    ensures AgreesWith(removed, joined, st, e)
  {
    if e.insideThink {
      var d :| e.normal + OpenTag + d == st.normal + pre + restRemoved
               && e.thinking == st.thinking + inner + restJoined + d;
      assert e.normal + OpenTag + d == st.normal + removed;
      assert e.thinking == st.thinking + joined + d;
    }
  }

  /** A `<think>` with no `</think>` after it: the rest of the text is dangling reasoning. */
  lemma AgreesUnclosed(s: string, st: SplitState, p: nat, r1: string)
    requires p <= |s| && FirstBlock(s).None? && s == s[..p] + OpenTag + r1
    ensures Agrees(s, st, SplitState(st.normal + s[..p], st.thinking + r1, true))
  {
    BatchNone(s);
    assert st.thinking + r1 == st.thinking + Concat(Blocks(s)) + r1;
  }

  /**
   * Scanning a whole text from the visible mode: when it ends outside a
   * block, the visible text gained is the text without its blocks and the
   * reasoning gained is their contents; when a block is left open, its tag is
   * in neither and the text after it went to the reasoning.
   */
  lemma ScanAgreesWithBatch(s: string, st: SplitState)
    requires !st.insideThink
    ensures !Scan(s, st).insideThink ==>
              && Scan(s, st).normal == st.normal + RemoveBlocks(s)
              && Scan(s, st).thinking == st.thinking + Concat(Blocks(s))
    ensures Scan(s, st).insideThink ==>
              exists d :: && Scan(s, st).normal + OpenTag + d == st.normal + RemoveBlocks(s)
                          && Scan(s, st).thinking == st.thinking + Concat(Blocks(s)) + d
  {
    ScanAgrees(s, st);
  }

  lemma {:induction false} ScanAgrees(s: string, st: SplitState)
    requires !st.insideThink
    ensures Agrees(s, st, Scan(s, st))
    decreases |s|
  {
    if |s| == 0 {
      assert FirstBlock(s).None?;
      BatchNone(s);
      return;
    }
    var p := Find(s, OpenTag, 0);
    if p == -1 {
      ScanUnfold(s, st, p);
      assert FirstBlock(s).None?;
      BatchNone(s);
      return;
    }
    OpenStep(s, st, p);
    var r1 := s[p + |OpenTag|..];
    var st1 := SplitState(st.normal + s[..p], st.thinking, true);
    if |r1| == 0 {
      FirstBlockBySteps(s, p, -1);
      assert Scan(s, st) == st1;
      AgreesUnclosed(s, st, p, r1);
      return;
    }
    var c := Find(r1, CloseTag, 0);
    FirstBlockBySteps(s, p, c);
    if c == -1 {
      ScanUnfold(r1, st1, c);
      assert Scan(s, st) == Emit(st1, r1);
      AgreesUnclosed(s, st, p, r1);
      return;
    }
    CloseStep(r1, st1, c);
    var r2 := r1[c + |CloseTag|..];
    BlockAt(s, p, c);
    ScanAgrees(r2, SplitState(st.normal + s[..p], st.thinking + r1[..c], false));
    AgreesAcrossBlock(RemoveBlocks(s), Concat(Blocks(s)), st, s[..p], r1[..c],
                      RemoveBlocks(r2), Concat(Blocks(r2)), Scan(r2, SplitState(st.normal + s[..p], st.thinking + r1[..c], false)));
  }

  /**
   * When no tag straddles two chunks and every block is closed, the streaming
   * splitter ends with exactly the batch extractor's view of the whole
   * response: the text without its blocks, and their contents run together.
   */
  lemma StreamAgreesWithBatch(stream: seq<Chunk>)
    requires TagsWithinChunks(stream)
    requires !Process(stream).insideThink
    ensures Process(stream).normal == RemoveBlocks(StreamText(stream))
    ensures Process(stream).thinking == Concat(Blocks(StreamText(stream)))
  {
    ChunkingIrrelevant(stream);
    ScanAgreesWithBatch(StreamText(stream), Start);
  }
}
