/**
 * The streaming splitter of the chat page (`process_streamed_response`):
 * a two-state scanner, visible or inside a reasoning block, that reads each
 * chunk of the response stream from left to right and appends what it reads
 * to the visible text or to the reasoning text. The state survives from one
 * chunk to the next, but a tag is only recognised when it lies whole inside
 * one chunk.
 */
module Chat {
  import opened Wrappers
  import opened Text
  import opened Helpers

  /** The loop's variables `normal_text`, `thinking_text` and `inside_think`. */
  datatype SplitState = SplitState(normal: string, thinking: string, insideThink: bool)

  const Start: SplitState := SplitState("", "", false)

  /** The tag the scanner waits for: `<think>` outside a block, `</think>` inside one. */
  function Awaited(insideThink: bool): (tag: string)
  {
    if insideThink then CloseTag else OpenTag
  }

  /** Appends `text` to the channel of the current mode. */
  function Emit(st: SplitState, text: string): (r: SplitState)
    ensures r.insideThink == st.insideThink
  {
    if st.insideThink then st.(thinking := st.thinking + text) else st.(normal := st.normal + text)
  }

  /**
   * The inner `while i < len(content_chunk)` loop, applied to the unread part
   * `rest == content_chunk[i:]`: copy the text up to the next awaited tag into
   * the current channel and switch mode, or, when the tag does not occur, copy
   * all of it and stop. Both texts only grow.
   */
  function Scan(rest: string, st: SplitState): (r: SplitState)
    ensures st.normal <= r.normal && st.thinking <= r.thinking
    decreases |rest|
  {
    if |rest| == 0 then st
    else
      var tag := Awaited(st.insideThink);
      var idx := Find(rest, tag, 0);
      if idx == -1 then Emit(st, rest)
      else Scan(rest[idx + |tag|..], Emit(st, rest[..idx]).(insideThink := !st.insideThink))
  }

  /** One step of `Scan` on a non-empty remainder, given where the awaited tag is. */
  lemma ScanUnfold(rest: string, st: SplitState, idx: int)
    requires |rest| != 0
    requires idx == Find(rest, Awaited(st.insideThink), 0)
    ensures idx == -1 ==> Scan(rest, st) == Emit(st, rest)
    ensures idx != -1 ==> Scan(rest, st)
                          == Scan(rest[idx + |Awaited(st.insideThink)|..], Emit(st, rest[..idx]).(insideThink := !st.insideThink))
  {
    var tag := Awaited(st.insideThink);
    if idx == -1 {
      assert Scan(rest, st) == Emit(st, rest);
    } else {
      var next := rest[idx + |tag|..];
      var e := Emit(st, rest[..idx]).(insideThink := !st.insideThink);
      assert Scan(rest, st) == Scan(next, e);
    }
  }

  /** `ScanUnfold` at a found tag, with the remainder and the next state named by the caller. */
  lemma ScanStep(rest: string, st: SplitState, idx: int, next: string, e: SplitState)
    requires |rest| != 0
    requires idx == Find(rest, Awaited(st.insideThink), 0) && idx != -1
    requires next == rest[idx + |Awaited(st.insideThink)|..]
    requires e == Emit(st, rest[..idx]).(insideThink := !st.insideThink)
    ensures Scan(rest, st) == Scan(next, e)
  {
    ScanUnfold(rest, st, idx);
  }

  /** One iteration of the outer `for chunk in stream` loop: invalid chunks are skipped. */
  function FeedChunk(st: SplitState, chunk: Chunk): (r: SplitState)
    ensures !IsValidChunk(chunk) ==> r == st
    ensures st.normal <= r.normal && st.thinking <= r.thinking
  {
    match ExtractChunkContent(chunk)
    case None => st
    case Some(c) => Scan(c, st)
  }

  /** The state after the whole stream has been consumed. */
  function Process(stream: seq<Chunk>): (r: SplitState)
    ensures |stream| == 0 ==> r == Start
    ensures |stream| != 0 ==> Process(stream[..|stream| - 1]).normal <= r.normal
    ensures |stream| != 0 ==> Process(stream[..|stream| - 1]).thinking <= r.thinking
  {
    if |stream| == 0 then Start
    else FeedChunk(Process(stream[..|stream| - 1]), stream[|stream| - 1])
  }

  /** One step of `Scan` on the unread part `c[i..]` of a chunk, in terms of a search of `c` from `i`. */
  lemma ScanFrom(c: string, i: nat, st: SplitState, tag: string, idx: int)
    requires i < |c|
    requires tag == Awaited(st.insideThink) && idx == Find(c, tag, i)
    ensures idx == -1 ==> Scan(c[i..], st) == Emit(st, c[i..])
    ensures idx != -1 ==> Scan(c[i..], st) == Scan(c[idx + |tag|..], Emit(st, c[i..idx]).(insideThink := !st.insideThink))
  {
    FindDrop(c, tag, i);
    var rest := c[i..];
    var q := Find(rest, tag, 0);
    ScanUnfold(rest, st, q);
    if q != -1 {
      assert idx == i + q;
      var e := Emit(st, rest[..q]).(insideThink := !st.insideThink);
      assert Scan(rest, st) == Scan(rest[q + |tag|..], e);
      assert rest[q + |tag|..] == c[idx + |tag|..];
      assert rest[..q] == c[i..idx];
      assert e == Emit(st, c[i..idx]).(insideThink := !st.insideThink);
    }
  }

  /** One pass of the inner loop outside a block: up to the next `<think>`, or to the end of the chunk. */
  lemma OutsideStep(c: string, i: nat, normal: string, thinking: string, idx: int)
    requires i < |c| && idx == Find(c, OpenTag, i)
    ensures idx == -1 ==> Scan(c[i..], SplitState(normal, thinking, false))
                          == Scan(c[|c|..], SplitState(normal + c[i..], thinking, false))
    ensures idx != -1 ==> Scan(c[i..], SplitState(normal, thinking, false))
                          == Scan(c[idx + |OpenTag|..], SplitState(normal + c[i..idx], thinking, true))
  {
    var st := SplitState(normal, thinking, false);
    ScanFrom(c, i, st, OpenTag, idx);
    if idx == -1 {
      assert Emit(st, c[i..]) == SplitState(normal + c[i..], thinking, false);
      assert |c[|c|..]| == 0;
    } else {
      assert Emit(st, c[i..idx]).(insideThink := true) == SplitState(normal + c[i..idx], thinking, true);
    }
  }

  /** One pass of the inner loop inside a block: up to the next `</think>`, or to the end of the chunk. */
  lemma InsideStep(c: string, i: nat, normal: string, thinking: string, idx: int)
    requires i < |c| && idx == Find(c, CloseTag, i)
    ensures idx == -1 ==> Scan(c[i..], SplitState(normal, thinking, true))
                          == Scan(c[|c|..], SplitState(normal, thinking + c[i..], true))
    ensures idx != -1 ==> Scan(c[i..], SplitState(normal, thinking, true))
                          == Scan(c[idx + |CloseTag|..], SplitState(normal, thinking + c[i..idx], false))
  {
    var st := SplitState(normal, thinking, true);
    ScanFrom(c, i, st, CloseTag, idx);
    if idx == -1 {
      assert Emit(st, c[i..]) == SplitState(normal, thinking + c[i..], true);
      assert |c[|c|..]| == 0;
    } else {
      assert Emit(st, c[i..idx]).(insideThink := false) == SplitState(normal, thinking + c[i..idx], false);
    }
  }

  /**
   * The body of the inner loop outside a block: copy up to the next
   * `<think>` into the visible text and enter the block, or copy the rest of
   * the chunk.
   */
  method OutsidePass(contentChunk: string, i: nat, normal0: string, thinking: string)
    returns (next: nat, normalText: string, insideThink: bool)
    requires i < |contentChunk|
    ensures i < next <= |contentChunk|
    ensures Scan(contentChunk[next..], SplitState(normalText, thinking, insideThink))
            == Scan(contentChunk[i..], SplitState(normal0, thinking, false))
  {
    var idxOpen := Find(contentChunk, OpenTag, i);
    OutsideStep(contentChunk, i, normal0, thinking, idxOpen);
    if idxOpen == -1 {
      normalText := normal0 + contentChunk[i..];
      insideThink := false;
      next := |contentChunk|;
    } else {
      normalText := normal0 + contentChunk[i..idxOpen];
      insideThink := true;
      next := idxOpen + |OpenTag|;
    }
  }

  /**
   * The body of the inner loop inside a block: copy up to the next
   * `</think>` into the reasoning and leave the block, or copy the rest of
   * the chunk.
   */
  method InsidePass(contentChunk: string, i: nat, normal: string, thinking0: string)
    returns (next: nat, thinkingText: string, insideThink: bool)
    requires i < |contentChunk|
    ensures i < next <= |contentChunk|
    ensures Scan(contentChunk[next..], SplitState(normal, thinkingText, insideThink))
            == Scan(contentChunk[i..], SplitState(normal, thinking0, true))
  {
    var idxClose := Find(contentChunk, CloseTag, i);
    InsideStep(contentChunk, i, normal, thinking0, idxClose);
    if idxClose == -1 {
      thinkingText := thinking0 + contentChunk[i..];
      insideThink := true;
      next := |contentChunk|;
    } else {
      thinkingText := thinking0 + contentChunk[i..idxClose];
      insideThink := false;
      next := idxClose + |CloseTag|;
    }
  }

  /**
   * The inner `while i < len(content_chunk)` loop of `process_streamed_response`:
   * scans one chunk's content, starting from the state left by the previous chunks.
   */
  method ScanContent(contentChunk: string, normal0: string, thinking0: string, inside0: bool)
    returns (normalText: string, thinkingText: string, insideThink: bool)
    ensures SplitState(normalText, thinkingText, insideThink) == Scan(contentChunk, SplitState(normal0, thinking0, inside0))
  {
    normalText, thinkingText, insideThink := normal0, thinking0, inside0;
    ghost var target := Scan(contentChunk, SplitState(normal0, thinking0, inside0));
    var i := 0;
    while i < |contentChunk|
      invariant 0 <= i <= |contentChunk|
      invariant Scan(contentChunk[i..], SplitState(normalText, thinkingText, insideThink)) == target
      decreases |contentChunk| - i
    {
      if !insideThink {
        i, normalText, insideThink := OutsidePass(contentChunk, i, normalText, thinkingText);
      } else {
        i, thinkingText, insideThink := InsidePass(contentChunk, i, normalText, thinkingText);
      }
    }
    assert |contentChunk[i..]| == 0;
  }

  /**
   * `process_streamed_response`, without the rendering calls: returns
   * `(final_text, final_thinking)`.
   */
  method ProcessStreamedResponse(stream: seq<Chunk>) returns (finalText: string, finalThinking: string)
    ensures finalText == Process(stream).normal
    ensures finalThinking == Process(stream).thinking
  {
    var normalText, thinkingText, insideThink := "", "", false;
    for n := 0 to |stream|
      invariant SplitState(normalText, thinkingText, insideThink) == Process(stream[..n])
    {
      assert stream[..n + 1][..n] == stream[..n];
      var chunk := stream[n];
      if chunk.Falsy? || chunk.message.None? || chunk.message.value.content.None? {
        continue;
      }
      var contentChunk := chunk.message.value.content.value;
      normalText, thinkingText, insideThink := ScanContent(contentChunk, normalText, thinkingText, insideThink);
    }
    assert stream[..|stream|] == stream;
    finalText := normalText;
    finalThinking := thinkingText;
  }

  /** A skipped chunk changes nothing. */
  lemma SkippedChunk(stream: seq<Chunk>, chunk: Chunk)
    requires !IsValidChunk(chunk)
    ensures Process(stream + [chunk]) == Process(stream)
  {
    assert (stream + [chunk])[..|stream|] == stream;
  }

  /**
   * The state after a prefix of the stream is a prefix of the final state:
   * what has been shown live is never taken back.
   */
  lemma {:induction false} ProcessGrows(stream: seq<Chunk>, more: seq<Chunk>)
    ensures Process(stream).normal <= Process(stream + more).normal
    ensures Process(stream).thinking <= Process(stream + more).thinking
    decreases |more|
  {
    if |more| != 0 {
      var init := more[..|more| - 1];
      assert (stream + more)[..|stream + more| - 1] == stream + init;
      assert (stream + more)[|stream + more| - 1] == more[|more| - 1];
      ProcessGrows(stream, init);
      var mid := Process(stream + init);
      assert Process(stream + more) == FeedChunk(mid, more[|more| - 1]);
    } else {
      assert stream + more == stream;
    }
  }

  /** Number of `<think>` tags the scan of `rest` consumes. */
  function OpensSeen(rest: string, inside: bool): nat
    decreases |rest|
  {
    if |rest| == 0 then 0
    else
      var idx := Find(rest, Awaited(inside), 0);
      if idx == -1 then 0
      else (if inside then 0 else 1) + OpensSeen(rest[idx + |Awaited(inside)|..], !inside)
  }

  /** Number of `</think>` tags the scan of `rest` consumes. */
  function ClosesSeen(rest: string, inside: bool): nat
    decreases |rest|
  {
    if |rest| == 0 then 0
    else
      var idx := Find(rest, Awaited(inside), 0);
      if idx == -1 then 0
      else (if inside then 1 else 0) + ClosesSeen(rest[idx + |Awaited(inside)|..], !inside)
  }

  /**
   * Every character of a chunk goes to exactly one place: the visible text,
   * the reasoning text, or a consumed tag.
   */
  lemma {:induction false} ScanAccounts(rest: string, st: SplitState)
    ensures |rest| == (|Scan(rest, st).normal| - |st.normal|) + (|Scan(rest, st).thinking| - |st.thinking|)
                      + 7 * OpensSeen(rest, st.insideThink) + 8 * ClosesSeen(rest, st.insideThink)
    decreases |rest|
  {
    if |rest| != 0 {
      var tag := Awaited(st.insideThink);
      var idx := Find(rest, tag, 0);
      if idx != -1 {
        ScanAccounts(rest[idx + |tag|..], Emit(st, rest[..idx]).(insideThink := !st.insideThink));
      }
    }
  }

  /** The tags alternate, so the final mode is decided by how many of each the scan consumed. */
  lemma {:induction false} ScanAlternates(rest: string, st: SplitState)
    ensures OpensSeen(rest, st.insideThink) - ClosesSeen(rest, st.insideThink)
            == (if Scan(rest, st).insideThink then 1 else 0) - (if st.insideThink then 1 else 0)
    decreases |rest|
  {
    if |rest| != 0 {
      var tag := Awaited(st.insideThink);
      var idx := Find(rest, tag, 0);
      if idx != -1 {
        ScanAlternates(rest[idx + |tag|..], Emit(st, rest[..idx]).(insideThink := !st.insideThink));
      }
    }
  }

  /** Tags consumed over the whole stream. */
  function StreamOpens(stream: seq<Chunk>): nat
  {
    if |stream| == 0 then 0
    else
      var prev := stream[..|stream| - 1];
      var last := stream[|stream| - 1];
      StreamOpens(prev)
      + (if IsValidChunk(last) then OpensSeen(ExtractChunkContent(last).value, Process(prev).insideThink) else 0)
  }

  function StreamCloses(stream: seq<Chunk>): nat
  {
    if |stream| == 0 then 0
    else
      var prev := stream[..|stream| - 1];
      var last := stream[|stream| - 1];
      StreamCloses(prev)
      + (if IsValidChunk(last) then ClosesSeen(ExtractChunkContent(last).value, Process(prev).insideThink) else 0)
  }

  /**
   * Over the whole stream: the received text splits into the visible text,
   * the reasoning text, 7 characters per `<think>` and 8 per `</think>`; and
   * there is one more `<think>` than `</think>` exactly when a block is left open.
   */
  lemma {:induction false} StreamAccounts(stream: seq<Chunk>)
    ensures |StreamText(stream)| == |Process(stream).normal| + |Process(stream).thinking|
                                    + 7 * StreamOpens(stream) + 8 * StreamCloses(stream)
    ensures StreamOpens(stream) == StreamCloses(stream) + (if Process(stream).insideThink then 1 else 0)
  {
    if |stream| != 0 {
      var prev := stream[..|stream| - 1];
      var last := stream[|stream| - 1];
      StreamAccounts(prev);
      if IsValidChunk(last) {
        ScanAccounts(ExtractChunkContent(last).value, Process(prev));
        ScanAlternates(ExtractChunkContent(last).value, Process(prev));
      }
    }
  }

  /** Outside a block, a chunk without a whole `<think>` is copied to the visible text, tag pieces included. */
  lemma VisibleWithoutOpenTag(c: string, st: SplitState)
    requires !st.insideThink
    requires forall j :: !OccursAt(c, OpenTag, j)
    ensures Scan(c, st) == st.(normal := st.normal + c)
  {
    if |c| != 0 {
      FindIs(c, OpenTag, 0, -1);
    }
  }

  /**
   * Inside a block, a chunk without a whole `</think>` goes entirely to the
   * reasoning text and the block stays open: an unclosed block ends up in
   * `final_thinking`, never in `final_text`.
   */
  lemma ReasoningWithoutCloseTag(c: string, st: SplitState)
    requires st.insideThink
    requires forall j :: !OccursAt(c, CloseTag, j)
    ensures Scan(c, st) == st.(thinking := st.thinking + c)
  {
    if |c| != 0 {
      FindIs(c, CloseTag, 0, -1);
    }
  }

  /** No occurrence of either tag crosses position `cut` of `s`. */
  predicate NoTagAcross(s: string, cut: int)
  {
    && (forall j :: j < cut < j + |OpenTag| ==> !OccursAt(s, OpenTag, j))
    && (forall j :: j < cut < j + |CloseTag| ==> !OccursAt(s, CloseTag, j))
  }

  /** An occurrence in a suffix of `s` is an occurrence in `s`, shifted. */
  lemma OccursInDrop(s: string, m: nat, sub: string, j: int)
    requires m <= |s| && 0 <= j
    ensures OccursAt(s[m..], sub, j) <==> OccursAt(s, sub, m + j)
  {
    if j + |sub| <= |s| - m {
      assert s[m..][j..j + |sub|] == s[m + j..m + j + |sub|];
    }
  }

  /** Dropping the first `m` characters keeps the seam free of tags. */
  lemma NoTagAcrossDrop(s: string, m: nat, cut: int)
    requires m <= |s| && m <= cut
    requires NoTagAcross(s, cut)
    ensures NoTagAcross(s[m..], cut - m)
  {
    forall j | j < cut - m < j + |OpenTag| && OccursAt(s[m..], OpenTag, j)
      ensures false
    {
      OccursInDrop(s, m, OpenTag, j);
    }
    forall j | j < cut - m < j + |CloseTag| && OccursAt(s[m..], CloseTag, j)
      ensures false
    {
      OccursInDrop(s, m, CloseTag, j);
    }
  }

  /** With no occurrence of `sub` in `a` and none across the seam, the search of `a + b` resumes in `b`. */
  lemma FindAcrossSeam(a: string, b: string, sub: string)
    requires Find(a, sub, 0) == -1
    requires forall j :: j < |a| < j + |sub| ==> !OccursAt(a + b, sub, j)
    ensures Find(a + b, sub, 0) == (if Find(b, sub, 0) == -1 then -1 else |a| + Find(b, sub, 0))
  {
    NothingBeforeSeam(a, b, sub);
    FindInSuffix(a, b, sub, 0);
    var r := Find(a + b, sub, |a|);
    FindSpec(a + b, sub, |a|);
    FindIs(a + b, sub, 0, r);
  }

  /** No occurrence in `a + b` starts inside `a` when none lies within `a` or across the seam. */
  lemma NothingBeforeSeam(a: string, b: string, sub: string)
    requires Find(a, sub, 0) == -1
    requires forall j :: j < |a| < j + |sub| ==> !OccursAt(a + b, sub, j)
    ensures forall j :: 0 <= j < |a| ==> !OccursAt(a + b, sub, j)
  {
    FindSpec(a, sub, 0);
    forall j | 0 <= j < |a|
      ensures !OccursAt(a + b, sub, j)
    {
      if j + |sub| <= |a| {
        OccursInPrefix(a, b, sub, j);
      }
    }
  }

  /** Emitting twice into the same channel is emitting the concatenation. */
  lemma EmitTwice(st: SplitState, x: string, y: string)
    ensures Emit(Emit(st, x), y) == Emit(st, x + y)
  {
    if st.insideThink {
      assert st.thinking + x + y == st.thinking + (x + y);
    } else {
      assert st.normal + x + y == st.normal + (x + y);
    }
  }

  /** Slicing `a + b` at positions inside `b`. */
  lemma SlicesPastSeam(a: string, b: string, q: nat, n: nat)
    requires q + n <= |b|
    ensures (a + b)[..|a| + q] == a + b[..q]
    ensures (a + b)[|a| + q + n..] == b[q + n..]
  {
  }

  /** The slices and states both sides of `ScanAfterSeam` step to. */
  lemma SeamPieces(a: string, b: string, st: SplitState, q: nat, tag: string, next: string, mid: SplitState)
    requires q + |tag| <= |b|
    requires next == b[q + |tag|..] && mid == Emit(st, a + b[..q]).(insideThink := !st.insideThink)
    ensures next == (a + b)[|a| + q + |tag|..]
    ensures mid == Emit(st, (a + b)[..|a| + q]).(insideThink := !st.insideThink)
    ensures mid == Emit(Emit(st, a), b[..q]).(insideThink := !Emit(st, a).insideThink)
  {
    SlicesPastSeam(a, b, q, |tag|);
    EmitTwice(st, a, b[..q]);
  }

  /** `b` scanned after `a` was emitted whole: one step to the tag. */
  lemma SeamLeft(a: string, b: string, st: SplitState, q: int, next: string, mid: SplitState)
    requires |b| != 0
    requires q == Find(b, Awaited(st.insideThink), 0) && q != -1
    requires next == b[q + |Awaited(st.insideThink)|..]
    requires mid == Emit(st, a + b[..q]).(insideThink := !st.insideThink)
    ensures Scan(b, Emit(st, a)) == Scan(next, mid)
  {
    SeamPieces(a, b, st, q, Awaited(st.insideThink), next, mid);
    ScanStep(b, Emit(st, a), q, next, mid);
  }

  /** `a + b` scanned from the start: one step to the same tag. */
  lemma SeamRight(a: string, b: string, st: SplitState, q: int, next: string, mid: SplitState)
    requires |b| != 0
    requires q == Find(b, Awaited(st.insideThink), 0) && q != -1
    requires Find(a + b, Awaited(st.insideThink), 0) == |a| + q
    requires next == b[q + |Awaited(st.insideThink)|..]
    requires mid == Emit(st, a + b[..q]).(insideThink := !st.insideThink)
    ensures Scan(a + b, st) == Scan(next, mid)
  {
    SeamPieces(a, b, st, q, Awaited(st.insideThink), next, mid);
    ScanStep(a + b, st, |a| + q, next, mid);
  }

  /** The first awaited tag of `a + b` is the first of `b`, found after `a` has been emitted whole. */
  lemma ScanAfterSeam(a: string, b: string, st: SplitState, q: int)
    requires |b| != 0
    requires q == Find(b, Awaited(st.insideThink), 0) && q != -1
    requires Find(a + b, Awaited(st.insideThink), 0) == |a| + q
    ensures Scan(b, Emit(st, a)) == Scan(a + b, st)
  {
    var tag := Awaited(st.insideThink);
    var next := b[q + |tag|..];
    var mid := Emit(st, a + b[..q]).(insideThink := !st.insideThink);
    SeamLeft(a, b, st, q, next, mid);
    SeamRight(a, b, st, q, next, mid);
  }

  /** `a` holds no awaited tag, so scanning it emits it whole. */
  lemma EmitWhole(a: string, st: SplitState)
    requires |a| != 0 && Find(a, Awaited(st.insideThink), 0) == -1
    ensures Scan(a, st) == Emit(st, a)
  {
    ScanUnfold(a, st, -1);
  }

  /** Neither `b` nor the seam holds an awaited tag: `a + b` is emitted whole. */
  lemma EmitBothWhole(a: string, b: string, st: SplitState)
    requires |b| != 0
    requires Find(b, Awaited(st.insideThink), 0) == -1 && Find(a + b, Awaited(st.insideThink), 0) == -1
    ensures Scan(b, Emit(st, a)) == Scan(a + b, st)
  {
    EmitWhole(b, Emit(st, a));
    EmitWhole(a + b, st);
    EmitTwice(st, a, b);
  }

  /** `ScanSplit` where `a` holds no awaited tag. */
  lemma ScanSplitNoTag(a: string, b: string, st: SplitState)
    requires |a| != 0
    requires NoTagAcross(a + b, |a|)
    requires Find(a, Awaited(st.insideThink), 0) == -1
    ensures Scan(b, Scan(a, st)) == Scan(a + b, st)
  {
    var tag := Awaited(st.insideThink);
    assert forall j :: j < |a| < j + |tag| ==> !OccursAt(a + b, tag, j);
    FindAcrossSeam(a, b, tag);
    EmitWhole(a, st);
    if |b| == 0 {
      assert a + b == a;
    } else {
      var q := Find(b, tag, 0);
      if q == -1 {
        EmitBothWhole(a, b, st);
      } else {
        ScanAfterSeam(a, b, st, q);
      }
    }
  }

  /** The first step of scanning `a + b` when the awaited tag lies inside `a`. */
  lemma StepInPrefix(a: string, b: string, st: SplitState, idx: int, e: SplitState)
    requires |a| != 0
    requires idx == Find(a, Awaited(st.insideThink), 0) && idx != -1
    requires e == Emit(st, a[..idx]).(insideThink := !st.insideThink)
    ensures Scan(a + b, st) == Scan(a[idx + |Awaited(st.insideThink)|..] + b, e)
  {
    var tag := Awaited(st.insideThink);
    var m := idx + |tag|;
    FindInPrefix(a, b, tag, 0);
    assert (a + b)[..idx] == a[..idx];
    assert (a + b)[m..] == a[m..] + b;
    ScanStep(a + b, st, idx, a[m..] + b, e);
  }

  /** Dropping a prefix of `a` keeps the seam with `b` tag-free. */
  lemma SeamAfterStep(a: string, b: string, m: nat)
    requires m <= |a|
    requires NoTagAcross(a + b, |a|)
    ensures NoTagAcross(a[m..] + b, |a[m..]|)
  {
    assert (a + b)[m..] == a[m..] + b;
    NoTagAcrossDrop(a + b, m, |a|);
  }

  /** Scanning `a` and then `b` is scanning `a + b`, when no tag crosses the seam. */
  lemma {:induction false} ScanSplit(a: string, b: string, st: SplitState)
    requires NoTagAcross(a + b, |a|)
    ensures Scan(b, Scan(a, st)) == Scan(a + b, st)
    decreases |a|
  {
    if |a| == 0 {
      assert a + b == b;
    } else {
      var tag := Awaited(st.insideThink);
      var idx := Find(a, tag, 0);
      if idx == -1 {
        ScanSplitNoTag(a, b, st);
      } else {
        var m := idx + |tag|;
        var e := Emit(st, a[..idx]).(insideThink := !st.insideThink);
        ScanStep(a, st, idx, a[m..], e);
        StepInPrefix(a, b, st, idx, e);
        SeamAfterStep(a, b, m);
        ScanSplit(a[m..], b, e);
      }
    }
  }

  /** Every tag occurrence of the received text lies wholly inside one chunk. */
  predicate TagsWithinChunks(stream: seq<Chunk>)
  {
    forall k :: 0 <= k <= |stream| ==> NoTagAcross(StreamText(stream), |StreamText(stream[..k])|)
  }

  /** A tag-free seam of `t + tail` inside `t` is a tag-free seam of `t`. */
  lemma NoTagAcrossPrefix(t: string, tail: string, cut: int)
    requires cut <= |t|
    requires NoTagAcross(t + tail, cut)
    ensures NoTagAcross(t, cut)
  {
    forall j | j < cut < j + |OpenTag| && OccursAt(t, OpenTag, j)
      ensures false
    {
      OccursInPrefix(t, tail, OpenTag, j);
    }
    forall j | j < cut < j + |CloseTag| && OccursAt(t, CloseTag, j)
      ensures false
    {
      OccursInPrefix(t, tail, CloseTag, j);
    }
  }

  /**
   * When no tag is split between chunks, the chunking does not matter: the
   * result is that of the whole received text sent as a single chunk.
   */
  lemma {:induction false} ChunkingIrrelevant(stream: seq<Chunk>)
    requires TagsWithinChunks(stream)
    ensures Process(stream) == Scan(StreamText(stream), Start)
  {
    if |stream| != 0 {
      var prev := stream[..|stream| - 1];
      var last := stream[|stream| - 1];
      var t := StreamText(prev);
      var whole := StreamText(stream);
      var tail := if IsValidChunk(last) then ExtractChunkContent(last).value else "";
      assert whole == t + tail;
      forall k | 0 <= k <= |prev|
        ensures NoTagAcross(t, |StreamText(prev[..k])|)
      {
        assert prev[..k] == stream[..k];
        StreamTextPrefix(prev, k);
        NoTagAcrossPrefix(t, tail, |StreamText(stream[..k])|);
      }
      ChunkingIrrelevant(prev);
      if IsValidChunk(last) {
        assert NoTagAcross(whole, |StreamText(stream[..|stream| - 1])|);
        ScanSplit(t, tail, Start);
      } else {
        assert whole == t;
      }
    }
  }
}
