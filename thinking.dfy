/**
 * The batch reasoning extractor (`extract_thinking`,
 * `format_message_with_thinking`): finds the complete `<think>...</think>`
 * blocks of a whole message the way the lazy pattern `<think>(.*?)</think>`
 * does, joins their contents, and removes them from the visible text.
 */
module Thinking {
  import opened Wrappers
  import opened Text

  /** A complete block: `<think>` at index `open`, the `</think>` that closes it at index `close`. */
  datatype Block = Block(open: nat, close: nat)

  /**
   * The leftmost match of `<think>(.*?)</think>`: the first `<think>`, closed
   * by the first `</think>` after it. When the first `<think>` has no
   * `</think>` after it, no later one has either, so there is no match.
   */
  function FirstBlock(s: string): (r: Option<Block>)
    ensures r.Some? ==> r.value.open + |OpenTag| <= r.value.close && r.value.close + |CloseTag| <= |s|
  {
    var p := Find(s, OpenTag, 0);
    if p == -1 then None
    else
      var c := Find(s, CloseTag, p + |OpenTag|);
      if c == -1 then None else Some(Block(p, c))
  }

  /** The text between the tags of a block. */
  function Inner(s: string, b: Block): string
    requires b.open + |OpenTag| <= b.close <= |s|
  {
    s[b.open + |OpenTag|..b.close]
  }

  /** The text after a block. */
  function After(s: string, b: Block): string
    requires b.close + |CloseTag| <= |s|
  {
    s[b.close + |CloseTag|..]
  }

  /**
   * `FirstBlock` finds the leftmost `<think>` and the first `</think>` after
   * it; and it finds nothing exactly when no `<think>` is followed by a `</think>`.
   */
  lemma FirstBlockSpec(s: string)
    ensures FirstBlock(s).Some? ==>
              var b := FirstBlock(s).value;
              && OccursAt(s, OpenTag, b.open) && OccursAt(s, CloseTag, b.close)
              && (forall j :: 0 <= j < b.open ==> !OccursAt(s, OpenTag, j))
              && (forall j :: b.open + |OpenTag| <= j < b.close ==> !OccursAt(s, CloseTag, j))
    ensures FirstBlock(s).None? <==>
              forall p, c :: OccursAt(s, OpenTag, p) && p + |OpenTag| <= c ==> !OccursAt(s, CloseTag, c)
  {
    FindSpec(s, OpenTag, 0);
    var p := Find(s, OpenTag, 0);
    if p != -1 {
      FindSpec(s, CloseTag, p + |OpenTag|);
      var c := Find(s, CloseTag, p + |OpenTag|);
      if c != -1 {
        assert OccursAt(s, OpenTag, p) && p + |OpenTag| <= c && OccursAt(s, CloseTag, c);
      }
    }
  }

  /** The contents of all complete blocks, leftmost first (`re.findall`). */
  function Blocks(s: string): (r: seq<string>)
    ensures r == [] <==> FirstBlock(s).None?
    ensures r != [] ==> r[0] == Inner(s, FirstBlock(s).value)
    decreases |s|
  {
    match FirstBlock(s)
    case None => []
    case Some(b) => [Inner(s, b)] + Blocks(After(s, b))
  }

  /** The text with every complete block removed (`re.sub(pattern, '', s)`). */
  function RemoveBlocks(s: string): (r: string)
    ensures |r| <= |s|
    decreases |s|
  {
    match FirstBlock(s)
    case None => s
    case Some(b) => s[..b.open] + RemoveBlocks(After(s, b))
  }

  /**
   * Removal takes out exactly the blocks: every character of the text is in
   * the result, in a block's contents, or in one of its two tags.
   */
  lemma {:induction false} RemoveAccounts(s: string)
    ensures |s| == |RemoveBlocks(s)| + TotalLength(Blocks(s)) + (|OpenTag| + |CloseTag|) * |Blocks(s)|
    decreases |s|
  {
    match FirstBlock(s)
    case None =>
    case Some(b) =>
      var rest := After(s, b);
      RemoveAccounts(rest);
      var bs := [Inner(s, b)] + Blocks(rest);
      assert bs[1..] == Blocks(rest);
  }

  /** The text is left untouched exactly when it holds no complete block. */
  lemma RemoveUnchangedIff(s: string)
    ensures RemoveBlocks(s) == s <==> |Blocks(s)| == 0
  {
    RemoveAccounts(s);
    match FirstBlock(s)
    case None =>
    case Some(b) =>
      assert |Blocks(s)| >= 1;
      assert |RemoveBlocks(s)| < |s|;
  }

  /** The first complete block of a text stays the first one whatever is appended. */
  lemma FirstBlockExtends(s: string, t: string)
    requires FirstBlock(s).Some?
    ensures FirstBlock(s + t) == FirstBlock(s)
  {
    var p := Find(s, OpenTag, 0);
    FindInPrefix(s, t, OpenTag, 0);
    FindInPrefix(s, t, CloseTag, p + |OpenTag|);
  }

  /** The non-whitespace characters of `s`, in order. */
  function NonSpace(s: string): (r: string)
    ensures |r| <= |s|
  {
    if |s| == 0 then ""
    else if IsSpace(s[0]) then NonSpace(s[1..])
    else [s[0]] + NonSpace(s[1..])
  }

  lemma {:induction false} NonSpaceAppend(a: string, b: string)
    ensures NonSpace(a + b) == NonSpace(a) + NonSpace(b)
    decreases |a|
  {
    if |a| == 0 {
      assert a + b == b;
    } else {
      assert (a + b)[0] == a[0];
      assert (a + b)[1..] == a[1..] + b;
      NonSpaceAppend(a[1..], b);
    }
  }

  lemma {:induction false} NonSpaceOfSpace(s: string)
    requires AllSpace(s)
    ensures NonSpace(s) == ""
    decreases |s|
  {
    if |s| != 0 {
      NonSpaceOfSpace(s[1..]);
    }
  }

  lemma {:induction false} NonSpaceTrimLeft(s: string)
    ensures NonSpace(TrimLeft(s)) == NonSpace(s)
    decreases |s|
  {
    if |s| != 0 && IsSpace(s[0]) {
      NonSpaceTrimLeft(s[1..]);
    }
  }

  lemma {:induction false} NonSpaceTrimRight(s: string)
    ensures NonSpace(TrimRight(s)) == NonSpace(s)
    decreases |s|
  {
    if |s| != 0 && IsSpace(s[|s| - 1]) {
      var init := s[..|s| - 1];
      NonSpaceTrimRight(init);
      assert s == init + [s[|s| - 1]];
      NonSpaceAppend(init, [s[|s| - 1]]);
      NonSpaceOfSpace([s[|s| - 1]]);
    }
  }

  /** Stripping removes no visible character. */
  lemma NonSpaceStrip(s: string)
    ensures NonSpace(Strip(s)) == NonSpace(s)
  {
    assert Strip(s) == TrimRight(TrimLeft(s));
    NonSpaceTrimLeft(s);
    NonSpaceTrimRight(TrimLeft(s));
  }

  /** Length of the whitespace run at the start of `s`. */
  function SpaceRun(s: string): (n: nat)
    ensures n <= |s| && AllSpace(s[..n])
    ensures n == |s| || !IsSpace(s[n])
  {
    if |s| == 0 || !IsSpace(s[0]) then 0
    else
      var n := 1 + SpaceRun(s[1..]);
      assert s[..n] == [s[0]] + s[1..][..n - 1];
      n
  }

  /** The index of the last line feed of `s`, if any. */
  function LastNewline(s: string): (r: Option<nat>)
    ensures r.Some? ==> r.value < |s| && s[r.value] == '\n'
    ensures r.Some? ==> forall k :: r.value < k < |s| ==> s[k] != '\n'
    ensures r.None? ==> forall k :: 0 <= k < |s| ==> s[k] != '\n'
  {
    if |s| == 0 then None
    else if s[|s| - 1] == '\n' then Some(|s| - 1)
    else LastNewline(s[..|s| - 1])
  }

  /**
   * `re.sub(r'\n\s*\n', '\n\n', s)`: at a line feed, the greedy `\s*` takes
   * the whole whitespace run after it and gives back characters until a
   * line feed follows, so the match ends at the last line feed of that run.
   * A line feed whose run holds no other line feed is kept as it is.
   */
  function CollapseBlankLines(s: string): (r: string)
    ensures |r| <= |s|
    decreases |s|
  {
    if |s| == 0 then ""
    else if s[0] != '\n' then [s[0]] + CollapseBlankLines(s[1..])
    else
      var run := SpaceRun(s[1..]);
      match LastNewline(s[1..1 + run])
      case None => "\n" + CollapseBlankLines(s[1..])
      case Some(k) => "\n\n" + CollapseBlankLines(s[k + 2..])
  }

  /** A line feed followed by part of its whitespace run is all whitespace. */
  lemma RunIsSpace(s: string, run: nat, k: nat)
    requires |s| != 0 && s[0] == '\n'
    requires run == SpaceRun(s[1..]) && k < run
    ensures AllSpace(s[..k + 2])
  {
    forall j | 1 <= j < k + 2
      ensures IsSpace(s[j])
    {
      assert s[j] == s[1..][..run][j - 1];
    }
  }

  /** Collapsing blank lines only ever removes whitespace. */
  lemma {:induction false} CollapseKeepsText(s: string)
    ensures NonSpace(CollapseBlankLines(s)) == NonSpace(s)
    decreases |s|
  {
    if |s| != 0 {
      var e := Consumed(s);
      CollapseStep(s);
      CollapseKeepsText(s[e..]);
      NonSpaceAppend(Produced(s), CollapseBlankLines(s[e..]));
      StepKeepsText(s);
      SplitAt(s, e);
      NonSpaceAppend(s[..e], s[e..]);
    }
  }

  /** A text is its part before an index followed by its part from there. */
  lemma SplitAt(s: string, e: nat)
    requires e <= |s|
    ensures s == s[..e] + s[e..]
  {
  }

  /** One step of the collapse keeps the visible characters it consumes. */
  lemma StepKeepsText(s: string)
    requires |s| != 0
    ensures NonSpace(Produced(s)) == NonSpace(s[..Consumed(s)])
  {
    if s[0] == '\n' {
      NonSpaceOfSpace(Produced(s));
      match BreakAt(s)
      case None =>
        assert s[..1] == "\n";
        NonSpaceOfSpace(s[..1]);
      case Some(k) =>
        RunIsSpace(s, SpaceRun(s[1..]), k);
        NonSpaceOfSpace(s[..k + 2]);
    } else {
      assert s[..1] == [s[0]];
    }
  }

  /** A text without line feeds has no blank line to collapse. */
  lemma {:induction false} CollapseWithoutNewline(s: string)
    requires '\n' !in s
    ensures CollapseBlankLines(s) == s
    decreases |s|
  {
    if |s| != 0 {
      assert s[0] != '\n';
      CollapseWithoutNewline(s[1..]);
    }
  }

  /** A visible character after `u` does not lengthen its leading whitespace run. */
  lemma {:induction false} SpaceRunAppend(u: string, v: string)
    requires |v| != 0 && !IsSpace(v[0])
    ensures SpaceRun(u + v) == SpaceRun(u)
    decreases |u|
  {
    if |u| == 0 {
      assert u + v == v;
    } else {
      assert (u + v)[0] == u[0];
      if IsSpace(u[0]) {
        assert (u + v)[1..] == u[1..] + v;
        SpaceRunAppend(u[1..], v);
      }
    }
  }

  /** The match at a line feed, if any, ends at the last line feed of its whitespace run. */
  function BreakAt(s: string): Option<nat>
    requires |s| != 0
  {
    LastNewline(s[1..1 + SpaceRun(s[1..])])
  }

  /** The collapse at a character other than a line feed keeps it. */
  lemma CollapseAtText(s: string)
    requires |s| != 0 && s[0] != '\n'
    ensures CollapseBlankLines(s) == [s[0]] + CollapseBlankLines(s[1..])
  {
  }

  /** The collapse at a line feed alone in its whitespace run keeps it. */
  lemma CollapseAtLoneBreak(s: string)
    requires |s| != 0 && s[0] == '\n' && BreakAt(s).None?
    ensures CollapseBlankLines(s) == "\n" + CollapseBlankLines(s[1..])
  {
  }

  /** The collapse at a line feed followed by a blank-line run replaces the run by one blank line. */
  lemma CollapseAtBlankRun(s: string, k: nat)
    requires |s| != 0 && s[0] == '\n' && BreakAt(s) == Some(k)
    ensures k + 2 <= |s| && CollapseBlankLines(s) == "\n\n" + CollapseBlankLines(s[k + 2..])
  {
  }

  /** How many characters of `s` one step of the collapse consumes. */
  function Consumed(s: string): (n: nat)
    requires |s| != 0
    ensures 1 <= n <= |s|
  {
    if s[0] != '\n' then 1
    else
      match BreakAt(s)
      case None => 1
      case Some(k) => k + 2
  }

  /** What one step of the collapse produces for the characters it consumes. */
  function Produced(s: string): string
    requires |s| != 0
  {
    if s[0] != '\n' then [s[0]]
    else if BreakAt(s).None? then "\n"
    else "\n\n"
  }

  /** The collapse is its first step followed by the collapse of the rest. */
  lemma CollapseStep(s: string)
    requires |s| != 0
    ensures CollapseBlankLines(s) == Produced(s) + CollapseBlankLines(s[Consumed(s)..])
  {
    if s[0] != '\n' {
      CollapseAtText(s);
    } else if BreakAt(s).None? {
      CollapseAtLoneBreak(s);
    } else {
      CollapseAtBlankRun(s, BreakAt(s).value);
    }
  }

  /** A visible character after the first step's characters does not change that step. */
  lemma StepAroundText(x: string, c: char, y: string)
    requires !IsSpace(c) && |x| != 0
    ensures Consumed(x + [c] + y) == Consumed(x) && Produced(x + [c] + y) == Produced(x)
    ensures (x + [c] + y)[Consumed(x)..] == x[Consumed(x)..] + [c] + y
  {
    assert (x + [c] + y)[0] == x[0];
    if x[0] == '\n' {
      BreakAroundText(x, c, y);
    }
  }

  /**
   * The pattern never matches across a visible character, so the collapse
   * of a text works on each side of one independently.
   */
  lemma {:induction false} CollapseAroundText(x: string, c: char, y: string)
    requires !IsSpace(c)
    ensures CollapseBlankLines(x + [c] + y) == CollapseBlankLines(x) + [c] + CollapseBlankLines(y)
    decreases |x|
  {
    if |x| == 0 {
      assert x + [c] + y == [c] + y;
      CollapseAtText([c] + y);
      assert ([c] + y)[1..] == y;
    } else {
      var e := Consumed(x);
      var rest := x[e..];
      StepAroundText(x, c, y);
      CollapseStep(x + [c] + y);
      CollapseStep(x);
      CollapseAroundText(rest, c, y);
      AppendAround(Produced(x), CollapseBlankLines(rest), [c], CollapseBlankLines(y));
    }
  }

  /** Concatenation regrouped around a middle piece. */
  lemma AppendAround(p: string, a: string, m: string, b: string)
    ensures p + (a + m + b) == (p + a) + m + b
  {
  }

  /** A visible character after a line feed's whitespace run does not change the match there. */
  lemma BreakAroundText(x: string, c: char, y: string)
    requires !IsSpace(c) && |x| != 0
    ensures BreakAt(x + [c] + y) == BreakAt(x)
  {
    var s := x + [c] + y;
    assert s[1..] == x[1..] + ([c] + y);
    SpaceRunAppend(x[1..], [c] + y);
    var run := SpaceRun(x[1..]);
    assert s[1..1 + run] == x[1..1 + run];
  }

  /** A beginning without line feeds is left as it is. */
  lemma {:induction false} CollapseAfterLine(a: string, t: string)
    requires '\n' !in a
    ensures CollapseBlankLines(a + t) == a + CollapseBlankLines(t)
    decreases |a|
  {
    if |a| == 0 {
      assert a + t == t;
    } else {
      assert a[0] in a;
      assert (a + t)[0] == a[0] && (a + t)[1..] == a[1..] + t;
      assert forall x :: x in a[1..] ==> x in a;
      CollapseAtText(a + t);
      CollapseAtText(a);
      CollapseAfterLine(a[1..], t);
    }
  }

  /** A line feed alone in its whitespace run is kept as it is. */
  lemma CollapseSingleBreak(a: string, b: string)
    requires '\n' !in a && '\n' !in b
    ensures CollapseBlankLines(a + "\n" + b) == a + "\n" + b
  {
    var t := "\n" + b;
    assert a + "\n" + b == a + t;
    CollapseAfterLine(a, t);
    assert t[1..] == b;
    var w := b[..SpaceRun(b)];
    assert forall k :: 0 <= k < |w| ==> w[k] == b[k];
    assert BreakAt(t) == LastNewline(w);
    CollapseAtLoneBreak(t);
    CollapseWithoutNewline(b);
  }

  /**
   * Two line feeds with only whitespace between them, and no further line
   * feed around them, become exactly one blank line.
   */
  lemma CollapseBlankRun(a: string, m: string, b: string)
    requires '\n' !in a && '\n' !in b && AllSpace(m)
    ensures CollapseBlankLines(a + "\n" + m + "\n" + b) == a + "\n\n" + b
  {
    var t := "\n" + m + "\n" + b;
    assert a + "\n" + m + "\n" + b == a + t;
    CollapseAfterLine(a, t);
    BlankRunBreak(m, b);
    CollapseAtBlankRun(t, |m|);
    assert t[|m| + 2..] == b;
    CollapseWithoutNewline(b);
  }

  /** A line feed with no line feed after it is the last one. */
  lemma {:induction false} LastNewlineIs(w: string, p: nat)
    requires p < |w| && w[p] == '\n'
    requires forall k :: p < k < |w| ==> w[k] != '\n'
    ensures LastNewline(w) == Some(p)
    decreases |w|
  {
    if p < |w| - 1 {
      var v := w[..|w| - 1];
      assert v[p] == '\n';
      assert forall k :: p < k < |v| ==> v[k] == w[k];
      LastNewlineIs(v, p);
    }
  }

  /** After a line feed, whitespace and a second line feed, the match ends at the last line feed. */
  lemma BlankRunBreak(m: string, b: string)
    requires '\n' !in b && AllSpace(m)
    ensures BreakAt("\n" + m + "\n" + b) == Some(|m|)
  {
    var t := "\n" + m + "\n" + b;
    var u := m + "\n" + b;
    assert t[1..] == u;
    assert u[..|m| + 1] == m + "\n";
    WithinSpaceRun(u, |m|);
    var w := u[..SpaceRun(u)];
    assert w[|m|] == '\n';
    forall k | |m| < k < |w|
      ensures w[k] != '\n'
    {
      assert w[k] == b[k - |m| - 1];
    }
    LastNewlineIs(w, |m|);
    assert t[1..1 + SpaceRun(t[1..])] == w;
  }

  /** No line feed lies in the leading whitespace run of `r`. */
  predicate NoLeadingNewline(r: string)
  {
    forall j :: 0 <= j < SpaceRun(r) ==> r[j] != '\n'
  }

  /** Two line feeds separated by whitespace only are adjacent: no blank-line run is left. */
  predicate NoBlankRun(r: string)
  {
    forall i, k :: 0 <= i < k < |r| && r[i] == '\n' && r[k] == '\n' && AllSpace(r[i..k + 1]) ==> k == i + 1
  }

  /** A whitespace prefix lies within the leading whitespace run. */
  lemma {:induction false} WithinSpaceRun(x: string, j: nat)
    requires j < |x| && AllSpace(x[..j + 1])
    ensures j < SpaceRun(x)
    decreases j
  {
    assert IsSpace(x[..j + 1][0]);
    if j > 0 {
      assert x[1..][..j] == x[..j + 1][1..];
      WithinSpaceRun(x[1..], j - 1);
    }
  }

  /** Dropping part of the leading whitespace run shortens it by as much. */
  lemma {:induction false} SpaceRunDrop(u: string, e: nat)
    requires e <= SpaceRun(u)
    ensures SpaceRun(u[e..]) == SpaceRun(u) - e
    decreases e
  {
    if e > 0 {
      assert IsSpace(u[..SpaceRun(u)][0]);
      assert u[e..] == u[1..][e - 1..];
      SpaceRunDrop(u[1..], e - 1);
    }
  }

  /** Collapsing keeps a leading whitespace run free of line feeds. */
  lemma {:induction false} CollapseKeepsLeading(t: string)
    requires NoLeadingNewline(t)
    ensures NoLeadingNewline(CollapseBlankLines(t))
    decreases |t|
  {
    if |t| != 0 {
      var r1 := CollapseBlankLines(t[1..]);
      var r := CollapseBlankLines(t);
      if IsSpace(t[0]) {
        assert t[0] != '\n';
        assert r == [t[0]] + r1 && r[1..] == r1;
        SpaceRunDrop(t, 1);
        CollapseKeepsLeading(t[1..]);
        assert SpaceRun(r) == 1 + SpaceRun(r1);
      } else {
        assert r[0] == t[0];
      }
    }
  }

  /** A character other than a line feed in front of a text without blank-line runs adds none. */
  lemma BlankRunCons(c: char, r1: string)
    requires c != '\n' && NoBlankRun(r1)
    ensures NoBlankRun([c] + r1)
  {
    var r := [c] + r1;
    forall i, k | 0 <= i < k < |r| && r[i] == '\n' && r[k] == '\n' && AllSpace(r[i..k + 1])
      ensures k == i + 1
    {
      assert r[i..k + 1] == r1[i - 1..k];
    }
  }

  /** Line feeds in front of a text whose leading whitespace has none add no blank-line run. */
  lemma BlankRunAfterBreak(pre: string, r1: string)
    requires pre == "\n" || pre == "\n\n"
    requires NoBlankRun(r1) && NoLeadingNewline(r1)
    ensures NoBlankRun(pre + r1)
  {
    var r := pre + r1;
    var m := |pre|;
    forall i, k | 0 <= i < k < |r| && r[i] == '\n' && r[k] == '\n' && AllSpace(r[i..k + 1])
      ensures k == i + 1
    {
      if i >= m {
        assert r[i..k + 1] == r1[i - m..k - m + 1];
      } else if k >= m {
        var j := k - m;
        assert r1[..j + 1] == r[i..k + 1][m - i..];
        WithinSpaceRun(r1, j);
        assert false;
      }
    }
  }

  /** What follows a collapsed or kept line feed starts with whitespace holding no line feed. */
  lemma TailAfterBreak(s: string, d: nat)
    requires |s| != 0 && s[0] == '\n'
    requires 1 <= d <= 1 + SpaceRun(s[1..])
    requires forall x :: d <= x < 1 + SpaceRun(s[1..]) ==> s[x] != '\n'
    ensures NoLeadingNewline(s[d..])
  {
    assert s[d..] == s[1..][d - 1..];
    SpaceRunDrop(s[1..], d - 1);
    forall j | 0 <= j < SpaceRun(s[d..])
      ensures s[d..][j] != '\n'
    {
      assert s[d..][j] == s[d + j];
    }
  }

  /**
   * `re.sub(r'\n\s*\n', '\n\n', s)` leaves no blank-line run: in the
   * result, two line feeds with only whitespace between them are adjacent.
   */
  lemma {:induction false} CollapseNoBlankRun(s: string)
    ensures NoBlankRun(CollapseBlankLines(s))
    decreases |s|
  {
    if |s| != 0 {
      var e := Consumed(s);
      CollapseStep(s);
      CollapseNoBlankRun(s[e..]);
      if s[0] != '\n' {
        BlankRunCons(s[0], CollapseBlankLines(s[e..]));
      } else {
        StepLeavesNoLeading(s);
        CollapseKeepsLeading(s[e..]);
        BlankRunAfterBreak(Produced(s), CollapseBlankLines(s[e..]));
      }
    }
  }

  /** After the step at a line feed, what is left starts without a line feed in its whitespace run. */
  lemma StepLeavesNoLeading(s: string)
    requires |s| != 0 && s[0] == '\n'
    ensures NoLeadingNewline(s[Consumed(s)..])
  {
    var run := SpaceRun(s[1..]);
    match BreakAt(s)
    case None =>
      forall x | 1 <= x < 1 + run
        ensures s[x] != '\n'
      {
        assert s[x] == s[1..1 + run][x - 1];
      }
      TailAfterBreak(s, 1);
    case Some(k) =>
      forall x | k + 2 <= x < 1 + run
        ensures s[x] != '\n'
      {
        assert s[x] == s[1..1 + run][x - 1];
      }
      TailAfterBreak(s, k + 2);
  }


  /** A piece of a text without blank-line runs has none either. */
  lemma NoBlankRunSlice(r: string, a: nat, b: nat, x: string)
    requires a <= b <= |r| && x == r[a..b] && NoBlankRun(r)
    ensures NoBlankRun(x)
  {
    forall i, k | 0 <= i < k < |x| && x[i] == '\n' && x[k] == '\n' && AllSpace(x[i..k + 1])
      ensures k == i + 1
    {
      var w := r[a + i..a + k + 1];
      forall y | 0 <= y < |w|
        ensures IsSpace(w[y])
      {
        assert w[y] == x[i..k + 1][y];
      }
    }
  }

  /** Stripping a text without blank-line runs leaves none. */
  lemma NoBlankRunStrip(r: string)
    requires NoBlankRun(r)
    ensures NoBlankRun(Strip(r))
  {
    var l := TrimLeft(r);
    NoBlankRunSlice(r, |r| - |l|, |r|, l);
    var t := TrimRight(l);
    NoBlankRunSlice(l, 0, |t|, t);
    assert Strip(r) == t;
  }

  /** Result of `extract_thinking`: the joined reasoning (or `None`) and the cleaned answer. */
  datatype Extraction = Extraction(thinking: Option<string>, clean: string)

  /** The shortest reasoning `extract_thinking` accepts. */
  const MinThinking: nat := 10

  /**
   * `extract_thinking`: the contents of all complete blocks joined by line
   * feeds and stripped, accepted when at least ten characters long; the
   * answer is the text without its blocks, blank lines collapsed, stripped.
   * Otherwise there is no reasoning and the answer is the stripped text.
   */
  function ExtractThinking(text: string): (r: Extraction)
    ensures |text| == 0 ==> r == Extraction(None, "")
    ensures NoOuterSpace(r.clean)
    ensures r.thinking.Some? ==> r.thinking.value == Strip(Join(Blocks(text), "\n"))
    ensures r.thinking.Some? ==> |r.thinking.value| >= MinThinking && NoOuterSpace(r.thinking.value)
    ensures r.thinking.None? ==> r.clean == Strip(text)
    ensures r.thinking.Some? ==> r.clean == Strip(CollapseBlankLines(RemoveBlocks(text)))
    ensures r.thinking.Some? <==> |Blocks(text)| != 0 && |Strip(Join(Blocks(text), "\n"))| >= MinThinking
  {
    if |text| == 0 then Extraction(None, "")
    else
      var matches := Blocks(text);
      if |matches| == 0 then Extraction(None, Strip(text))
      else
        var t := Strip(Join(matches, "\n"));
        if |t| == 0 || |Strip(t)| < MinThinking then Extraction(None, Strip(text))
        else Extraction(Some(t), Strip(CollapseBlankLines(RemoveBlocks(text))))
  }

  /** A text in which no `<think>` is followed by a `</think>` yields no reasoning and is only stripped. */
  lemma NoCompleteBlock(text: string)
    requires forall p, c :: OccursAt(text, OpenTag, p) && p + |OpenTag| <= c ==> !OccursAt(text, CloseTag, c)
    ensures ExtractThinking(text) == Extraction(None, Strip(text))
  {
    FirstBlockSpec(text);
  }

  /** Whatever is extracted, the answer keeps every visible character outside the blocks, in order. */
  lemma ExtractKeepsAnswer(text: string)
    ensures ExtractThinking(text).thinking.Some? ==>
              NonSpace(ExtractThinking(text).clean) == NonSpace(RemoveBlocks(text))
    ensures ExtractThinking(text).thinking.None? ==> NonSpace(ExtractThinking(text).clean) == NonSpace(text)
  {
    var e := ExtractThinking(text);
    if e.thinking.Some? {
      var x := CollapseBlankLines(RemoveBlocks(text));
      assert e.clean == Strip(x);
      NonSpaceStrip(x);
      CollapseKeepsText(RemoveBlocks(text));
    } else {
      assert e.clean == Strip(text);
      NonSpaceStrip(text);
    }
  }

  /** With exactly one block, the reasoning is that block stripped, accepted when at least ten characters long. */
  lemma ExtractSingleBlock(text: string, t: string)
    requires Blocks(text) == [t]
    ensures ExtractThinking(text).thinking.Some? <==> |Strip(t)| >= MinThinking
    ensures ExtractThinking(text).thinking.Some? ==> ExtractThinking(text).thinking.value == Strip(t)
  {
    assert |text| != 0;
    assert Join(Blocks(text), "\n") == t;
    StripIdempotent(t);
  }

  /**
   * With two blocks, the reasoning is their contents joined by a line feed
   * and stripped, accepted when at least ten characters long.
   */
  lemma ExtractTwoBlocks(text: string, t1: string, t2: string)
    requires Blocks(text) == [t1, t2]
    ensures ExtractThinking(text).thinking.Some? <==> |Strip(t1 + "\n" + t2)| >= MinThinking
    ensures ExtractThinking(text).thinking.Some? ==> ExtractThinking(text).thinking.value == Strip(t1 + "\n" + t2)
  {
    assert |text| != 0;
    assert Blocks(text)[1..] == [t2];
    assert Join(Blocks(text), "\n") == t1 + "\n" + t2;
    StripIdempotent(t1 + "\n" + t2);
  }

  /** An extracted answer holds no blank-line run: each one was collapsed to a single blank line. */
  lemma ExtractCollapsesBlankLines(text: string)
    requires ExtractThinking(text).thinking.Some?
    ensures NoBlankRun(ExtractThinking(text).clean)
  {
    var x := CollapseBlankLines(RemoveBlocks(text));
    assert ExtractThinking(text).clean == Strip(x);
    CollapseNoBlankRun(RemoveBlocks(text));
    NoBlankRunStrip(x);
  }

  /** Result of `format_message_with_thinking`: the `thinking` and `content` entries. */
  datatype FormattedMessage = FormattedMessage(thinking: Option<string>, content: string)

  /**
   * `format_message_with_thinking`: with accepted reasoning, the reasoning
   * and the cleaned answer; otherwise no reasoning and the message as given,
   * not even stripped.
   */
  function FormatMessageWithThinking(message: string): (r: FormattedMessage)
    ensures r.thinking == ExtractThinking(message).thinking
    ensures r.thinking.Some? ==> r.content == ExtractThinking(message).clean && NoOuterSpace(r.content)
    ensures r.thinking.None? ==> r.content == message
  {
    var x := ExtractThinking(message);
    if x.thinking.Some? then FormattedMessage(x.thinking, x.clean)
    else FormattedMessage(None, message)
  }
}
