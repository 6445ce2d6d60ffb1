/** Splicing the generated alias block into a shell start-up file
    (`replace_or_append_block`). The block and the two marker lines are plain
    parameters: whatever renderer produced them, the merger only does text surgery. */
module BlockMerge {
  import opened Results
  import opened Text

  /** The newline put between kept text and the block: none when nothing is kept. */
  function Separator(kept: string): string {
    if kept == [] then "" else "\n"
  }

  /** Replaces the span from the first begin marker to the end of the first end
      marker by `block`, or appends `block` after a blank line when either marker
      is missing. As in the code, nothing checks that the end marker comes after
      the begin marker. */
  function ReplaceOrAppendBlock(content: string, beginMarker: string, endMarker: string, block: string): (r: string)
    ensures Contains(r, block)
    ensures Find(content, beginMarker).Some? && Find(content, endMarker).Some? ==>
      var after := content[Find(content, endMarker).value + |endMarker|..];
      |after| <= |r| && r[|r| - |after|..] == after
    ensures Find(content, beginMarker).None? || Find(content, endMarker).None? ==> content <= r
  {
    var found, foundEnd := Find(content, beginMarker), Find(content, endMarker);
    if found.Some? && foundEnd.Some? then
      Splice(content[..found.value], block, content[foundEnd.value + |endMarker|..])
    else
      Append(content, block)
  }

  /** The replace branch: the text before the old block loses its trailing
      newlines, gets one separator newline unless nothing is left, then the block,
      then the text after the old block unchanged. */
  function Splice(before: string, block: string, after: string): (r: string)
    ensures Contains(r, block)
    ensures |after| <= |r| && r[|r| - |after|..] == after
  {
    var kept := TrimTrailingNewlines(before);
    var r := kept + Separator(kept) + block + after;
    assert OccursAt(r, block, |kept + Separator(kept)|);
    assert r[|r| - |after|..] == after;
    r
  }

  /** The append branch: the text is ended with a newline if it is not empty and
      lacks one, then a blank line (unless empty), then the block and a newline. */
  function Append(content: string, block: string): (r: string)
    ensures Contains(r, block)
    ensures content <= r
  {
    var terminated := if content != [] && content[|content| - 1] != '\n' then content + "\n" else content;
    var separated := if terminated != [] then terminated + "\n" else terminated;
    var r := separated + block + "\n";
    assert OccursAt(r, block, |separated|);
    assert r[..|content|] == content;
    r
  }

  /** Both markers found: the text after the first end marker survives byte for
      byte as the suffix; the block sits right before it; before the block is the
      text before the first begin marker with only its trailing `'\n'`s dropped,
      followed by exactly one `'\n'` unless nothing is left of it. */
  lemma ReplacePreservesOutside(content: string, beginMarker: string, endMarker: string, block: string, b: nat, e: nat)
    requires Find(content, beginMarker) == Some(b) && Find(content, endMarker) == Some(e)
    ensures var r := ReplaceOrAppendBlock(content, beginMarker, endMarker, block);
      var after := content[e + |endMarker|..];
      && |block| + |after| <= |r|
      && r[|r| - |after|..] == after
      && r[|r| - |after| - |block|..|r| - |after|] == block
      && var head := r[..|r| - |after| - |block|];
      && (head == [] ==> forall i :: 0 <= i < b ==> content[i] == '\n')
      && (head != [] ==>
            && head[|head| - 1] == '\n'
            && |head| - 1 <= b
            && head[..|head| - 1] == content[..|head| - 1]
            && content[|head| - 2] != '\n'
            && forall i :: |head| - 1 <= i < b ==> content[i] == '\n')
  {
    var kept := TrimTrailingNewlines(content[..b]);
    var after := content[e + |endMarker|..];
    ReplaceWhenFound(content, beginMarker, endMarker, block, b, e);
    ThreeParts(ReplaceOrAppendBlock(content, beginMarker, endMarker, block), kept + Separator(kept), block, after);
    TrimmedHead(content, b);
  }

  /** The pieces of a three-part concatenation are found at their offsets. */
  lemma ThreeParts(r: string, x: string, y: string, z: string)
    requires r == x + y + z
    ensures r[..|x|] == x && r[|x|..|x| + |y|] == y && r[|x| + |y|..] == z
  {
  }

  /** The head the replace keeps: the text before the begin marker without its
      trailing `'\n'`s, then one `'\n'` unless nothing is left. */
  lemma TrimmedHead(content: string, b: nat)
    requires b <= |content|
    ensures var kept := TrimTrailingNewlines(content[..b]);
      var head := kept + Separator(kept);
      && (head == [] ==> forall i :: 0 <= i < b ==> content[i] == '\n')
      && (head != [] ==>
            && head[|head| - 1] == '\n'
            && |head| - 1 <= b
            && head[..|head| - 1] == content[..|head| - 1]
            && content[|head| - 2] != '\n'
            && forall i :: |head| - 1 <= i < b ==> content[i] == '\n')
  {
    var kept := TrimTrailingNewlines(content[..b]);
    assert forall i :: |kept| <= i < b ==> content[..b][i] == content[i];
    if kept != [] {
      assert (kept + "\n")[..|kept|] == kept;
      assert content[..b][|kept| - 1] == content[|kept| - 1];
    }
  }

  /** Either marker missing and no text yet: the file becomes the block and a newline. */
  lemma AppendToEmpty(beginMarker: string, endMarker: string, block: string)
    requires Find([], beginMarker).None? || Find([], endMarker).None?
    ensures ReplaceOrAppendBlock([], beginMarker, endMarker, block) == block + "\n"
  {
  }

  /** Either marker missing in non-empty text: the text is kept as a prefix, the
      result ends with a blank line, the block and a newline, and only the newlines
      needed for that blank line are added. */
  lemma AppendKeepsText(content: string, beginMarker: string, endMarker: string, block: string)
    requires content != []
    requires Find(content, beginMarker).None? || Find(content, endMarker).None?
    ensures var r := ReplaceOrAppendBlock(content, beginMarker, endMarker, block);
      && content <= r
      && |r| == |content| + |block| + (if content[|content| - 1] == '\n' then 2 else 3)
      && r[|r| - |block| - 3..] == "\n\n" + block + "\n"
  {
    var r := ReplaceOrAppendBlock(content, beginMarker, endMarker, block);
    if content[|content| - 1] == '\n' {
      assert r == content + "\n" + block + "\n";
      assert r[|r| - |block| - 3..] == [content[|content| - 1]] + "\n" + block + "\n";
    } else {
      assert r == content + "\n\n" + block + "\n";
    }
  }

  /** Where a text is some prefix `p`, then a block `oldBlock` that starts with the begin
      marker and whose only end marker closes it, then anything, and neither marker
      starts inside `p`, the markers are found at the two ends of `oldBlock`. */
  lemma MarkersAtSplice(r: string, p: string, oldBlock: string, tail: string, beginMarker: string, endMarker: string)
    requires r == p + oldBlock + tail
    requires beginMarker <= oldBlock
    requires |endMarker| <= |oldBlock| && Find(oldBlock, endMarker) == Some(|oldBlock| - |endMarker|)
    requires forall j: nat :: j < |p| ==> !OccursAt(r, beginMarker, j) && !OccursAt(r, endMarker, j)
    ensures Find(r, beginMarker) == Some(|p|)
    ensures Find(r, endMarker) == Some(|p| + |oldBlock| - |endMarker|)
  {
    assert r[|p|..|p| + |beginMarker|] == oldBlock[..|beginMarker|];
    FindIs(r, beginMarker, |p|);
    EndMarkerAtSplice(r, p, oldBlock, tail, endMarker);
  }

  /** The end-marker half of `MarkersAtSplice`. */
  lemma EndMarkerAtSplice(r: string, p: string, oldBlock: string, tail: string, endMarker: string)
    requires r == p + oldBlock + tail
    requires |endMarker| <= |oldBlock| && Find(oldBlock, endMarker) == Some(|oldBlock| - |endMarker|)
    requires forall j: nat :: j < |p| ==> !OccursAt(r, endMarker, j)
    ensures Find(r, endMarker) == Some(|p| + |oldBlock| - |endMarker|)
  {
    var q := |p| + |oldBlock| - |endMarker|;
    ShiftedOccurrence(r, p, oldBlock, tail, endMarker, |oldBlock| - |endMarker|);
    forall j: nat | |p| <= j < q
      ensures !OccursAt(r, endMarker, j)
    {
      ShiftedOccurrence(r, p, oldBlock, tail, endMarker, j - |p|);
    }
    FindIs(r, endMarker, q);
  }

  /** An occurrence that lies inside `oldBlock` is one in `oldBlock` itself. */
  lemma ShiftedOccurrence(r: string, p: string, oldBlock: string, tail: string, pat: string, i: nat)
    requires r == p + oldBlock + tail
    requires i + |pat| <= |oldBlock|
    ensures OccursAt(r, pat, |p| + i) <==> OccursAt(oldBlock, pat, i)
  {
    assert r[|p| + i..|p| + i + |pat|] == oldBlock[i..i + |pat|];
  }

  /** Merging into such a text trims `p` and replaces `oldBlock` by the new block. */
  lemma MergeAtSplice(r: string, p: string, oldBlock: string, tail: string, beginMarker: string, endMarker: string, block: string)
    requires r == p + oldBlock + tail
    requires beginMarker <= oldBlock
    requires |endMarker| <= |oldBlock| && Find(oldBlock, endMarker) == Some(|oldBlock| - |endMarker|)
    requires forall j: nat :: j < |p| ==> !OccursAt(r, beginMarker, j) && !OccursAt(r, endMarker, j)
    ensures var kept := TrimTrailingNewlines(p);
      ReplaceOrAppendBlock(r, beginMarker, endMarker, block) == kept + Separator(kept) + block + tail
  {
    MarkersAtSplice(r, p, oldBlock, tail, beginMarker, endMarker);
    SpliceParts(r, p, oldBlock, tail);
  }

  /** The parts of `p + oldBlock + tail`, read back by slicing. */
  lemma SpliceParts(r: string, p: string, oldBlock: string, tail: string)
    requires r == p + oldBlock + tail
    ensures r[..|p|] == p && r[|p| + |oldBlock|..] == tail
  {
  }

  /** A newline-free pattern that does not start before `bound` in `c` does not
      start inside `kept + Separator(kept)` either, when `kept` is a prefix of `c`
      no longer than `bound`. */
  lemma NoOccurrenceBeforeSplice(r: string, c: string, kept: string, rest: string, pat: string, bound: nat)
    requires r == kept + Separator(kept) + rest
    requires kept <= c && |kept| <= bound
    requires '\n' !in pat
    requires forall j: nat :: j < bound ==> !OccursAt(c, pat, j)
    ensures forall j: nat :: j < |kept + Separator(kept)| ==> !OccursAt(r, pat, j)
  {
    if pat == [] && bound > 0 {
      assert OccursAt(c, pat, 0);
    }
    forall j: nat | j < |kept + Separator(kept)|
      ensures !OccursAt(r, pat, j)
    {
      if j + |pat| <= |kept| {
        assert r[j..j + |pat|] == c[j..j + |pat|];
        assert !OccursAt(c, pat, j);
      } else if j + |pat| <= |r| {
        assert kept != [] && j <= |kept|;
        assert r[|kept|] == '\n';
        assert r[j..j + |pat|][|kept| - j] == '\n';
      }
    }
  }

  /** Both markers found: the merge is the splice at the two first occurrences. */
  lemma ReplaceWhenFound(content: string, beginMarker: string, endMarker: string, block: string, b: nat, e: nat)
    requires Find(content, beginMarker) == Some(b) && Find(content, endMarker) == Some(e)
    ensures var kept := TrimTrailingNewlines(content[..b]);
      ReplaceOrAppendBlock(content, beginMarker, endMarker, block) == kept + Separator(kept) + block + content[e + |endMarker|..]
  {
    var found, foundEnd := Find(content, beginMarker), Find(content, endMarker);
    assert found.Some? && foundEnd.Some?;
    var kept := TrimTrailingNewlines(content[..b]);
    assert Splice(content[..b], block, content[e + |endMarker|..]) == kept + Separator(kept) + block + content[e + |endMarker|..];
  }

  /** A well-formed block: it starts with the begin marker, its only end marker
      is its last line, and neither marker contains a newline. */
  predicate WellFormedBlock(beginMarker: string, endMarker: string, block: string) {
    && beginMarker <= block
    && |endMarker| <= |block| && Find(block, endMarker) == Some(|block| - |endMarker|)
    && '\n' !in beginMarker && '\n' !in endMarker
  }

  /** What the replace keeps of the text before the begin marker is a prefix of the text. */
  lemma KeptIsPrefix(content: string, b: nat)
    requires b <= |content|
    ensures TrimTrailingNewlines(content[..b]) <= content
  {
    var kept := TrimTrailingNewlines(content[..b]);
    assert kept == content[..b][..|kept|];
  }

  /** Neither newline-free marker starts inside a kept head when the first
      occurrences of both lie no earlier than the end of the kept text. */
  lemma HeadHasNoMarker(r: string, c: string, kept: string, block: string, tail: string, beginMarker: string, endMarker: string, b: nat, e: nat)
    requires r == kept + Separator(kept) + block + tail
    requires kept <= c && |kept| <= b <= e
    requires '\n' !in beginMarker && '\n' !in endMarker
    requires forall j: nat :: j < b ==> !OccursAt(c, beginMarker, j)
    requires forall j: nat :: j < e ==> !OccursAt(c, endMarker, j)
    ensures forall j: nat :: j < |kept + Separator(kept)| ==> !OccursAt(r, beginMarker, j) && !OccursAt(r, endMarker, j)
  {
    assert r == kept + Separator(kept) + (block + tail);
    NoOccurrenceBeforeSplice(r, c, kept, block + tail, beginMarker, b);
    NoOccurrenceBeforeSplice(r, c, kept, block + tail, endMarker, e);
  }

  /** A kept head (trimmed text plus its separator) is trimmed back to itself. */
  lemma HeadIsStable(kept: string)
    requires kept == [] || kept[|kept| - 1] != '\n'
    ensures var head := kept + Separator(kept);
      TrimTrailingNewlines(head) + Separator(TrimTrailingNewlines(head)) == head
  {
    if kept != [] {
      TrimOneNewline(kept);
    }
  }

  /** The replace half of the fixpoint: after replacing a block whose begin marker
      comes no later than its end marker, a second merge changes nothing. */
  lemma {:induction false} FixpointAfterReplace(content: string, beginMarker: string, endMarker: string, block: string, b: nat, e: nat)
    requires WellFormedBlock(beginMarker, endMarker, block)
    requires Find(content, beginMarker) == Some(b) && Find(content, endMarker) == Some(e) && b <= e
    ensures var once := ReplaceOrAppendBlock(content, beginMarker, endMarker, block);
      ReplaceOrAppendBlock(once, beginMarker, endMarker, block) == once
  {
    var kept := TrimTrailingNewlines(content[..b]);
    var head := kept + Separator(kept);
    var tail := content[e + |endMarker|..];
    var once := ReplaceOrAppendBlock(content, beginMarker, endMarker, block);
    ReplaceWhenFound(content, beginMarker, endMarker, block, b, e);
    KeptIsPrefix(content, b);
    HeadHasNoMarker(once, content, kept, block, tail, beginMarker, endMarker, b, e);
    MergeAtSplice(once, head, block, tail, beginMarker, endMarker, block);
    HeadIsStable(kept);
  }

  /** The append half of the fixpoint: the block appended to an empty file is
      left alone by a second merge. */
  lemma {:induction false} FixpointAfterAppendToEmpty(beginMarker: string, endMarker: string, block: string)
    requires WellFormedBlock(beginMarker, endMarker, block)
    requires Find([], beginMarker).None? || Find([], endMarker).None?
    ensures var once := ReplaceOrAppendBlock([], beginMarker, endMarker, block);
      ReplaceOrAppendBlock(once, beginMarker, endMarker, block) == once
  {
    var once := ReplaceOrAppendBlock([], beginMarker, endMarker, block);
    assert once == [] + block + "\n";
    MergeAtSplice(once, [], block, "\n", beginMarker, endMarker, block);
  }

  /** Conditional fixpoint: with a block that starts with the begin marker and whose
      only end marker is its last line, newline-free markers, and a file that is
      empty or has its first begin marker no later than its first end marker, a
      second merge changes nothing. */
  lemma {:induction false} MergeFixpoint(content: string, beginMarker: string, endMarker: string, block: string)
    requires beginMarker <= block
    requires |endMarker| <= |block| && Find(block, endMarker) == Some(|block| - |endMarker|)
    requires '\n' !in beginMarker && '\n' !in endMarker
    requires content == [] || (Find(content, beginMarker).Some? && Find(content, endMarker).Some?
                               && Find(content, beginMarker).value <= Find(content, endMarker).value)
    ensures var once := ReplaceOrAppendBlock(content, beginMarker, endMarker, block);
      ReplaceOrAppendBlock(once, beginMarker, endMarker, block) == once
  {
    var found, foundEnd := Find(content, beginMarker), Find(content, endMarker);
    if found.Some? && foundEnd.Some? {
      FixpointAfterReplace(content, beginMarker, endMarker, block, found.value, foundEnd.value);
    } else {
      FixpointAfterAppendToEmpty(beginMarker, endMarker, block);
    }
  }

  /** A blank line before the block: text that already ends in a newline gets
      one more before the block. */
  lemma AppendAfterNewline(content: string, beginMarker: string, endMarker: string, block: string)
    requires content != [] && content[|content| - 1] == '\n'
    requires Find(content, beginMarker).None? || Find(content, endMarker).None?
    ensures ReplaceOrAppendBlock(content, beginMarker, endMarker, block) == content + "\n" + block + "\n"
  {
  }

  /** Trimming ignores one more trailing newline. */
  lemma TrimExtraNewline(content: string)
    requires content != [] && content[|content| - 1] == '\n'
    ensures TrimTrailingNewlines(content + "\n") == TrimTrailingNewlines(content)
    ensures |TrimTrailingNewlines(content)| < |content|
  {
    assert (content + "\n")[..|content|] == content;
  }

  /** No unconditional idempotence: text that ends in a newline and holds neither
      marker gets a blank separator line from the first merge, and the second merge
      trims it away again. */
  lemma {:induction false} AppendThenMergeDropsBlankLine(content: string, beginMarker: string, endMarker: string, block: string)
    requires content != [] && content[|content| - 1] == '\n'
    requires Find(content, beginMarker).None? && Find(content, endMarker).None?
    requires beginMarker <= block
    requires |endMarker| <= |block| && Find(block, endMarker) == Some(|block| - |endMarker|)
    requires '\n' !in beginMarker && '\n' !in endMarker
    ensures var once := ReplaceOrAppendBlock(content, beginMarker, endMarker, block);
      var twice := ReplaceOrAppendBlock(once, beginMarker, endMarker, block);
      var kept := TrimTrailingNewlines(content);
      && once == content + "\n" + block + "\n"
      && twice == kept + Separator(kept) + block + "\n"
      && twice != once
  {
    var once := ReplaceOrAppendBlock(content, beginMarker, endMarker, block);
    AppendAfterNewline(content, beginMarker, endMarker, block);
    assert once == content + Separator(content) + (block + "\n");
    NoOccurrenceBeforeSplice(once, content, content, block + "\n", beginMarker, |content|);
    NoOccurrenceBeforeSplice(once, content, content, block + "\n", endMarker, |content|);
    assert once == (content + "\n") + block + "\n";
    MergeAtSplice(once, content + "\n", block, "\n", beginMarker, endMarker, block);
    TrimExtraNewline(content);
    var kept := TrimTrailingNewlines(content);
    assert |kept + Separator(kept) + block + "\n"| < |once|;
  }

  /** Content that does not end in `'\n'` first gets a newline, then the blank line. */
  lemma AppendUnterminated(content: string, beginMarker: string, endMarker: string, block: string)
    requires content != [] && content[|content| - 1] != '\n'
    requires Find(content, beginMarker).None? || Find(content, endMarker).None?
    ensures ReplaceOrAppendBlock(content, beginMarker, endMarker, block) == content + "\n\n" + block + "\n"
  {
    assert content + "\n" + "\n" == content + "\n\n";
  }

  /** The sibling of `AppendThenMergeDropsBlankLine` for text without a final
      newline: the first merge adds a newline and a blank line, and the second merge
      trims the blank line away again. */
  lemma {:induction false} AppendUnterminatedThenMergeDropsBlankLine(content: string, beginMarker: string, endMarker: string, block: string)
    requires content != [] && content[|content| - 1] != '\n'
    requires Find(content, beginMarker).None? && Find(content, endMarker).None?
    requires beginMarker <= block
    requires |endMarker| <= |block| && Find(block, endMarker) == Some(|block| - |endMarker|)
    requires '\n' !in beginMarker && '\n' !in endMarker
    ensures var once := ReplaceOrAppendBlock(content, beginMarker, endMarker, block);
      var twice := ReplaceOrAppendBlock(once, beginMarker, endMarker, block);
      && once == content + "\n\n" + block + "\n"
      && twice == content + "\n" + block + "\n"
      && twice != once
  {
    var once := ReplaceOrAppendBlock(content, beginMarker, endMarker, block);
    var p := content + "\n\n";
    AppendUnterminated(content, beginMarker, endMarker, block);
    MarkersAbsentFromPrefix(once, content, block, beginMarker, endMarker);
    MergeAtSplice(once, p, block, "\n", beginMarker, endMarker, block);
    TrimTwoNewlines(content);
  }

  /** Neither marker starts in the `content + "\n\n"` part of the appended text. */
  lemma MarkersAbsentFromPrefix(once: string, content: string, block: string, beginMarker: string, endMarker: string)
    requires once == content + "\n\n" + block + "\n"
    requires content != [] && content[|content| - 1] != '\n'
    requires Find(content, beginMarker).None? && Find(content, endMarker).None?
    requires '\n' !in beginMarker && '\n' !in endMarker
    ensures forall j: nat :: j < |content| + 2 ==> !OccursAt(once, beginMarker, j) && !OccursAt(once, endMarker, j)
  {
    assert once == content + Separator(content) + ("\n" + block + "\n");
    NoOccurrenceBeforeSplice(once, content, content, "\n" + block + "\n", beginMarker, |content|);
    NoOccurrenceBeforeSplice(once, content, content, "\n" + block + "\n", endMarker, |content|);
    assert OccursAt(content, [], 0);
    assert once[|content| + 1] == '\n';
    FirstCharMismatch(once, beginMarker, |content| + 1);
    FirstCharMismatch(once, endMarker, |content| + 1);
  }

  /** Trimming drops both added newlines. */
  lemma TrimTwoNewlines(content: string)
    requires content != [] && content[|content| - 1] != '\n'
    ensures TrimTrailingNewlines(content + "\n\n") == content
  {
    assert (content + "\n\n")[..|content| + 1] == content + "\n";
    TrimOneNewline(content);
  }

  /** Repeated merging settles: for marker-free content, the third merge gives
      back the second merge's result, whatever the content. */
  lemma {:induction false} ConvergesAfterTwo(content: string, beginMarker: string, endMarker: string, block: string)
    requires WellFormedBlock(beginMarker, endMarker, block)
    requires Find(content, beginMarker).None? && Find(content, endMarker).None?
    ensures var once := ReplaceOrAppendBlock(content, beginMarker, endMarker, block);
      var twice := ReplaceOrAppendBlock(once, beginMarker, endMarker, block);
      ReplaceOrAppendBlock(twice, beginMarker, endMarker, block) == twice
  {
    if content == [] {
      FixpointAfterAppendToEmpty(beginMarker, endMarker, block);
    } else if content[|content| - 1] == '\n' {
      ConvergesTerminated(content, beginMarker, endMarker, block);
    } else {
      ConvergesUnterminated(content, beginMarker, endMarker, block);
    }
  }

  /** `ConvergesAfterTwo` for content that ends in `'\n'`. */
  lemma {:induction false} ConvergesTerminated(content: string, beginMarker: string, endMarker: string, block: string)
    requires WellFormedBlock(beginMarker, endMarker, block)
    requires content != [] && content[|content| - 1] == '\n'
    requires Find(content, beginMarker).None? && Find(content, endMarker).None?
    ensures var once := ReplaceOrAppendBlock(content, beginMarker, endMarker, block);
      var twice := ReplaceOrAppendBlock(once, beginMarker, endMarker, block);
      ReplaceOrAppendBlock(twice, beginMarker, endMarker, block) == twice
  {
    var once := ReplaceOrAppendBlock(content, beginMarker, endMarker, block);
    AppendAfterNewline(content, beginMarker, endMarker, block);
    MarkersAbsentBeforeBlock(once, content, block, beginMarker, endMarker);
    SettlesFromSplice(once, content + "\n", beginMarker, endMarker, block);
  }

  /** `ConvergesAfterTwo` for non-empty content without a final `'\n'`. */
  lemma {:induction false} ConvergesUnterminated(content: string, beginMarker: string, endMarker: string, block: string)
    requires WellFormedBlock(beginMarker, endMarker, block)
    requires content != [] && content[|content| - 1] != '\n'
    requires Find(content, beginMarker).None? && Find(content, endMarker).None?
    ensures var once := ReplaceOrAppendBlock(content, beginMarker, endMarker, block);
      var twice := ReplaceOrAppendBlock(once, beginMarker, endMarker, block);
      ReplaceOrAppendBlock(twice, beginMarker, endMarker, block) == twice
  {
    var once := ReplaceOrAppendBlock(content, beginMarker, endMarker, block);
    AppendUnterminated(content, beginMarker, endMarker, block);
    MarkersAbsentFromPrefix(once, content, block, beginMarker, endMarker);
    SettlesFromSplice(once, content + "\n\n", beginMarker, endMarker, block);
  }

  /** Neither marker starts in the `content + "\n"` part of the appended text. */
  lemma MarkersAbsentBeforeBlock(once: string, content: string, block: string, beginMarker: string, endMarker: string)
    requires once == content + "\n" + block + "\n"
    requires content != []
    requires Find(content, beginMarker).None? && Find(content, endMarker).None?
    requires '\n' !in beginMarker && '\n' !in endMarker
    ensures forall j: nat :: j < |content| + 1 ==> !OccursAt(once, beginMarker, j) && !OccursAt(once, endMarker, j)
  {
    assert once == content + Separator(content) + (block + "\n");
    NoOccurrenceBeforeSplice(once, content, content, block + "\n", beginMarker, |content|);
    NoOccurrenceBeforeSplice(once, content, content, block + "\n", endMarker, |content|);
  }

  /** Text made of a marker-free prefix, a well-formed block and a newline is
      merged into a fixpoint. */
  lemma {:induction false} SettlesFromSplice(once: string, p: string, beginMarker: string, endMarker: string, block: string)
    requires WellFormedBlock(beginMarker, endMarker, block)
    requires once == p + block + "\n"
    requires forall j: nat :: j < |p| ==> !OccursAt(once, beginMarker, j) && !OccursAt(once, endMarker, j)
    ensures var twice := ReplaceOrAppendBlock(once, beginMarker, endMarker, block);
      ReplaceOrAppendBlock(twice, beginMarker, endMarker, block) == twice
  {
    MarkersAtSplice(once, p, block, "\n", beginMarker, endMarker);
    FixpointAfterReplace(once, beginMarker, endMarker, block, |p|, |p| + |block| - |endMarker|);
  }
}
