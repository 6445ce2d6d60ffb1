/** Worked inputs for the block merger: the limits of its fixpoint, the reverse
    splice of a stray end marker, and a typical Bash start-up file. */
module MergeExamples {
  import opened Results
  import opened Text
  import opened BlockMerge

  /** Marker lines as the Bash dialect writes them, and the lines of an old block. */
  const BashBegin := "# BEGIN akash aliases"
  const BashEnd := "# END akash aliases"
  const OldLines := "\nalias old='x'\n"
  const FirstLine := "export PATH=x\n"
  const LastLine := "\nexport EDITOR=vim\n"

  /** The inputs of the newline counterexample: every premise of `MergeFixpoint`
      but newline-free markers holds, and the markers are found at 2 and 5. */
  lemma NewlineMarkerPremises(content: string, beginMarker: string, endMarker: string, block: string)
    requires content == "aXX\nXE" && beginMarker == "X\nX" && endMarker == "E" && block == "X\nXE"
    ensures beginMarker <= block
    ensures Find(block, endMarker) == Some(|block| - |endMarker|)
    ensures Find(content, beginMarker) == Some(2) && Find(content, endMarker) == Some(5)
  {
    FirstCharAbsent(block, endMarker, 0, 3);
    FindIs(block, endMarker, 3);
    FirstCharMismatch(content, beginMarker, 0);
    assert content[1..4] == "XX\n";
    FindIs(content, beginMarker, 2);
    FirstCharAbsent(content, endMarker, 0, 5);
    FindIs(content, endMarker, 5);
  }

  /** The first merge of the newline counterexample. */
  lemma NewlineMarkerFirstMerge(content: string, beginMarker: string, endMarker: string, block: string)
    requires content == "aXX\nXE" && beginMarker == "X\nX" && endMarker == "E" && block == "X\nXE"
    ensures ReplaceOrAppendBlock(content, beginMarker, endMarker, block) == "aX\nX\nXE"
  {
    NewlineMarkerPremises(content, beginMarker, endMarker, block);
    ReplaceWhenFound(content, beginMarker, endMarker, block, 2, 5);
    assert content[..2] == "aX" && content[6..] == [];
    assert TrimTrailingNewlines("aX") == "aX";
  }

  /** The second merge of the newline counterexample: the separator newline and
      the `X` before it now complete a begin marker at index 1. */
  lemma NewlineMarkerSecondMerge(once: string, beginMarker: string, endMarker: string, block: string)
    requires once == "aX\nX\nXE" && beginMarker == "X\nX" && endMarker == "E" && block == "X\nXE"
    ensures ReplaceOrAppendBlock(once, beginMarker, endMarker, block) == "a\nX\nXE"
  {
    FirstCharMismatch(once, beginMarker, 0);
    FindIs(once, beginMarker, 1);
    FirstCharAbsent(once, endMarker, 0, 6);
    FindIs(once, endMarker, 6);
    ReplaceWhenFound(once, beginMarker, endMarker, block, 1, 6);
    assert once[..1] == "a" && once[7..] == [];
    assert TrimTrailingNewlines("a") == "a";
  }

  /** The fixpoint needs newline-free markers: with the begin marker `"X\nX"` the
      newline put after the kept text completes an earlier begin marker, and the
      second merge moves the block. Every other premise of `MergeFixpoint` holds. */
  lemma NewlineInMarkerBreaksFixpoint(content: string, beginMarker: string, endMarker: string, block: string)
    requires content == "aXX\nXE" && beginMarker == "X\nX" && endMarker == "E" && block == "X\nXE"
    ensures beginMarker <= block && '\n' in beginMarker
    ensures Find(block, endMarker) == Some(|block| - |endMarker|)
    ensures Find(content, beginMarker) == Some(2) && Find(content, endMarker) == Some(5)
    ensures var once := ReplaceOrAppendBlock(content, beginMarker, endMarker, block);
      && once == "aX\nX\nXE"
      && ReplaceOrAppendBlock(once, beginMarker, endMarker, block) == "a\nX\nXE"
      && ReplaceOrAppendBlock(once, beginMarker, endMarker, block) != once
  {
    NewlineMarkerPremises(content, beginMarker, endMarker, block);
    assert beginMarker[1] == '\n';
    NewlineMarkerFirstMerge(content, beginMarker, endMarker, block);
    NewlineMarkerSecondMerge("aX\nX\nXE", beginMarker, endMarker, block);
    assert |"a\nX\nXE"| != |"aX\nX\nXE"|;
  }

  /** First merge with a stray end marker: no begin marker, so the block is appended. */
  lemma StrayEndFirstMerge(content: string, beginMarker: string, endMarker: string, block: string)
    requires content == "E" && beginMarker == "B" && endMarker == "E" && block == "BE"
    ensures ReplaceOrAppendBlock(content, beginMarker, endMarker, block) == "E\n\nBE\n"
  {
    FirstCharAbsent(content, beginMarker, 0, 1);
  }

  /** Second merge with a stray end marker: the end marker comes first, so the
      splice keeps the old block and appends everything after the stray marker. */
  lemma StrayEndSecondMerge(once: string, beginMarker: string, endMarker: string, block: string)
    requires once == "E\n\nBE\n" && beginMarker == "B" && endMarker == "E" && block == "BE"
    ensures ReplaceOrAppendBlock(once, beginMarker, endMarker, block) == "E\nBE\n\nBE\n"
  {
    FirstCharAbsent(once, beginMarker, 0, 3);
    FindIs(once, beginMarker, 3);
    FindIs(once, endMarker, 0);
    ReplaceWhenFound(once, beginMarker, endMarker, block, 3, 0);
    assert once[..3] == "E\n\n" && once[1..] == "\n\nBE\n";
    assert TrimTrailingNewlines("E\n\n") == "E";
  }

  /** An end marker before any begin marker is spliced in reverse: each merge
      copies the text between the two markers again. */
  lemma StrayEndMarkerRepeatsBlock(content: string, beginMarker: string, endMarker: string, block: string)
    requires content == "E" && beginMarker == "B" && endMarker == "E" && block == "BE"
    ensures var once := ReplaceOrAppendBlock(content, beginMarker, endMarker, block);
      && once == "E\n\nBE\n"
      && ReplaceOrAppendBlock(once, beginMarker, endMarker, block) == "E\nBE\n\nBE\n"
  {
    StrayEndFirstMerge(content, beginMarker, endMarker, block);
    StrayEndSecondMerge("E\n\nBE\n", beginMarker, endMarker, block);
  }

  /** First merge with a begin marker and no end marker: the block is appended. */
  lemma LoneBeginFirstMerge(content: string, beginMarker: string, endMarker: string, block: string)
    requires content == "B\nuser\n" && beginMarker == "B" && endMarker == "E" && block == "BE"
    ensures ReplaceOrAppendBlock(content, beginMarker, endMarker, block) == "B\nuser\n\nBE\n"
  {
    FirstCharAbsent(content, endMarker, 0, |content|);
    AppendAfterNewline(content, beginMarker, endMarker, block);
  }

  /** Second merge: the lone begin marker now pairs with the block's end marker,
      and everything between them is replaced. */
  lemma LoneBeginSecondMerge(once: string, beginMarker: string, endMarker: string, block: string)
    requires once == "B\nuser\n\nBE\n" && beginMarker == "B" && endMarker == "E" && block == "BE"
    ensures ReplaceOrAppendBlock(once, beginMarker, endMarker, block) == "BE\n"
  {
    FindIs(once, beginMarker, 0);
    FirstCharAbsent(once, endMarker, 0, 9);
    FindIs(once, endMarker, 9);
    ReplaceWhenFound(once, beginMarker, endMarker, block, 0, 9);
    assert once[..0] == [] && once[10..] == "\n";
  }

  /** A begin marker the user left without its end marker loses the user's text:
      the first merge appends the block, and the second merge replaces everything
      from the stray begin marker to the block's end marker. */
  lemma LoneBeginMarkerDeletesText(content: string, beginMarker: string, endMarker: string, block: string)
    requires content == "B\nuser\n" && beginMarker == "B" && endMarker == "E" && block == "BE"
    ensures var once := ReplaceOrAppendBlock(content, beginMarker, endMarker, block);
      && once == "B\nuser\n\nBE\n"
      && ReplaceOrAppendBlock(once, beginMarker, endMarker, block) == "BE\n"
  {
    LoneBeginFirstMerge(content, beginMarker, endMarker, block);
    LoneBeginSecondMerge("B\nuser\n\nBE\n", beginMarker, endMarker, block);
  }

  /** The begin marker has no `'#'` after its first character. */
  lemma MarkerTailHasNoHash(beginMarker: string)
    requires beginMarker == BashBegin
    ensures '#' !in beginMarker[1..]
  {
  }

  /** The old managed block of the example below holds no end marker before its
      last line. */
  lemma OldBlockInterior(beginMarker: string, endMarker: string, oldBlock: string)
    requires beginMarker == BashBegin && endMarker == BashEnd
    requires oldBlock == beginMarker + OldLines + endMarker
    ensures forall j: nat :: 1 <= j < |oldBlock| - |endMarker| ==> !OccursAt(oldBlock, endMarker, j)
  {
    assert oldBlock[1..36] == beginMarker[1..] + OldLines;
    MarkerTailHasNoHash(beginMarker);
    assert '#' !in OldLines;
    FirstCharAbsent(oldBlock, endMarker, 1, 36);
  }

  /** The old managed block of the example below: it starts with the begin marker
      and its only end marker closes it. */
  lemma OldBlockWellFormed(beginMarker: string, endMarker: string, oldBlock: string)
    requires beginMarker == BashBegin && endMarker == BashEnd
    requires oldBlock == beginMarker + OldLines + endMarker
    ensures beginMarker <= oldBlock
    ensures |endMarker| <= |oldBlock| && Find(oldBlock, endMarker) == Some(|oldBlock| - |endMarker|)
  {
    OldBlockInterior(beginMarker, endMarker, oldBlock);
    assert oldBlock[2] != endMarker[2];
    assert oldBlock[|oldBlock| - |endMarker|..] == endMarker;
    FindIs(oldBlock, endMarker, |oldBlock| - |endMarker|);
  }

  /** Neither marker starts inside the user line before the old block. */
  lemma NoMarkerInFirstLine(content: string, rest: string)
    requires content == FirstLine + rest
    ensures forall j: nat :: j < |FirstLine| ==> !OccursAt(content, BashBegin, j) && !OccursAt(content, BashEnd, j)
  {
    assert content[..|FirstLine|] == FirstLine;
    assert '#' !in FirstLine;
    FirstCharAbsent(content, BashBegin, 0, |FirstLine|);
    FirstCharAbsent(content, BashEnd, 0, |FirstLine|);
  }

  /** The user line before the old block is kept as it is: trimming drops its
      newline and the separator puts it back. */
  lemma FirstLineKept(line: string)
    requires line == FirstLine
    ensures TrimTrailingNewlines(line) + Separator(TrimTrailingNewlines(line)) == line
  {
    assert line == "export PATH=x" + "\n";
    TrimOneNewline("export PATH=x");
  }

  /** The Bash file of the example below meets the premises of `MergeAtSplice`. */
  lemma BashFileShape(content: string, beginMarker: string, endMarker: string, oldBlock: string)
    requires beginMarker == BashBegin && endMarker == BashEnd
    requires oldBlock == beginMarker + OldLines + endMarker
    requires content == FirstLine + oldBlock + LastLine
    ensures beginMarker <= oldBlock
    ensures |endMarker| <= |oldBlock| && Find(oldBlock, endMarker) == Some(|oldBlock| - |endMarker|)
    ensures forall j: nat :: j < |FirstLine| ==> !OccursAt(content, beginMarker, j) && !OccursAt(content, endMarker, j)
  {
    OldBlockWellFormed(beginMarker, endMarker, oldBlock);
    assert content == FirstLine + (oldBlock + LastLine);
    NoMarkerInFirstLine(content, oldBlock + LastLine);
  }

  /** A Bash start-up file with an old managed block between two user lines:
      merging any new block leaves both user lines as they were and swaps only
      the block. */
  lemma ReplacesOnlyTheOldBlock(content: string, beginMarker: string, endMarker: string, oldBlock: string, block: string)
    requires beginMarker == BashBegin && endMarker == BashEnd
    requires oldBlock == beginMarker + OldLines + endMarker
    requires content == FirstLine + oldBlock + LastLine
    ensures ReplaceOrAppendBlock(content, beginMarker, endMarker, block) == FirstLine + block + LastLine
  {
    BashFileShape(content, beginMarker, endMarker, oldBlock);
    MergeAtSplice(content, FirstLine, oldBlock, LastLine, beginMarker, endMarker, block);
    FirstLineKept(FirstLine);
  }
}
