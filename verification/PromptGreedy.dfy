/**
  Which split of a skill's text is made
  (runtime/hermes/enterprise_bridge/runtime_policy.py:419-434): the one whose
  pieces are all filled, said without the packing loop.
 */
module PromptGreedy {
  import opened PromptSplit
  import opened Texts

  /** The loop's current text is the piece but for white space it leads with. */
  ghost predicate StandsFor(current: Text, piece: Text) {
    exists lead :: Blank(lead) && lead + current == piece
  }

  lemma LineAfterLead(lead: Text, line: Text)
    requires Blank(lead)
    ensures Strip(lead + BREAK + line) == Strip(line)
  {
    BlankConcat(lead, BREAK);
    StripLead(lead + BREAK, line);
  }

  lemma LongerAfterLead(lead: Text, current: Text, line: Text)
    requires Blank(lead)
    ensures Strip(lead + current + BREAK + line) == Strip(current + BREAK + line)
  {
    StripLead(lead, current + BREAK + line);
    assert lead + current + BREAK + line == lead + (current + BREAK + line);
  }

  /** A piece takes a line that still fits. */
  lemma Takes(p: Packing, piece: Text, line: Text, limit: nat)
    requires StandsFor(p.current, piece) && |Strip(line)| <= limit && |Strip(piece + BREAK + line)| <= limit
    ensures var q := Add(p, line, limit); q.chunks == p.chunks && StandsFor(q.current, piece + BREAK + line)
  {
    var lead :| Blank(lead) && lead + p.current == piece;
    LongerAfterLead(lead, p.current, line);
    if p.current == [] {
      assert lead + [] == lead;
      BlankConcat(lead, BREAK);
      assert (lead + BREAK) + line == piece + BREAK + line;
    } else {
      assert lead + (p.current + BREAK + line) == piece + BREAK + line;
    }
  }

  /** A piece that cannot take a line is closed. */
  lemma ClosesFor(p: Packing, piece: Text, line: Text, limit: nat)
    requires StandsFor(p.current, piece) && |Strip(line)| <= limit < |Strip(piece + BREAK + line)|
    ensures Add(p, line, limit) == Packing(Emit(p.chunks, piece), line)
  {
    var lead :| Blank(lead) && lead + p.current == piece;
    LongerAfterLead(lead, p.current, line);
    StripLead(lead, p.current);
    if p.current == [] {
      assert lead + [] == lead;
      LineAfterLead(lead, line);
    }
  }

  /** After `k` lines of a piece. */
  ghost predicate Inside(before: seq<Text>, chunks: seq<Text>, lines: seq<Text>, limit: nat) {
    var p := Pack(before + lines, limit);
    p.chunks == chunks && StandsFor(p.current, Join(lines))
  }

  lemma InsideNext(before: seq<Text>, chunks: seq<Text>, lines: seq<Text>, line: Text, limit: nat)
    requires lines != [] && Inside(before, chunks, lines, limit)
    requires |Strip(line)| <= limit && |Strip(Join(lines + [line]))| <= limit
    ensures Inside(before, chunks, lines + [line], limit)
  {
    hide Strip, Pack, Join, Add, StandsFor;
    assert before + (lines + [line]) == before + lines + [line];
    PackAppend(before + lines, line, limit);
    JoinAppend(lines, line);
    Takes(Pack(before + lines, limit), Join(lines), line, limit);
  }

  lemma {:induction false} InsidePiece(before: seq<Text>, chunks: seq<Text>, piece: Text, k: nat, limit: nat)
    requires 0 < k <= |Lines(piece)| && |Strip(piece)| <= limit
    requires Inside(before, chunks, Lines(piece)[..1], limit)
    ensures Inside(before, chunks, Lines(piece)[..k], limit)
    decreases k
  {
    hide Strip, Lines, Inside, Join;
    if k > 1 {
      var lines := Lines(piece);
      InsidePiece(before, chunks, piece, k - 1, limit);
      PrefixFits(piece, k);
      assert lines[..k] == lines[..k - 1] + [lines[k - 1]];
      InsideNext(before, chunks, lines[..k - 1], lines[k - 1], limit);
    }
  }

  lemma FirstInside(before: seq<Text>, chunks: seq<Text>, line: Text, limit: nat)
    requires Pack(before + [line], limit) == Packing(chunks, line)
    ensures Inside(before, chunks, [line], limit)
  {
    assert [] + line == line;
    assert Join([line]) == line;
  }

  lemma WholeInside(before: seq<Text>, chunks: seq<Text>, piece: Text, limit: nat)
    requires |Strip(piece)| <= limit && Pack(before + [Lines(piece)[0]], limit) == Packing(chunks, Lines(piece)[0])
    ensures var p := Pack(before + Lines(piece), limit); p.chunks == chunks && StandsFor(p.current, piece)
  {
    hide Strip, Lines, Pack, Join, StandsFor;
    var lines := Lines(piece);
    FirstInside(before, chunks, lines[0], limit);
    assert lines[..1] == [lines[0]];
    InsidePiece(before, chunks, piece, |lines|, limit);
    assert lines[..|lines|] == lines;
    JoinLines(piece);
  }

  /** The loop has emitted the pieces before the last and stands for the last. */
  ghost predicate Reached(pieces: seq<Text>, text: Text, limit: nat)
    requires pieces != []
  {
    var p := Pack(Lines(text), limit);
    p.chunks == NonBlankStrips(pieces[..|pieces| - 1]) && StandsFor(p.current, pieces[|pieces| - 1])
  }

  lemma FirstLinePacked(line: Text, limit: nat)
    requires |Strip(line)| <= limit
    ensures Pack([line], limit) == Packing([], line)
  {
    hide Strip;
    PackAppend([], line, limit);
    assert Pack([], limit) == Packing([], []) && [] + [line] == [line];
  }

  lemma FirstPiece(piece: Text, limit: nat)
    requires |Strip(piece)| <= limit
    ensures Reached([piece], piece, limit)
  {
    hide Strip, Lines, StandsFor, Pack;
    var first := Lines(piece)[0];
    PrefixFits(piece, 1);
    FirstLinePacked(first, limit);
    assert [] + [first] == [first];
    WholeInside([], [], piece, limit);
    assert [] + Lines(piece) == Lines(piece) && [piece][..0] == [];
  }

  lemma NextPiece(front: seq<Text>, text: Text, last: Text, limit: nat)
    requires front != [] && Reached(front, text, limit)
    requires |Strip(last)| <= limit && Closes(front[|front| - 1], last, limit)
    ensures Reached(front + [last], text + BREAK + last, limit)
  {
    hide Strip, Lines, StandsFor, Pack, Add;
    var n := |front| - 1;
    var p, first := Pack(Lines(text), limit), Lines(last)[0];
    PrefixFits(last, 1);
    ClosesFor(p, front[n], first, limit);
    PackAppend(Lines(text), first, limit);
    NonBlankAppend(front[..n], front[n]);
    assert front[..n] + [front[n]] == front;
    WholeInside(Lines(text), NonBlankStrips(front), last, limit);
    LinesConcat(text, last);
    assert (front + [last])[..|front|] == front;
  }

  lemma {:induction false} FilledIsReached(pieces: seq<Text>, text: Text, limit: nat)
    requires Split(pieces, text, limit) && Filled(pieces, limit)
    ensures Reached(pieces, text, limit)
    decreases |pieces|
  {
    hide Strip, Lines, Reached, Closes;
    var n := |pieces| - 1;
    assert pieces == pieces[..n] + [pieces[n]];
    if n == 0 {
      assert pieces == [pieces[0]] && Join(pieces) == pieces[0];
      FirstPiece(pieces[0], limit);
    } else {
      var front := pieces[..n];
      assert Closes(pieces[n - 1], pieces[n], limit);
      FilledIsReached(front, Join(front), limit);
      NextPiece(front, Join(front), pieces[n], limit);
    }
  }

  /** The chunks of any split whose pieces are all filled. */
  lemma FilledSplitIsMade(text: Text, pieces: seq<Text>, limit: nat)
    requires Split(pieces, text, limit) && Filled(pieces, limit)
    ensures NonBlankStrips(pieces) == Chunks(text, limit)
  {
    hide Strip, Lines;
    var n := |pieces| - 1;
    FilledIsReached(pieces, text, limit);
    var current := Pack(Lines(text), limit).current;
    var lead :| Blank(lead) && lead + current == pieces[n];
    StripLead(lead, current);
  }

  ghost predicate MadeBy(pieces: seq<Text>, text: Text, chunks: seq<Text>, limit: nat) {
    Split(pieces, text, limit) && Filled(pieces, limit) && NonBlankStrips(pieces) == chunks
  }

  /**
    The loop's chunks are the stripped non-blank pieces of the split at line
    boundaries in which no piece could take the next one's first line; there is
    such a split whenever every line fits.
   */
  lemma ChunksExactly(text: Text, limit: nat, chunks: seq<Text>)
    requires LinesFit(Lines(text), limit)
    ensures chunks == Chunks(text, limit) <==> exists pieces :: MadeBy(pieces, text, chunks, limit)
  {
    hide Split, Filled, Lines;
    if chunks == Chunks(text, limit) {
      var pieces := GreedyIsASplit(text, limit);
      assert MadeBy(pieces, text, chunks, limit);
    }
    forall pieces | MadeBy(pieces, text, chunks, limit) ensures chunks == Chunks(text, limit) {
      FilledSplitIsMade(text, pieces, limit);
    }
  }
}
