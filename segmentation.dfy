/**
 * `extract_think_content`: split a raw model reply into an optional reasoning
 * span, delimited by the first `<think>` and the first `</think>`, and the
 * answer text that remains.
 */
module Segmentation {
  import opened PyStr

  datatype Option<T> = None | Some(value: T)

  const OpenMarker: string := "<think>"
  const CloseMarker: string := "</think>"

  /** What the segmenter returns: Python's `(think_content, remaining_response)`. */
  datatype Segmented = Segmented(reasoning: Option<string>, answer: string)

  /**
   * The segmenter. Both markers are looked up with `find`; only when both are
   * present is the reply split, and then only the text after the closing
   * marker is stripped, not the text before the opening one.
   */
  function ExtractThinkContent(response: string): (r: Segmented)
    ensures r.reasoning.None? <==> !(Contains(response, OpenMarker) && Contains(response, CloseMarker))
    ensures r.reasoning.None? ==> r.answer == response
    ensures r.reasoning.Some? ==> |r.reasoning.value| <= |response|
  {
    var thinkStart := Find(response, OpenMarker);
    var thinkEnd := Find(response, CloseMarker);
    if thinkStart != -1 && thinkEnd != -1 then
      SplitAtMarkers(response, thinkStart, thinkEnd)
    else
      Segmented(None, response)
  }

  /**
   * The split taken once both markers are found at `thinkStart` and
   * `thinkEnd`: the stripped text between them, and the text before the
   * opening marker followed by the stripped text after the closing one.
   */
  function SplitAtMarkers(response: string, thinkStart: int, thinkEnd: int): Segmented
  {
    var thinkContent := Strip(Slice(response, thinkStart + |OpenMarker|, thinkEnd));
    var remaining := Slice(response, 0, thinkStart)
                     + Strip(Slice(response, thinkEnd + |CloseMarker|, |response|));
    Segmented(Some(thinkContent), remaining)
  }

  /**
   * An opening and a closing marker never overlap: each begins with `<`, and
   * no other character of either marker is `<`.
   */
  lemma {:induction false} MarkersDisjoint(s: string, i: int, j: int)
    requires OccursAt(s, OpenMarker, i) && OccursAt(s, CloseMarker, j)
    ensures i + |OpenMarker| <= j || j + |CloseMarker| <= i
  {
    assert forall d :: 0 < d < |OpenMarker| ==> OpenMarker[d] != '<';
    assert forall d :: 0 < d < |CloseMarker| ==> CloseMarker[d] != '<';
    assert forall k :: i <= k < i + |OpenMarker| ==> s[k] == s[i..i + |OpenMarker|][k - i];
    assert forall k :: j <= k < j + |CloseMarker| ==> s[k] == s[j..j + |CloseMarker|][k - j];
    assert s[i] == '<' && s[j] == '<' && s[i + 1] == 't' && s[j + 1] == '/';
  }

  /** When `find` locates both markers, the reply is split at those two indices. */
  lemma {:induction false} SegmentAtFound(s: string, i: int, j: int)
    requires Find(s, OpenMarker) == i != -1 && Find(s, CloseMarker) == j != -1
    ensures ExtractThinkContent(s) == SplitAtMarkers(s, i, j)
  {
  }

  /** The two answer slices, taken with in-range bounds, are plain subsequences. */
  lemma {:induction false} SliceOuterPieces(s: string, prefixEnd: int, tailStart: int)
    requires 0 <= prefixEnd <= |s| && 0 <= tailStart <= |s|
    ensures Slice(s, 0, prefixEnd) == s[..prefixEnd]
    ensures Slice(s, tailStart, |s|) == s[tailStart..]
  {
    assert s[0..prefixEnd] == s[..prefixEnd];
    assert s[tailStart..|s|] == s[tailStart..];
  }

  /**
   * With both markers present, the reply is cut at the FIRST opening marker
   * and the FIRST closing marker: the reasoning is the stripped text between
   * them, and the answer is the untouched text before the opening marker
   * followed by the stripped text after the closing one.
   */
  lemma {:induction false} SegmentWithMarkers(s: string, i: int, j: int)
    requires IsFirstOccurrence(s, OpenMarker, i)
    requires IsFirstOccurrence(s, CloseMarker, j)
    ensures ExtractThinkContent(s)
            == Segmented(Some(Strip(Slice(s, i + |OpenMarker|, j))), s[..i] + Strip(s[j + |CloseMarker|..]))
  {
    FindIsFirstOccurrence(s, OpenMarker, i);
    FindIsFirstOccurrence(s, CloseMarker, j);
    SegmentAtFound(s, i, j);
    SliceOuterPieces(s, i, j + |CloseMarker|);
  }

  /**
   * Well-ordered markers: the reply is exactly prefix, opening marker, inner
   * text, closing marker, suffix; the reasoning is the stripped inner text.
   */
  lemma {:induction false} SegmentOrdered(s: string, i: int, j: int)
    requires IsFirstOccurrence(s, OpenMarker, i)
    requires IsFirstOccurrence(s, CloseMarker, j)
    requires i < j
    ensures i + |OpenMarker| <= j
    ensures s == s[..i] + OpenMarker + s[i + |OpenMarker|..j] + CloseMarker + s[j + |CloseMarker|..]
    ensures ExtractThinkContent(s)
            == Segmented(Some(Strip(s[i + |OpenMarker|..j])), s[..i] + Strip(s[j + |CloseMarker|..]))
  {
    MarkersDisjoint(s, i, j);
    SplitAroundOccurrences(s, OpenMarker, i, CloseMarker, j);
    SegmentWithMarkers(s, i, j);
  }

  /** Both markers begin with `<` and end with `>`, neither of them whitespace. */
  lemma {:induction false} MarkerEnds(m: string)
    requires m == OpenMarker || m == CloseMarker
    ensures 0 < |m| && !IsWhitespace(m[0]) && !IsWhitespace(m[|m| - 1])
  {
    assert m[0] == '<' && m[|m| - 1] == '>';
  }

  /**
   * The two pieces a split takes from the reply, the inner text
   * `s[innerStart..innerEnd]` and the tail from `tailStart`, each keep an
   * occurrence lying wholly inside them once stripped, provided the pattern
   * begins and ends with non-whitespace.
   */
  lemma {:induction false} PiecesKeepOccurrence(s: string, pat: string, k: int, innerStart: int, innerEnd: int, tailStart: int)
    requires 0 < |pat| && !IsWhitespace(pat[0]) && !IsWhitespace(pat[|pat| - 1])
    requires OccursAt(s, pat, k) && 0 <= innerStart <= innerEnd <= tailStart <= |s|
    ensures innerStart <= k && k + |pat| <= innerEnd ==> Contains(Strip(s[innerStart..innerEnd]), pat)
    ensures tailStart <= k ==> Contains(Strip(s[tailStart..]), pat)
  {
    if innerStart <= k && k + |pat| <= innerEnd {
      StripKeepsOccurrence(s, pat, k, innerStart, innerEnd);
    }
    if tailStart <= k {
      StripKeepsOccurrence(s, pat, k, tailStart, |s|);
      assert s[tailStart..|s|] == s[tailStart..];
    }
  }

  /**
   * Well-ordered markers: any later marker stays verbatim in one of the two
   * pieces. One lying between the first `<think>` and the first `</think>`
   * is found in the reasoning; one after the first `</think>` is found in the
   * stripped tail of the answer.
   */
  lemma {:induction false} SegmentOrderedKeepsLaterMarkers(s: string, i: int, j: int, m: string, k: int)
    requires IsFirstOccurrence(s, OpenMarker, i)
    requires IsFirstOccurrence(s, CloseMarker, j)
    requires i < j
    requires m == OpenMarker || m == CloseMarker
    requires OccursAt(s, m, k)
    ensures ExtractThinkContent(s).reasoning.Some? && i <= |ExtractThinkContent(s).answer|
    ensures i + |OpenMarker| <= k && k + |m| <= j ==> Contains(ExtractThinkContent(s).reasoning.value, m)
    ensures j + |CloseMarker| <= k ==> Contains(ExtractThinkContent(s).answer[i..], m)
  {
    SegmentOrdered(s, i, j);
    MarkerEnds(m);
    PiecesKeepOccurrence(s, m, k, i + |OpenMarker|, j, j + |CloseMarker|);
    var tail := Strip(s[j + |CloseMarker|..]);
    assert (s[..i] + tail)[i..] == tail;
  }

  /**
   * The answer the inverted case builds, the text before the opening marker
   * followed by the stripped text after the closing marker, holds the
   * closing marker in its first part and the opening marker in its second.
   */
  lemma {:induction false} InvertedAnswerKeepsMarkers(s: string, i: int, j: int)
    requires OccursAt(s, OpenMarker, i) && OccursAt(s, CloseMarker, j)
    requires j + |CloseMarker| <= i
    ensures Contains((s[..i] + Strip(s[j + |CloseMarker|..]))[..i], CloseMarker)
    ensures Contains((s[..i] + Strip(s[j + |CloseMarker|..]))[i..], OpenMarker)
  {
    var tail := s[j + |CloseMarker|..];
    var answer := s[..i] + Strip(tail);
    assert answer[..i] == s[..i];
    OccursInPrefix(s, CloseMarker, j, i);
    assert 0 <= j <= i && OccursAt(answer[..i], CloseMarker, j);
    var p := i - (j + |CloseMarker|);
    OccursInSuffix(s, OpenMarker, i, j + |CloseMarker|);
    assert tail[p..p + 7] == OpenMarker;
    assert tail[p] == tail[p..p + 7][0] && tail[p + 6] == tail[p..p + 7][6];
    StripKeepsSpan(tail, p, p + 7);
    assert answer[i..] == Strip(tail);
  }

  /**
   * Inverted markers (`</think>` before `<think>`): nothing fails. The
   * reasoning slice has its start past its end and is empty, and the answer
   * still holds the closing marker in its untrimmed prefix and the opening
   * marker in its stripped tail.
   */
  lemma {:induction false} SegmentInverted(s: string, i: int, j: int)
    requires IsFirstOccurrence(s, OpenMarker, i)
    requires IsFirstOccurrence(s, CloseMarker, j)
    requires j < i
    ensures ExtractThinkContent(s).reasoning == Some([])
    ensures ExtractThinkContent(s).answer == s[..i] + Strip(s[j + |CloseMarker|..])
    ensures Contains(ExtractThinkContent(s).answer[..i], CloseMarker)
    ensures Contains(ExtractThinkContent(s).answer[i..], OpenMarker)
  {
    MarkersDisjoint(s, i, j);
    SegmentWithMarkers(s, i, j);
    assert Slice(s, i + |OpenMarker|, j) == [];
    InvertedAnswerKeepsMarkers(s, i, j);
  }

  // The documented examples, stated as regression facts. Each reply is
  // written as its pieces so that the facts about where the markers are and
  // what lies around them can be proved apart from the segmenter itself.

  /** Where the markers of "A<think>B</think>C" are, and what lies around them. */
  lemma SimpleSplitPieces(s: string)
    requires s == "A" + OpenMarker + "B" + CloseMarker + "C"
    ensures IsFirstOccurrence(s, OpenMarker, 1) && IsFirstOccurrence(s, CloseMarker, 9)
    ensures Strip(s[8..9]) == "B" && s[..1] + Strip(s[17..]) == "AC"
  {
    assert s[1..8] == OpenMarker;
    FirstByLeadingPair(s, OpenMarker, 1);
    assert s[9..17] == CloseMarker;
    FirstByLeadingPair(s, CloseMarker, 9);
    assert s[8..9] == "B" && s[17..] == "C";
    StripIsTrimmedInfix("B", 0, 1);
    StripIsTrimmedInfix("C", 0, 1);
    assert s[..1] == "A" && "A" + "C" == "AC";
  }

  /** "A<think>B</think>C" gives reasoning "B" and answer "AC". */
  lemma ExampleSimpleSplit(s: string)
    requires s == "A" + OpenMarker + "B" + CloseMarker + "C"
    ensures ExtractThinkContent(s) == Segmented(Some("B"), "AC")
  {
    SimpleSplitPieces(s);
    SegmentOrdered(s, 1, 9);
  }

  /** Where the markers of "<think>  B  </think>" are, and what lies around them. */
  lemma PaddedReasoningPieces(s: string)
    requires s == OpenMarker + "  B  " + CloseMarker
    ensures IsFirstOccurrence(s, OpenMarker, 0) && IsFirstOccurrence(s, CloseMarker, 12)
    ensures s[..0] == "" && Strip(s[7..12]) == "B" && Strip(s[20..]) == ""
  {
    assert s[..7] == OpenMarker;
    assert s[12..20] == CloseMarker;
    FirstByLeadingPair(s, CloseMarker, 12);
    assert s[7..12] == "  B  " && s[20..] == "";
    StripIsTrimmedInfix("  B  ", 2, 3);
    StripIsTrimmedInfix("", 0, 0);
  }

  /** "<think>  B  </think>" gives reasoning "B" (trimmed) and answer "". */
  lemma ExamplePaddedReasoning(s: string)
    requires s == OpenMarker + "  B  " + CloseMarker
    ensures ExtractThinkContent(s) == Segmented(Some("B"), "")
  {
    PaddedReasoningPieces(s);
    SegmentOrdered(s, 0, 12);
  }

  /** Where the markers of "<think>X<think>Y</think>Z" are. */
  lemma RepeatedOpenMarkers(s: string)
    requires s == OpenMarker + "X" + OpenMarker + "Y" + CloseMarker + "Z"
    ensures IsFirstOccurrence(s, OpenMarker, 0) && IsFirstOccurrence(s, CloseMarker, 16)
  {
    assert s[..7] == OpenMarker;
    assert s[16..24] == CloseMarker;
    FirstByLeadingPair(s, CloseMarker, 16);
  }

  /** What lies around the markers of "<think>X<think>Y</think>Z". */
  lemma RepeatedOpenPieces(s: string)
    requires s == OpenMarker + "X" + OpenMarker + "Y" + CloseMarker + "Z"
    ensures s[..0] == "" && Strip(s[7..16]) == "X<think>Y" && Strip(s[24..]) == "Z"
  {
    assert s[7..16] == "X<think>Y" && s[24..] == "Z";
    StripIsTrimmedInfix("X<think>Y", 0, 9);
    StripIsTrimmedInfix("Z", 0, 1);
  }

  /**
   * "<think>X<think>Y</think>Z": only the first opening marker counts, so the
   * second stays inside the reasoning "X<think>Y"; the answer is "Z".
   */
  lemma ExampleRepeatedOpen(s: string)
    requires s == OpenMarker + "X" + OpenMarker + "Y" + CloseMarker + "Z"
    ensures ExtractThinkContent(s) == Segmented(Some("X<think>Y"), "Z")
  {
    RepeatedOpenMarkers(s);
    RepeatedOpenPieces(s);
    SegmentOrdered(s, 0, 16);
  }

  /** Where the markers of " A <think>B</think> C " are. */
  lemma PaddedAnswerMarkers(s: string)
    requires s == " A " + OpenMarker + "B" + CloseMarker + " C "
    ensures IsFirstOccurrence(s, OpenMarker, 3) && IsFirstOccurrence(s, CloseMarker, 11)
  {
    assert s[3..10] == OpenMarker;
    FirstByLeadingPair(s, OpenMarker, 3);
    assert s[11..19] == CloseMarker;
    FirstByLeadingPair(s, CloseMarker, 11);
  }

  /** What lies around the markers of " A <think>B</think> C ". */
  lemma PaddedAnswerPieces(s: string)
    requires s == " A " + OpenMarker + "B" + CloseMarker + " C "
    ensures Strip(s[10..11]) == "B" && s[..3] + Strip(s[19..]) == " A C"
  {
    assert s[10..11] == "B" && s[19..] == " C ";
    StripIsTrimmedInfix("B", 0, 1);
    StripIsTrimmedInfix(" C ", 1, 2);
    assert s[..3] == " A " && " A " + "C" == " A C";
  }

  /**
   * " A <think>B</think> C ": the text before the opening marker keeps its
   * spaces, only the text after the closing marker is stripped: " A C".
   */
  lemma ExamplePaddedAnswer(s: string)
    requires s == " A " + OpenMarker + "B" + CloseMarker + " C "
    ensures ExtractThinkContent(s) == Segmented(Some("B"), " A C")
  {
    PaddedAnswerMarkers(s);
    PaddedAnswerPieces(s);
    SegmentOrdered(s, 3, 11);
  }

  /** Where the markers of "</think>A<think>B" are, and what lies around them. */
  lemma InvertedPieces(s: string)
    requires s == CloseMarker + "A" + OpenMarker + "B"
    ensures IsFirstOccurrence(s, OpenMarker, 9) && IsFirstOccurrence(s, CloseMarker, 0)
    ensures s[..9] == CloseMarker + "A" && Strip(s[8..]) == "A" + OpenMarker + "B"
    ensures Strip(Slice(s, 9 + |OpenMarker|, 0)) == ""
    ensures s[..9] + Strip(s[8..]) == CloseMarker + "A" + "A" + OpenMarker + "B"
  {
    assert s[9..16] == OpenMarker;
    FirstByLeadingPair(s, OpenMarker, 9);
    assert s[..8] == CloseMarker;
    assert s[8..] == "A" + OpenMarker + "B";
    StripIsTrimmedInfix("A" + OpenMarker + "B", 0, 9);
    StripIsTrimmedInfix("", 0, 0);
    assert (CloseMarker + "A") + ("A" + OpenMarker + "B") == CloseMarker + "A" + "A" + OpenMarker + "B";
  }

  /**
   * "</think>A<think>B": no failure; the reasoning is empty and the answer
   * "</think>AA<think>B" repeats the "A" and keeps both markers.
   */
  lemma ExampleInverted(s: string)
    requires s == CloseMarker + "A" + OpenMarker + "B"
    ensures ExtractThinkContent(s) == Segmented(Some(""), CloseMarker + "A" + "A" + OpenMarker + "B")
  {
    InvertedPieces(s);
    SegmentWithMarkers(s, 9, 0);
  }

  /** " <think> x " has no closing marker. */
  lemma UnclosedPieces(s: string)
    requires s == " " + OpenMarker + " x "
    ensures !Contains(s, CloseMarker)
  {
    AbsentByLeadingPair(s, CloseMarker);
  }

  /** " <think> x ": with no closing marker the reply comes back as it is, spaces included. */
  lemma ExampleUnclosed(s: string)
    requires s == " " + OpenMarker + " x "
    ensures ExtractThinkContent(s) == Segmented(None, " <think> x ")
  {
    UnclosedPieces(s);
  }
}
