/**
 * The detail view: which of its four screens it shows, and the values it
 * derives from a loaded post (reading time, cover image, tag labels).
 */
module BlogDetail {
  import opened Wrappers
  import opened Text
  import opened Blogs

  /** The four screens: the "Select a blog to read" prompt, the skeleton, the error message, the post. */
  datatype Screen = SelectPrompt | Skeleton | ErrorMessage | Post

  /** The route parameter is truthy: present and not the empty string. */
  predicate HasId(id: Option<string>) {
    id.Some? && id.value != ""
  }

  /** The early returns of the component, tested in the order the source tests them: `!id`, `isLoading`, `error`. */
  function ScreenFor(id: Option<string>, isLoading: bool, hasError: bool): (s: Screen)
    ensures s == SelectPrompt <==> !HasId(id)
    ensures s == Skeleton <==> HasId(id) && isLoading
    ensures s == ErrorMessage <==> HasId(id) && !isLoading && hasError
    ensures s == Post <==> HasId(id) && !isLoading && !hasError
  {
    if !HasId(id) then SelectPrompt
    else if isLoading then Skeleton
    else if hasError then ErrorMessage
    else Post
  }

  /** Without an id the query flags do not matter; with one, loading hides an error. */
  lemma ScreenPrecedence(id: Option<string>, l1: bool, e1: bool, l2: bool, e2: bool)
    ensures !HasId(id) ==> ScreenFor(id, l1, e1) == ScreenFor(id, l2, e2) == SelectPrompt
    ensures HasId(id) ==> ScreenFor(id, true, e1) == ScreenFor(id, true, e2) == Skeleton
  {
  }

  // ================================================================ reading time

  /** `Math.ceil(pieces / 200)`: the least whole number of 200-piece minutes that covers `pieces`. */
  function Minutes(pieces: nat): (m: nat)
    ensures 200 * (m - 1) < pieces <= 200 * m
  {
    (pieces + 199) / 200
  }

  /**
   * The "min read" figure: `content` and `description` are concatenated with
   * no separator and split on whitespace runs; every piece counts, empty ones
   * included. Splitting never yields nothing, so the figure is at least 1.
   */
  function ReadingTime(b: Blog): (m: nat)
    ensures m >= 1
    ensures 200 * (m - 1) < |SplitWs(b.content + b.description)| <= 200 * m
  {
    Minutes(|SplitWs(b.content + b.description)|)
  }

  /** The figure in terms of the text alone: one piece more than there are whitespace runs. */
  lemma ReadingTimeFromRuns(b: Blog)
    ensures ReadingTime(b) == Minutes(RunCount(b.content + b.description) + 1)
  {
    SplitWsCount(b.content + b.description);
  }

  /** 400 pieces read in 2 minutes, 201 pieces in 2, 200 pieces in 1. */
  lemma MinutesExamples()
    ensures Minutes(400) == 2 && Minutes(201) == 2 && Minutes(200) == 1 && Minutes(1) == 1
  {
  }

  lemma {:induction false} RunEdgesAppend(c: string, d: string)
    ensures RunEdges(c + d) == RunEdges(c) + RunEdges(d) +
              (if |c| > 0 && |d| > 0 && !IsSpace(c[|c| - 1]) && IsSpace(d[0]) then 1 else 0)
    decreases |c|
  {
    if c == [] {
      assert c + d == d;
    } else if |c| == 1 {
      if |d| > 0 {
        assert (c + d)[1..] == d;
      } else {
        assert c + d == c;
      }
    } else {
      assert (c + d)[1..] == c[1..] + d;
      RunEdgesAppend(c[1..], d);
    }
  }

  /**
   * The piece count of two texts joined with no separator: the two counts
   * added, minus one, minus one more when the first ends and the second
   * starts with whitespace.
   */
  lemma PiecesOfJoinedText(c: string, d: string)
    ensures |SplitWs(c + d)| == |SplitWs(c)| + |SplitWs(d)| - 1 -
              (if |c| > 0 && |d| > 0 && IsSpace(c[|c| - 1]) && IsSpace(d[0]) then 1 else 0)
  {
    SplitWsCount(c + d);
    SplitWsCount(c);
    SplitWsCount(d);
    RunEdgesAppend(c, d);
    if c == [] {
      assert c + d == d;
    } else {
      assert (c + d)[0] == c[0];
    }
  }

  /** A description with no whitespace adds no piece: it continues the last word of the content. */
  lemma DescriptionGluedToContent(b: Blog)
    requires NoSpace(b.description)
    ensures |SplitWs(b.content + b.description)| == |SplitWs(b.content)|
  {
    PiecesOfJoinedText(b.content, b.description);
    NoSpaceSinglePiece(b.description);
  }

  // ================================================================ cover image and tags

  const DefaultCover: string := "https://images.pexels.com/photos/262508/pexels-photo-262508.jpeg"

  /** `blog.coverImage || DefaultCover`: the post's own image unless it is the empty string. */
  function CoverSource(b: Blog): (src: string)
    ensures src != ""
    ensures b.coverImage != "" ==> src == b.coverImage
    ensures b.coverImage == "" ==> src == DefaultCover
  {
    if b.coverImage != "" then b.coverImage else DefaultCover
  }

  /** The two strings agree letter for letter once case is ignored. */
  predicate SameIgnoringCase(s: string, t: string) {
    |s| == |t| && forall k :: 0 <= k < |s| ==> LowerChar(s[k]) == LowerChar(t[k])
  }

  /** `#${tag.toLowerCase()}`: a `#`, then the tag with every capital replaced by its small letter. */
  function TagLabel(tag: string): (shown: string)
    ensures |shown| == |tag| + 1 && shown[0] == '#'
    ensures IsLowerCase(shown[1..]) && SameIgnoringCase(shown[1..], tag)
  {
    LowerFacts(tag);
    "#" + Lower(tag)
  }

  /** The "Tags:" row: one label per category, in order; none when the array is absent. */
  function TagLabels(b: Blog): (labels: seq<string>)
    ensures |labels| == |CategoriesOf(b)|
    ensures forall k :: 0 <= k < |labels| ==> labels[k] == TagLabel(CategoriesOf(b)[k])
  {
    seq(|CategoriesOf(b)|, k requires 0 <= k < |CategoriesOf(b)| => TagLabel(CategoriesOf(b)[k]))
  }
}
