/** Blanking block comments and whole-line comments without moving anything. */
module CommentStripper {
  import opened Common

  function BlankChar(c: char): char { if c == '\n' then '\n' else ' ' }

  function Blank(text: string): (r: string)
    ensures |r| == |text|
    ensures forall k :: 0 <= k < |r| ==> r[k] == BlankChar(text[k])
  {
    seq(|text|, k requires 0 <= k < |text| => BlankChar(text[k]))
  }

  predicate Pair(s: string, i: int, a: char, b: char) {
    0 <= i < |s| - 1 && s[i] == a && s[i + 1] == b
  }

  predicate OpensAt(s: string, i: int) { Pair(s, i, '/', '*') }

  predicate ClosesAt(s: string, i: int) { Pair(s, i, '*', '/') }

  predicate SlashesAt(s: string, i: int) { Pair(s, i, '/', '/') }

  /** Same length, same line breaks, and every other character kept or blanked. */
  ghost predicate SameLayout(s: string, t: string) {
    && |t| == |s|
    && forall k :: 0 <= k < |s| ==> (t[k] == '\n' <==> s[k] == '\n') && (t[k] == s[k] || t[k] == ' ')
  }

  lemma LayoutConcat(s1: string, t1: string, s2: string, t2: string)
    requires SameLayout(s1, t1) && SameLayout(s2, t2)
    ensures SameLayout(s1 + s2, t1 + t2)
  {
  }

  lemma BlankKeepsLayout(text: string)
    ensures SameLayout(text, Blank(text))
  {
  }

  /** A stretch of `s` blanked or kept, followed by the rest. */
  lemma LayoutJoin(s: string, i: nat, e: nat, t1: string, t2: string)
    requires i <= e <= |s| && SameLayout(s[e..], t2)
    requires t1 == Blank(s[i..e]) || t1 == s[i..e]
    ensures SameLayout(s[i..], t1 + t2)
  {
    BlankKeepsLayout(s[i..e]);
    LayoutConcat(s[i..e], t1, s[e..], t2);
    assert s[i..] == s[i..e] + s[e..];
  }

  // ----- Block comments. -----

  /** Where the first `*` + `/` at or after `i` ends. */
  function BlockEnd(s: string, i: nat): (r: Option<nat>)
    ensures r.Some? ==> i + 2 <= r.value <= |s| && ClosesAt(s, r.value - 2)
    ensures r.Some? ==> forall k :: i <= k < r.value - 2 ==> !ClosesAt(s, k)
    ensures r.None? ==> forall k :: i <= k < |s| ==> !ClosesAt(s, k)
    decreases |s| - i
  {
    if i >= |s| then None
    else if ClosesAt(s, i) then Some(i + 2)
    else BlockEnd(s, i + 1)
  }

  function CommentAt(s: string, i: nat): (r: Option<nat>)
    ensures r.Some? ==> i + 4 <= r.value <= |s|
  {
    if OpensAt(s, i) then BlockEnd(s, i + 2) else None
  }

  /** The first pass, from position `i` on. */
  function StripBlocks(s: string, i: nat): string
    requires i <= |s|
    decreases |s| - i
  {
    if i == |s| then []
    else
      match CommentAt(s, i)
      case Some(e) => Blank(s[i..e]) + StripBlocks(s, e)
      case None => [s[i]] + StripBlocks(s, i + 1)
  }

  lemma {:induction false} StripBlocksKeepsLayout(s: string, i: nat)
    requires i <= |s|
    ensures SameLayout(s[i..], StripBlocks(s, i))
    decreases |s| - i
  {
    if i < |s| {
      match CommentAt(s, i) {
        case Some(e) =>
          StripBlocksKeepsLayout(s, e);
          LayoutJoin(s, i, e, Blank(s[i..e]), StripBlocks(s, e));
        case None =>
          StripBlocksKeepsLayout(s, i + 1);
          assert s[i..i + 1] == [s[i]];
          LayoutJoin(s, i, i + 1, [s[i]], StripBlocks(s, i + 1));
      }
    }
  }

  /** An opener at `p`, and the first closer after it ends at `e`. */
  predicate BlockAt(s: string, p: nat, e: nat) {
    && OpensAt(s, p) && p + 4 <= e <= |s| && ClosesAt(s, e - 2)
    && forall q :: p + 2 <= q < e - 2 ==> !ClosesAt(s, q)
  }

  datatype Block = Block(start: nat, end: nat)

  /** No block comment starts between `from` and `to`. */
  ghost predicate NoBlockStarts(s: string, from: nat, to: nat) {
    forall p: nat, e: nat :: from <= p < to ==> !BlockAt(s, p, e)
  }

  /**
   * The comments of `s` from position `from` on, read from the left: each starts at the first opener
   * outside the ones before it that is closed at all, and ends at its first closer.
   */
  ghost predicate Blocks(s: string, from: nat, blocks: seq<Block>)
    decreases |blocks|
  {
    if blocks == [] then NoBlockStarts(s, from, |s|)
    else
      && from <= blocks[0].start && NoBlockStarts(s, from, blocks[0].start)
      && BlockAt(s, blocks[0].start, blocks[0].end)
      && Blocks(s, blocks[0].end, blocks[1..])
  }

  /** There is one way to read them. */
  lemma {:induction false} BlocksAreUnique(s: string, from: nat, a: seq<Block>, b: seq<Block>)
    requires Blocks(s, from, a) && Blocks(s, from, b)
    ensures a == b
    decreases |a|
  {
    if a != [] && b != [] {
      assert a[0].start == b[0].start;
      assert a[0].end == b[0].end;
      BlocksAreUnique(s, a[0].end, a[1..], b[1..]);
      assert a == [a[0]] + a[1..] && b == [b[0]] + b[1..];
    }
  }

  /** Position `k` lies inside one of `blocks`. */
  predicate Inside(blocks: seq<Block>, k: nat) {
    exists i :: 0 <= i < |blocks| && blocks[i].start <= k < blocks[i].end
  }

  lemma InsideFirstOrRest(blocks: seq<Block>, k: nat)
    requires blocks != []
    ensures Inside(blocks, k) <==> blocks[0].start <= k < blocks[0].end || Inside(blocks[1..], k)
  {
    if Inside(blocks[1..], k) {
      var i :| 0 <= i < |blocks| - 1 && blocks[1..][i].start <= k < blocks[1..][i].end;
      assert blocks[i + 1] == blocks[1..][i];
    }
    if Inside(blocks, k) && !(blocks[0].start <= k < blocks[0].end) {
      var i :| 0 <= i < |blocks| && blocks[i].start <= k < blocks[i].end;
      assert blocks[1..][i - 1] == blocks[i];
    }
  }

  /** The comments that the first pass finds. */
  function BlocksFrom(s: string, i: nat): (blocks: seq<Block>)
    requires i <= |s|
    ensures forall b :: 0 <= b < |blocks| ==> i <= blocks[b].start
    decreases |s| - i
  {
    if i == |s| then []
    else
      match CommentAt(s, i)
      case Some(e) => [Block(i, e)] + BlocksFrom(s, e)
      case None => BlocksFrom(s, i + 1)
  }

  lemma CommentAtIsBlock(s: string, i: nat, e: nat)
    requires i < |s|
    ensures BlockAt(s, i, e) <==> CommentAt(s, i) == Some(e)
  {
  }

  lemma BlocksAfterPlain(s: string, i: nat, blocks: seq<Block>)
    requires i < |s| && CommentAt(s, i).None? && Blocks(s, i + 1, blocks)
    ensures Blocks(s, i, blocks)
  {
    forall e: nat ensures !BlockAt(s, i, e) {
      CommentAtIsBlock(s, i, e);
    }
  }

  lemma {:induction false} BlocksFromReads(s: string, i: nat)
    requires i <= |s|
    ensures Blocks(s, i, BlocksFrom(s, i))
    decreases |s| - i
  {
    if i < |s| {
      match CommentAt(s, i) {
        case Some(e) =>
          BlocksFromReads(s, e);
          CommentAtIsBlock(s, i, e);
          assert BlocksFrom(s, i)[1..] == BlocksFrom(s, e);
        case None =>
          BlocksFromReads(s, i + 1);
          BlocksAfterPlain(s, i, BlocksFrom(s, i + 1));
      }
    }
  }

  lemma {:induction false} StripBlocksPointwise(s: string, i: nat, k: nat)
    requires i <= k < |s|
    ensures |StripBlocks(s, i)| == |s| - i
    ensures StripBlocks(s, i)[k - i] == if Inside(BlocksFrom(s, i), k) then BlankChar(s[k]) else s[k]
    decreases |s| - i
  {
    StripBlocksKeepsLayout(s, i);
    match CommentAt(s, i) {
      case Some(e) =>
        assert StripBlocks(s, i) == Blank(s[i..e]) + StripBlocks(s, e);
        assert BlocksFrom(s, i)[1..] == BlocksFrom(s, e);
        InsideFirstOrRest(BlocksFrom(s, i), k);
        if e <= k { StripBlocksPointwise(s, e, k); }
      case None =>
        assert StripBlocks(s, i) == [s[i]] + StripBlocks(s, i + 1);
        if i < k { StripBlocksPointwise(s, i + 1, k); }
    }
  }

  /**
   * The first pass blanks exactly the block comments: with the comments of the text read from the left,
   * a character is blanked if it lies inside one and kept if it does not.
   */
  lemma BlanksExactlyTheBlocks(s: string, blocks: seq<Block>)
    requires Blocks(s, 0, blocks)
    ensures |StripBlocks(s, 0)| == |s|
    ensures forall k :: 0 <= k < |s| ==> StripBlocks(s, 0)[k] == if Inside(blocks, k) then BlankChar(s[k]) else s[k]
  {
    BlocksFromReads(s, 0);
    BlocksAreUnique(s, 0, blocks, BlocksFrom(s, 0));
    StripBlocksKeepsLayout(s, 0);
    forall k | 0 <= k < |s| ensures StripBlocks(s, 0)[k] == if Inside(blocks, k) then BlankChar(s[k]) else s[k] {
      StripBlocksPointwise(s, 0, k);
    }
  }

  /** Position `k` lies inside a closed block comment, up to the opener's first closer. */
  ghost predicate InBlock(s: string, k: nat) {
    exists p: nat, e: nat :: BlockAt(s, p, e) && p <= k < e
  }

  /** Only characters of closed block comments are blanked. */
  lemma OnlyBlocksAreBlanked(s: string, k: nat)
    requires k < |s| && |StripBlocks(s, 0)| == |s| && StripBlocks(s, 0)[k] != s[k]
    ensures InBlock(s, k)
  {
    var blocks := BlocksFrom(s, 0);
    BlocksFromReads(s, 0);
    BlanksExactlyTheBlocks(s, blocks);
    BlockOfInside(s, 0, blocks, k);
  }

  lemma {:induction false} BlockOfInside(s: string, from: nat, blocks: seq<Block>, k: nat)
    requires Blocks(s, from, blocks) && Inside(blocks, k)
    ensures InBlock(s, k)
    decreases |blocks|
  {
    InsideFirstOrRest(blocks, k);
    if !(blocks[0].start <= k < blocks[0].end) {
      BlockOfInside(s, blocks[0].end, blocks[1..], k);
    }
  }

  /** No opener with a closer after it. */
  ghost predicate NoBlockFrom(t: string) {
    forall p: nat, q: nat :: OpensAt(t, p) && p + 2 <= q ==> !ClosesAt(t, q)
  }

  lemma KeptPair(s: string, t: string, i: int, a: char, b: char)
    requires SameLayout(s, t) && Pair(t, i, a, b) && a != ' ' && b != ' '
    ensures Pair(s, i, a, b)
  {
  }

  /** Blanking cannot complete a comment. */
  lemma LayoutKeepsNoBlock(s: string, t: string)
    requires SameLayout(s, t) && NoBlockFrom(s)
    ensures NoBlockFrom(t)
  {
    forall p: nat, q: nat | OpensAt(t, p) && p + 2 <= q ensures !ClosesAt(t, q) {
      KeptPair(s, t, p, '/', '*');
      assert OpensAt(s, p);
      assert !ClosesAt(s, q);
    }
  }

  lemma NoBlockAfterBlank(text: string, rest: string)
    requires NoBlockFrom(rest)
    ensures NoBlockFrom(Blank(text) + rest)
  {
    var n, t := |text|, Blank(text) + rest;
    forall p: nat, q: nat | OpensAt(t, p) && p + 2 <= q ensures !ClosesAt(t, q) {
      assert OpensAt(rest, p - n);
      if ClosesAt(t, q) { assert ClosesAt(rest, q - n); }
    }
  }

  lemma NoBlockAfterKept(s: string, i: nat, rest: string)
    requires i < |s| && CommentAt(s, i).None?
    requires SameLayout(s[i + 1..], rest) && NoBlockFrom(rest)
    ensures NoBlockFrom([s[i]] + rest)
  {
    var t := [s[i]] + rest;
    assert s[i..] == [s[i]] + s[i + 1..];
    LayoutConcat([s[i]], [s[i]], s[i + 1..], rest);
    forall p: nat, q: nat | OpensAt(t, p) && p + 2 <= q ensures !ClosesAt(t, q) {
      if ClosesAt(t, q) {
        KeptPair(s[i..], t, p, '/', '*');
        KeptPair(s[i..], t, q, '*', '/');
        if p > 0 {
          assert OpensAt(rest, p - 1) && ClosesAt(rest, q - 1);
        } else {
          assert OpensAt(s, i) && ClosesAt(s, i + q);
        }
      }
    }
  }

  /** No closed block comment is left. */
  lemma {:induction false} NoBlockSurvives(s: string, i: nat)
    requires i <= |s|
    ensures NoBlockFrom(StripBlocks(s, i))
    decreases |s| - i
  {
    if i < |s| {
      match CommentAt(s, i) {
        case Some(e) =>
          NoBlockSurvives(s, e);
          NoBlockAfterBlank(s[i..e], StripBlocks(s, e));
        case None =>
          NoBlockSurvives(s, i + 1);
          StripBlocksKeepsLayout(s, i + 1);
          NoBlockAfterKept(s, i, StripBlocks(s, i + 1));
      }
    }
  }

  // ----- Whole-line comments. -----

  predicate IsLineEnd(c: char) { c == '\n' || c == '\r' || c == '\U{2028}' || c == '\U{2029}' }

  predicate IsSpace(c: char) {
    || c == ' ' || '\t' <= c <= '\r' || IsLineEnd(c)
    || c == '\U{a0}' || c == '\U{1680}' || '\U{2000}' <= c <= '\U{200a}'
    || c == '\U{202f}' || c == '\U{205f}' || c == '\U{3000}' || c == '\U{feff}'
  }

  const WHITE_SPACE := set c: char | IsSpace(c)

  /** What the scans need of white space: line ends are, slashes are not. */
  predicate ValidSpaces(w: set<char>) {
    '/' !in w && '\n' in w && forall c :: IsLineEnd(c) ==> c in w
  }

  lemma WhiteSpaceIsValid()
    ensures ValidSpaces(WHITE_SPACE) && '(' !in WHITE_SPACE && ' ' in WHITE_SPACE
  {
  }

  predicate LineStart(s: string, i: nat) {
    i <= |s| && (i == 0 || IsLineEnd(s[i - 1]))
  }

  function SkipSpace(w: set<char>, s: string, i: nat): (j: nat)
    requires i <= |s|
    ensures i <= j <= |s|
    decreases |s| - i
  {
    if i < |s| && s[i] in w then SkipSpace(w, s, i + 1) else i
  }

  /** It stops at the first character that is not white space. */
  lemma {:induction false} SkipSpaceStops(w: set<char>, s: string, i: nat)
    requires i <= |s|
    ensures var j := SkipSpace(w, s, i);
            (forall k :: i <= k < j ==> s[k] in w) && (j < |s| ==> s[j] !in w)
    decreases |s| - i
  {
    if i < |s| && s[i] in w { SkipSpaceStops(w, s, i + 1); }
  }

  function LineEndFrom(s: string, i: nat): (j: nat)
    requires i <= |s|
    ensures i <= j <= |s|
    decreases |s| - i
  {
    if i < |s| && !IsLineEnd(s[i]) then LineEndFrom(s, i + 1) else i
  }

  /** It stops at the first line end. */
  lemma {:induction false} LineEndFromStops(s: string, i: nat, k: nat)
    requires i <= |s|
    ensures i <= k < LineEndFrom(s, i) ==> !IsLineEnd(s[k])
    ensures LineEndFrom(s, i) < |s| ==> IsLineEnd(s[LineEndFrom(s, i)])
    decreases |s| - i
  {
    if i < |s| && !IsLineEnd(s[i]) { LineEndFromStops(s, i + 1, k); }
  }

  /** A line start, white space (line breaks included), two slashes: where that line ends. */
  function LineCommentAt(w: set<char>, s: string, i: nat): (r: Option<nat>)
    ensures r.Some? ==> i + 2 <= r.value <= |s|
  {
    if LineStart(s, i) && SlashesAt(s, SkipSpace(w, s, i)) then Some(LineEndFrom(s, SkipSpace(w, s, i) + 2)) else None
  }

  /** The second pass, from position `i` on. */
  function StripLines(w: set<char>, s: string, i: nat): string
    requires i <= |s|
    decreases |s| - i
  {
    if i == |s| then []
    else
      match LineCommentAt(w, s, i)
      case Some(e) => Blank(s[i..e]) + StripLines(w, s, e)
      case None => [s[i]] + StripLines(w, s, i + 1)
  }

  lemma {:induction false} StripLinesKeepsLayout(w: set<char>, s: string, i: nat)
    requires i <= |s|
    ensures SameLayout(s[i..], StripLines(w, s, i))
    decreases |s| - i
  {
    if i < |s| {
      match LineCommentAt(w, s, i) {
        case Some(e) =>
          StripLinesKeepsLayout(w, s, e);
          LayoutJoin(s, i, e, Blank(s[i..e]), StripLines(w, s, e));
        case None =>
          StripLinesKeepsLayout(w, s, i + 1);
          assert s[i..i + 1] == [s[i]];
          LayoutJoin(s, i, i + 1, [s[i]], StripLines(w, s, i + 1));
      }
    }
  }

  /** A `//` at `m` with only white space between a line start `b` and it. */
  predicate WholeLineComment(w: set<char>, s: string, b: nat, m: nat) {
    b <= m && LineStart(s, b) && SlashesAt(s, m) && forall k :: b <= k < m ==> s[k] in w
  }

  lemma {:induction false} SkipSpaceReaches(w: set<char>, s: string, b: nat, m: nat)
    requires b <= m < |s| && (forall k :: b <= k < m ==> s[k] in w) && s[m] !in w
    ensures SkipSpace(w, s, b) == m
    decreases m - b
  {
    if b < m { SkipSpaceReaches(w, s, b + 1, m); }
  }

  /** A match that starts at or before a whole-line comment's line start and runs past it ends where that line ends. */
  lemma MatchCoversLine(w: set<char>, s: string, i: nat, b: nat, m: nat)
    requires ValidSpaces(w) && i <= b && WholeLineComment(w, s, b, m)
    requires LineCommentAt(w, s, i).Some? && b < LineCommentAt(w, s, i).value
    ensures LineCommentAt(w, s, i).value == LineEndFrom(s, m)
  {
    var slashes := SkipSpace(w, s, i);
    SkipSpaceStops(w, s, i);
    SameLineEnd(s, slashes);
    if slashes < b {
      LineEndFromStops(s, slashes + 2, b - 1);
    }
    SkipSpaceReaches(w, s, b, m);
    SkipSpaceReaches(w, s, b, slashes);
  }

  lemma NoMatchBeforeLine(w: set<char>, s: string, i: nat, b: nat, m: nat)
    requires ValidSpaces(w) && i <= b && WholeLineComment(w, s, b, m) && LineCommentAt(w, s, i).None?
    ensures i < b
  {
    SkipSpaceReaches(w, s, b, m);
  }

  /** The character the second pass leaves at `k`. */
  function StrippedChar(w: set<char>, s: string, i: nat, k: nat): char
    requires i <= k < |s|
    decreases |s| - i
  {
    match LineCommentAt(w, s, i)
    case Some(e) => if e <= k then StrippedChar(w, s, e, k) else BlankChar(s[k])
    case None => if i < k then StrippedChar(w, s, i + 1, k) else s[k]
  }

  lemma {:induction false} StripLinesPointwise(w: set<char>, s: string, i: nat, k: nat)
    requires i <= k < |s|
    ensures |StripLines(w, s, i)| == |s| - i && StripLines(w, s, i)[k - i] == StrippedChar(w, s, i, k)
    decreases |s| - i
  {
    StripLinesKeepsLayout(w, s, i);
    match LineCommentAt(w, s, i) {
      case Some(e) =>
        assert StripLines(w, s, i) == Blank(s[i..e]) + StripLines(w, s, e);
        if e <= k { StripLinesPointwise(w, s, e, k); }
      case None =>
        assert StripLines(w, s, i) == [s[i]] + StripLines(w, s, i + 1);
        if i < k { StripLinesPointwise(w, s, i + 1, k); }
    }
  }

  /** Position `k` lies in the whole-line comment at `m`, or in the white space between the line start `b` and it. */
  predicate LineCommentOver(w: set<char>, s: string, b: nat, m: nat, k: nat) {
    WholeLineComment(w, s, b, m) && b <= k < LineEndFrom(s, m)
  }

  ghost predicate InLineComment(w: set<char>, s: string, k: nat) {
    exists b: nat, m: nat :: LineCommentOver(w, s, b, m, k)
  }

  lemma {:induction false} CommentCharIsBlanked(w: set<char>, s: string, i: nat, b: nat, m: nat, k: nat)
    requires ValidSpaces(w) && i <= b && LineCommentOver(w, s, b, m, k)
    ensures StrippedChar(w, s, i, k) == BlankChar(s[k])
    decreases |s| - i
  {
    match LineCommentAt(w, s, i) {
      case Some(e) =>
        if e <= b {
          CommentCharIsBlanked(w, s, e, b, m, k);
        } else {
          MatchCoversLine(w, s, i, b, m);
        }
      case None =>
        NoMatchBeforeLine(w, s, i, b, m);
        CommentCharIsBlanked(w, s, i + 1, b, m, k);
    }
  }

  /** Every whole-line comment is blanked to the end of its line. */
  lemma LineCommentsAreBlanked(w: set<char>, s: string, b: nat, m: nat, k: nat)
    requires ValidSpaces(w) && WholeLineComment(w, s, b, m) && m <= k < LineEndFrom(s, m)
    ensures |StripLines(w, s, 0)| == |s| && StripLines(w, s, 0)[k] == ' '
  {
    NotALineEnd(s, m, k);
    CommentCharIsBlanked(w, s, 0, b, m, k);
    StripLinesPointwise(w, s, 0, k);
  }

  lemma {:induction false} BlankedCharIsInComment(w: set<char>, s: string, i: nat, k: nat) returns (b: nat)
    requires i <= k < |s| && StrippedChar(w, s, i, k) != s[k]
    ensures b <= k && LineCommentAt(w, s, b).Some? && k < LineCommentAt(w, s, b).value
    decreases |s| - i
  {
    match LineCommentAt(w, s, i) {
      case Some(e) =>
        if k < e {
          b := i;
        } else {
          b := BlankedCharIsInComment(w, s, e, k);
        }
      case None =>
        b := BlankedCharIsInComment(w, s, i + 1, k);
    }
  }

  /** Only characters of whole-line comments (and the white space before them) are blanked. */
  lemma OnlyLineCommentsAreBlanked(w: set<char>, s: string, k: nat) returns (b: nat, m: nat)
    requires ValidSpaces(w) && k < |s| && |StripLines(w, s, 0)| == |s| && StripLines(w, s, 0)[k] != s[k]
    ensures WholeLineComment(w, s, b, m) && b <= k < LineEndFrom(s, m)
  {
    StripLinesPointwise(w, s, 0, k);
    b := BlankedCharIsInComment(w, s, 0, k);
    m := SkipSpace(w, s, b);
    SkipSpaceStops(w, s, b);
    SameLineEnd(s, m);
  }

  /** The second pass blanks exactly the whole-line comments and the white space before them. */
  lemma BlanksExactlyTheLineComments(w: set<char>, s: string, k: nat)
    requires ValidSpaces(w) && k < |s|
    ensures |StripLines(w, s, 0)| == |s|
    ensures StripLines(w, s, 0)[k] == if InLineComment(w, s, k) then BlankChar(s[k]) else s[k]
  {
    StripLinesPointwise(w, s, 0, k);
    if b: nat, m: nat :| LineCommentOver(w, s, b, m, k) {
      CommentCharIsBlanked(w, s, 0, b, m, k);
    } else if StrippedChar(w, s, 0, k) != s[k] {
      var b, m := OnlyLineCommentsAreBlanked(w, s, k);
      assert LineCommentOver(w, s, b, m, k);
    }
  }

  lemma NotALineEnd(s: string, m: nat, k: nat)
    requires m <= |s| && m <= k < LineEndFrom(s, m)
    ensures s[k] != '\n'
  {
    LineEndFromStops(s, m, k);
  }

  lemma SameLineEnd(s: string, m: nat)
    requires SlashesAt(s, m)
    ensures LineEndFrom(s, m) == LineEndFrom(s, m + 2)
  {
    assert LineEndFrom(s, m) == LineEndFrom(s, m + 1);
  }

  // ----- stripComments. -----

  function StripComments(source: string): string {
    var t := StripBlocks(source, 0);
    StripLines(WHITE_SPACE, t, 0)
  }

  function NewLines(s: string): nat {
    if s == [] then 0 else NewLines(s[..|s| - 1]) + if s[|s| - 1] == '\n' then 1 else 0
  }

  /** The line number of a position, counted from 1. */
  function LineOf(s: string, k: nat): nat
    requires k <= |s|
  {
    1 + NewLines(s[..k])
  }

  /** A position is on line 1 plus the number of line breaks before it. */
  lemma {:induction false} LineCountsBreaks(s: string, k: nat)
    requires k <= |s|
    ensures LineOf(s, k) == 1 + |set p | 0 <= p < k && s[p] == '\n'|
    decreases k
  {
    if k > 0 {
      LineCountsBreaks(s, k - 1);
      assert s[..k][..k - 1] == s[..k - 1] && s[..k][k - 1] == s[k - 1];
      var fewer, all := set p | 0 <= p < k - 1 && s[p] == '\n', set p | 0 <= p < k && s[p] == '\n';
      assert all == if s[k - 1] == '\n' then fewer + {k - 1} else fewer;
    }
  }

  lemma {:induction false} SameLayoutSameLine(s: string, t: string, k: nat)
    requires SameLayout(s, t) && k <= |s|
    ensures LineOf(s, k) == LineOf(t, k)
  {
    if k > 0 {
      SameLayoutSameLine(s, t, k - 1);
      assert s[..k][..k - 1] == s[..k - 1] && t[..k][..k - 1] == t[..k - 1];
    }
  }

  /**
   * Stripping moves nothing: same length, same line breaks, every other character kept or
   * blanked, so a position has the same line number as in the original source.
   */
  lemma StrippingKeepsPositions(source: string, k: nat)
    requires k <= |source|
    ensures SameLayout(source, StripComments(source))
    ensures LineOf(StripComments(source), k) == LineOf(source, k)
  {
    var t := StripBlocks(source, 0);
    StripBlocksKeepsLayout(source, 0);
    StripLinesKeepsLayout(WHITE_SPACE, t, 0);
    assert source[0..] == source && t[0..] == t;
    SameLayoutSameLine(source, StripComments(source), k);
  }

  lemma {:induction false} BlockAround(s: string, from: nat, blocks: seq<Block>, k: nat) returns (i: nat)
    requires Blocks(s, from, blocks) && Inside(blocks, k)
    ensures i < |blocks| && blocks[i].start <= k < blocks[i].end && BlockAt(s, blocks[i].start, blocks[i].end)
    decreases |blocks|
  {
    InsideFirstOrRest(blocks, k);
    if blocks[0].start <= k < blocks[0].end {
      i := 0;
    } else {
      var j := BlockAround(s, blocks[0].end, blocks[1..], k);
      i := j + 1;
      assert blocks[i] == blocks[1..][j];
    }
  }

  /** A block comment that reaches up to a line start, with only white space from there to `m`, reaches over `m`. */
  lemma BlockReachesOver(w: set<char>, s: string, blocks: seq<Block>, b: nat, m: nat)
    requires ValidSpaces(w) && Blocks(s, 0, blocks) && WholeLineComment(w, s, b, m) && b > 0 && Inside(blocks, b - 1)
    ensures Inside(blocks, m)
  {
    var i := BlockAround(s, 0, blocks, b - 1);
    var e := blocks[i].end;
    assert s[e - 1] == '/' && !IsLineEnd('/');
    assert b < e;
    assert m < e;
  }

  lemma {:induction false} LineReaches(s: string, m: nat, k: nat)
    requires m <= k < |s| && forall j :: m <= j <= k ==> !IsLineEnd(s[j])
    ensures k < LineEndFrom(s, m)
    decreases k - m
  {
    if m < k { LineReaches(s, m + 1, k); }
  }

  /**
   * A whole-line comment of the original source is blanked, to the end of its line, unless one of its two slashes
   * belongs to a block comment.
   */
  lemma SourceLineCommentIsBlanked(source: string, blocks: seq<Block>, b: nat, m: nat, k: nat)
    requires Blocks(source, 0, blocks) && !Inside(blocks, m) && !Inside(blocks, m + 1)
    requires WholeLineComment(WHITE_SPACE, source, b, m) && m <= k < LineEndFrom(source, m)
    ensures |StripComments(source)| == |source| && StripComments(source)[k] == ' '
  {
    var t := StripBlocks(source, 0);
    WhiteSpaceIsValid();
    BlanksExactlyTheBlocks(source, blocks);
    if b > 0 && Inside(blocks, b - 1) {
      BlockReachesOver(WHITE_SPACE, source, blocks, b, m);
    }
    assert WholeLineComment(WHITE_SPACE, t, b, m);
    forall j | m <= j <= k ensures !IsLineEnd(t[j]) {
      LineEndFromStops(source, m, j);
    }
    LineReaches(t, m, k);
    LineCommentsAreBlanked(WHITE_SPACE, t, b, m, k);
  }

  /** What is left of a source when its comments, as `blocks` and lines, are replaced by blanks. */
  ghost predicate Uncommented(source: string, blocks: seq<Block>, file: string) {
    && |file| == |source|
    && exists t :: WithoutBlocks(source, blocks, t) && WithoutLines(t, file)
  }

  predicate WithoutBlocks(source: string, blocks: seq<Block>, t: string) {
    |t| == |source| && forall k :: 0 <= k < |t| ==> t[k] == if Inside(blocks, k) then BlankChar(source[k]) else source[k]
  }

  ghost predicate WithoutLines(t: string, file: string) {
    |file| == |t| && forall k :: 0 <= k < |t| ==> file[k] == if InLineComment(WHITE_SPACE, t, k) then BlankChar(t[k]) else t[k]
  }

  /** `stripComments` leaves exactly that. */
  lemma StripCommentsUncomments(source: string, blocks: seq<Block>, file: string)
    requires Blocks(source, 0, blocks) && Uncommented(source, blocks, file)
    ensures StripComments(source) == file
  {
    var t :| WithoutBlocks(source, blocks, t) && WithoutLines(t, file);
    BlanksExactlyTheBlocks(source, blocks);
    assert t == StripBlocks(source, 0);
    WhiteSpaceIsValid();
    StripLinesKeepsLayout(WHITE_SPACE, t, 0);
    assert t[0..] == t;
    forall k | 0 <= k < |t| ensures StripComments(source)[k] == file[k] {
      BlanksExactlyTheLineComments(WHITE_SPACE, t, k);
    }
  }

  // ----- Texts without comments. -----

  lemma {:induction false} NothingToBlank(s: string, i: nat)
    requires i <= |s| && forall p :: i <= p < |s| ==> !OpensAt(s, p)
    ensures StripBlocks(s, i) == s[i..]
    decreases |s| - i
  {
    if i < |s| { NothingToBlank(s, i + 1); }
  }

  lemma {:induction false} NoLineToBlank(w: set<char>, s: string, i: nat)
    requires i <= |s| && forall p :: i <= p < |s| ==> !SlashesAt(s, p)
    ensures StripLines(w, s, i) == s[i..]
    decreases |s| - i
  {
    if i < |s| { NoLineToBlank(w, s, i + 1); }
  }

  /** No closed block comment is left after both passes. */
  lemma StrippedHasNoBlock(source: string)
    ensures NoBlockFrom(StripComments(source))
  {
    var t := StripBlocks(source, 0);
    NoBlockSurvives(source, 0);
    StripLinesKeepsLayout(WHITE_SPACE, t, 0);
    assert t[0..] == t;
    LayoutKeepsNoBlock(t, StripComments(source));
  }
}
