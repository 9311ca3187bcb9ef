/** StringReplace and ArgDefCase of str_util.cc. */
module StrUtil {

  // ---------------------------------------------------------------- StringReplace

  predicate OccursAt(s: string, sub: string, at: nat) {
    at + |sub| <= |s| && s[at..at + |sub|] == sub
  }

  /** std::string::find: the first occurrence from `from` on, or |s| + 1 for npos. */
  function Find(s: string, sub: string, from: nat): (at: nat)
    ensures at <= |s| ==> from <= at && OccursAt(s, sub, at)
    ensures forall i | from <= i < at && i <= |s| :: !OccursAt(s, sub, i)
    ensures at <= |s| + 1 || at == from
    decreases |s| + 1 - from
  {
    if from > |s| then if from > |s| + 1 then from else |s| + 1
    else if OccursAt(s, sub, from) then from
    else Find(s, sub, from + 1)
  }

  /** Left-to-right replacement of non-overlapping occurrences; an empty pattern occurs before every character
      and at the end. */
  function Replaced(s: string, oldsub: string, newsub: string, all: bool): string
    decreases |s|, 1
  {
    var at := Find(s, oldsub, 0);
    if at > |s| then s
    else if oldsub != "" || at < |s| then s[..at] + newsub + Rest(s[at + |oldsub|..], oldsub, newsub, all)
    else s + newsub
  }

  /** What follows a replacement. */
  function Rest(after: string, oldsub: string, newsub: string, all: bool): string
    decreases |after|, if oldsub == "" then 0 else 2
  {
    if !all then after
    else if oldsub != "" then Replaced(after, oldsub, newsub, all)
    else if after == "" then ""
    else [after[0]] + Replaced(after[1..], oldsub, newsub, all)
  }

  /** Searching from a position is searching what follows it. */
  lemma {:induction false} FindShift(s: string, sub: string, pos: nat, from: nat)
    requires pos <= |s|
    ensures Find(s, sub, pos + from) > |s| <==> Find(s[pos..], sub, from) > |s[pos..]|
    ensures Find(s, sub, pos + from) <= |s| ==> Find(s, sub, pos + from) == pos + Find(s[pos..], sub, from)
    decreases |s| + 1 - from
  {
    if pos + from <= |s| {
      assert OccursAt(s, sub, pos + from) <==> OccursAt(s[pos..], sub, from) by {
        if from + |sub| <= |s[pos..]| {
          assert s[pos + from..pos + from + |sub|] == s[pos..][from..from + |sub|];
        }
      }
      FindShift(s, sub, pos, from + 1);
    }
  }

  /** The loop of StringReplace is at pos of res, and will end with `whole`. */
  ghost predicate Ahead(res: string, pos: nat, oldsub: string, newsub: string, all: bool, whole: string) {
    && pos <= |res| + 1
    && (pos <= |res| ==> res[..pos] + Replaced(res[pos..], oldsub, newsub, all) == whole)
    && (pos == |res| + 1 ==> oldsub == "" && res == whole)
  }

  lemma NothingFound(res: string, pos: nat, oldsub: string, newsub: string, all: bool, whole: string)
    requires Ahead(res, pos, oldsub, newsub, all, whole) && Find(res, oldsub, pos) > |res|
    ensures res == whole
  {
    if pos <= |res| {
      FindShift(res, oldsub, pos, 0);
      assert res[..pos] + res[pos..] == res;
    }
  }

  /** One replacement, at `at`. */
  function ReplacedAt(res: string, at: nat, oldsub: string, newsub: string): string
    requires at + |oldsub| <= |res|
  {
    res[..at] + newsub + res[at + |oldsub|..]
  }

  /** The result so far is what was done, what was skipped and the replacement; then comes the rest. */
  lemma Parts(res: string, pos: nat, at: nat, oldsub: string, newsub: string)
    requires pos <= at && at + |oldsub| <= |res|
    ensures var next, done := ReplacedAt(res, at, oldsub, newsub), res[..pos] + res[pos..][..at - pos] + newsub;
      && next == done + res[at + |oldsub|..] && |done| == at + |newsub|
      && res[pos..][at - pos + |oldsub|..] == res[at + |oldsub|..]
  {
    assert res[..pos] + res[pos..][..at - pos] == res[..at];
  }

  lemma Prefix(done: string, after: string)
    ensures (done + after)[..|done|] == done && (done + after)[|done|..] == after
    ensures after != "" ==> (done + after)[..|done| + 1] == done + [after[0]] && (done + after)[|done| + 1..] == after[1..]
  {}

  lemma FoundAhead(res: string, pos: nat, oldsub: string, newsub: string, all: bool, whole: string)
    requires Ahead(res, pos, oldsub, newsub, all, whole) && Find(res, oldsub, pos) <= |res|
    ensures pos <= |res| && whole == res[..pos] + Replaced(res[pos..], oldsub, newsub, all)
    ensures var at := Find(res, oldsub, pos); pos <= at && at - pos == Find(res[pos..], oldsub, 0) && at + |oldsub| <= |res|
  {
    hide Replaced;
    FindShift(res, oldsub, pos, 0);
  }

  /** One replacement, in what is ahead. */
  lemma Step(res: string, pos: nat, at: nat, oldsub: string, newsub: string, all: bool, whole: string)
    requires Ahead(res, pos, oldsub, newsub, all, whole) && at == Find(res, oldsub, pos) <= |res|
    ensures pos <= at && at + |oldsub| <= |res|
    ensures var done := res[..pos] + res[pos..][..at - pos] + newsub;
      && whole == done + Rest(res[at + |oldsub|..], oldsub, newsub, all)
      && ReplacedAt(res, at, oldsub, newsub) == done + res[at + |oldsub|..] && |done| == at + |newsub|
  {
    FoundAhead(res, pos, oldsub, newsub, all, whole);
    hide *;
    Parts(res, pos, at, oldsub, newsub);
    WholeIs(res[..pos], res[pos..], at - pos, res[at + |oldsub|..], oldsub, newsub, all);
  }

  lemma WholeIs(before: string, tail: string, at: nat, after: string, oldsub: string, newsub: string, all: bool)
    requires at == Find(tail, oldsub, 0) <= |tail| && at + |oldsub| <= |tail| && tail[at + |oldsub|..] == after
    ensures before + Replaced(tail, oldsub, newsub, all) == (before + tail[..at] + newsub) + Rest(after, oldsub, newsub, all)
  {
    Unfold(tail, oldsub, newsub, all, at);
    hide *;
    Associate(before, tail[..at], newsub, Rest(after, oldsub, newsub, all));
  }

  lemma Unfold(s: string, oldsub: string, newsub: string, all: bool, at: nat)
    requires at == Find(s, oldsub, 0) <= |s|
    ensures Replaced(s, oldsub, newsub, all) == s[..at] + newsub + Rest(s[at + |oldsub|..], oldsub, newsub, all)
  {}

  lemma Associate(before: string, front: string, newsub: string, rest: string)
    ensures before + (front + newsub + rest) == (before + front + newsub) + rest
  {}

  /** What is ahead after a replacement. */
  lemma GoOn(done: string, after: string, oldsub: string, newsub: string, whole: string)
    requires whole == done + Rest(after, oldsub, newsub, true)
    ensures Ahead(done + after, |done| + (if oldsub == "" then 1 else 0), oldsub, newsub, true, whole)
  {
    Prefix(done, after);
    if oldsub == "" && after != "" {
      assert done + ([after[0]] + Replaced(after[1..], oldsub, newsub, true)) ==
        (done + [after[0]]) + Replaced(after[1..], oldsub, newsub, true);
    }
    hide Replaced;
  }

  /** One iteration of the loop: it goes on with less ahead, or ends. */
  lemma Iteration(res: string, pos: nat, oldsub: string, newsub: string, all: bool, whole: string)
    requires Ahead(res, pos, oldsub, newsub, all, whole) && Find(res, oldsub, pos) <= |res|
    ensures var at := Find(res, oldsub, pos);
      && at + |oldsub| <= |res| && pos <= |res|
      && var next, pos' := ReplacedAt(res, at, oldsub, newsub), at + |newsub| + (if oldsub == "" then 1 else 0);
         && |next| - pos' < |res| - pos
         && (if all then Ahead(next, pos', oldsub, newsub, all, whole) else next == whole)
  {
    var at := Find(res, oldsub, pos);
    Step(res, pos, at, oldsub, newsub, all, whole);
    var done, after := res[..pos] + res[pos..][..at - pos] + newsub, res[at + |oldsub|..];
    hide Find, Ahead, ReplacedAt, OccursAt;
    if all {
      GoOn(done, after, oldsub, newsub, whole);
    }
  }

  method StringReplace(s: string, oldsub: string, newsub: string, replaceAll: bool) returns (res: string)
    ensures res == Replaced(s, oldsub, newsub, replaceAll)
  {
    ghost var whole := Replaced(s, oldsub, newsub, replaceAll);
    res := s;
    var pos: nat := 0;
    assert s[..0] == "" && s[0..] == s && "" + whole == whole;
    assert Ahead(res, pos, oldsub, newsub, replaceAll, whole);
    hide Replaced, Ahead, ReplacedAt, OccursAt, Rest, Find;
    while true
      invariant Ahead(res, pos, oldsub, newsub, replaceAll, whole)
      decreases |res| - pos + 1
    {
      var at := Find(res, oldsub, pos);
      if at > |res| {
        NothingFound(res, pos, oldsub, newsub, replaceAll, whole);
        break;
      }
      Iteration(res, pos, oldsub, newsub, replaceAll, whole);
      res := ReplacedAt(res, at, oldsub, newsub);
      pos := at + |newsub|;
      if oldsub == "" {
        pos := pos + 1;
      }
      if !replaceAll {
        break;
      }
    }
  }

  // What the result is, in terms of the text.

  lemma FirstIs(s: string, sub: string, at: nat)
    requires OccursAt(s, sub, at) && forall i | 0 <= i < at :: !OccursAt(s, sub, i)
    ensures Find(s, sub, 0) == at <= |s|
  {}

  /** Without an occurrence nothing is replaced. */
  lemma NothingReplaced(s: string, oldsub: string, newsub: string, all: bool)
    requires forall i: nat :: !OccursAt(s, oldsub, i)
    ensures Replaced(s, oldsub, newsub, all) == s
  {}

  /** The first occurrence is replaced, and of what follows it either nothing or, again from the left, all. */
  lemma FirstReplaced(a: string, b: string, oldsub: string, newsub: string)
    requires oldsub != ""
    requires forall i: nat | i < |a| :: !OccursAt(a + oldsub + b, oldsub, i)
    ensures Replaced(a + oldsub + b, oldsub, newsub, false) == a + newsub + b
    ensures Replaced(a + oldsub + b, oldsub, newsub, true) == a + newsub + Replaced(b, oldsub, newsub, true)
  {
    var s := a + oldsub + b;
    assert OccursAt(s, oldsub, |a|) && s[..|a|] == a && s[|a| + |oldsub|..] == b;
    FirstIs(s, oldsub, |a|);
    hide Find;
    Unfold(s, oldsub, newsub, false, |a|);
    Unfold(s, oldsub, newsub, true, |a|);
  }

  /** An empty pattern occurs in front of every character and at the end. */
  lemma EmptyPattern(c: char, s: string, newsub: string, all: bool)
    ensures Replaced("", "", newsub, all) == newsub
    ensures Replaced([c] + s, "", newsub, true) == newsub + [c] + Replaced(s, "", newsub, true)
    ensures Replaced(s, "", newsub, false) == newsub + s
  {}

  // ---------------------------------------------------------------- ArgDefCase

  predicate IsUpper(c: char) { 'A' <= c <= 'Z' }

  predicate IsLower(c: char) { 'a' <= c <= 'z' }

  predicate IsAlpha(c: char) { IsUpper(c) || IsLower(c) }

  predicate IsAlnum(c: char) { IsAlpha(c) || '0' <= c <= '9' }

  function ToLower(c: char): char {
    if IsUpper(c) then c - 'A' + 'a' else c
  }

  /** The number of characters before the first letter. */
  function Skipped(s: string): (n: nat)
    ensures n <= |s| && (n < |s| ==> IsAlpha(s[n])) && forall i | 0 <= i < n :: !IsAlpha(s[i])
  {
    if s == "" || IsAlpha(s[0]) then 0
    else
      var n := 1 + Skipped(s[1..]);
      assert forall i | 0 < i < n :: s[i] == s[1..][i - 1];
      n
  }

  /** A capital starts a new word, unless it is the first character or follows an underscore. */
  predicate StartsWord(s: string, skip: nat, i: nat)
    requires i < |s|
  {
    IsUpper(s[i]) && i > skip && IsAlnum(s[i - 1])
  }

  /** What becomes of character i. */
  function Piece(s: string, skip: nat, i: nat): (r: string)
    requires i < |s|
    ensures |r| > 0
  {
    if !IsAlnum(s[i]) then "_"
    else if StartsWord(s, skip, i) then ['_', ToLower(s[i])]
    else [ToLower(s[i])]
  }

  function Pieces(s: string, skip: nat, from: nat): string
    requires from <= |s|
    decreases |s| - from
  {
    if from == |s| then "" else Piece(s, skip, from) + Pieces(s, skip, from + 1)
  }

  /** The name in snake case. */
  function SnakeCase(s: string): string {
    Pieces(s, Skipped(s), Skipped(s))
  }

  /** The number of words that start at from or later, after the first. */
  function WordStarts(s: string, skip: nat, from: nat, to: nat): nat
    requires from <= to <= |s|
  {
    if from == to then 0 else WordStarts(s, skip, from, to - 1) + if StartsWord(s, skip, to - 1) then 1 else 0
  }

  lemma {:induction false} WordStartsSplit(s: string, skip: nat, from: nat, to: nat)
    requires from < to <= |s|
    ensures WordStarts(s, skip, from, to) == (if StartsWord(s, skip, from) then 1 else 0) + WordStarts(s, skip, from + 1, to)
  {
    if from + 1 < to { WordStartsSplit(s, skip, from, to - 1); }
  }

  /** The length of the result, as the first pass counts it. */
  lemma {:induction false} PiecesLength(s: string, skip: nat, from: nat)
    requires from <= |s|
    ensures |Pieces(s, skip, from)| == |s| - from + WordStarts(s, skip, from, |s|)
    decreases |s| - from
  {
    if from < |s| {
      PiecesLength(s, skip, from + 1);
      WordStartsSplit(s, skip, from, |s|);
    }
  }

  lemma SkippedIs(s: string, n: nat)
    requires n <= |s| && (n < |s| ==> IsAlpha(s[n])) && forall i | 0 <= i < n :: !IsAlpha(s[i])
    ensures Skipped(s) == n
  {}

  /** The first pass: how much to skip, and how many underscores to add. */
  method CountUnderscores(s: string) returns (toSkip: nat, extraUs: nat)
    ensures toSkip == Skipped(s) && |SnakeCase(s)| == |s| + extraUs - toSkip
  {
    toSkip, extraUs := 0, 0;
    var i := 0;
    hide IsAlpha, IsUpper, IsAlnum;
    while i < |s|
      invariant toSkip <= i <= |s| && extraUs == WordStarts(s, toSkip, toSkip, i)
      invariant (toSkip < i ==> IsAlpha(s[toSkip])) && forall k | 0 <= k < toSkip :: !IsAlpha(s[k])
    {
      if i == toSkip && !IsAlpha(s[i]) {
        toSkip := toSkip + 1;
      } else if IsUpper(s[i]) && i != toSkip && i > 0 && IsAlnum(s[i - 1]) {
        extraUs := extraUs + 1;
      }
      i := i + 1;
    }
    SkippedIs(s, toSkip);
    PiecesLength(s, toSkip, toSkip);
  }

  lemma PiecesStep(s: string, skip: nat, i: nat)
    requires i <= |s|
    ensures Pieces(s, skip, i) == if i == |s| then "" else Piece(s, skip, i) + Pieces(s, skip, i + 1)
  {}

  /** The buffer holds what is done so far, and underscores after it. */
  ghost predicate FilledWith(buffer: string, done: string) {
    done <= buffer && forall k | |done| <= k < |buffer| :: buffer[k] == '_'
  }

  /** The body of the second pass: character i of s goes to position j of the result, or to the one after it. */
  method PutPiece(s: string, toSkip: nat, i: nat, result: array<char>, j: nat, ghost done: string) returns (next: nat)
    requires toSkip <= i < |s| && j == |done| && j + |Piece(s, toSkip, i)| <= result.Length
    requires FilledWith(result[..], done)
    requires i > toSkip ==> done != "" && (done[j - 1] != '_' <==> IsAlnum(s[i - 1]))
    modifies result
    ensures next == j + |Piece(s, toSkip, i)| && FilledWith(result[..], done + Piece(s, toSkip, i))
    ensures (done + Piece(s, toSkip, i))[next - 1] != '_' <==> IsAlnum(s[i])
  {
    var c := s[i];
    next := j;
    assert i > toSkip ==> result[..][j - 1] == done[j - 1];
    if IsAlnum(c) {
      if IsUpper(c) {
        if i != toSkip {
          if result[j - 1] != '_' {
            next := next + 1;
          }
        }
        result[next] := ToLower(c);
      } else {
        result[next] := c;
      }
    }
    next := next + 1;
    assert result[j..next] == Piece(s, toSkip, i);
    assert result[..next] == done + Piece(s, toSkip, i);
  }

  /** The second pass fills the buffer exactly: it writes within it, and to its end. */
  method ArgDefCase(s: string) returns (r: string)
    ensures r == SnakeCase(s)
  {
    var toSkip, extraUs := CountUnderscores(s);
    var result := new char[|s| + extraUs - toSkip](_ => '_');
    var i, j := toSkip, 0;
    ghost var done, whole := "", SnakeCase(s);
    assert done + Pieces(s, toSkip, toSkip) == whole;
    hide Piece, Pieces, SnakeCase, IsAlnum, FilledWith;
    assert FilledWith(result[..], done) by { Unfilled(result[..]); }
    while i < |s|
      invariant toSkip <= i <= |s| && j == |done| && |whole| == result.Length
      invariant done + Pieces(s, toSkip, i) == whole && FilledWith(result[..], done)
      invariant i > toSkip ==> done != "" && (done[j - 1] != '_' <==> IsAlnum(s[i - 1]))
    {
      PiecesStep(s, toSkip, i);
      Regroup(done, Piece(s, toSkip, i), Pieces(s, toSkip, i + 1), whole);
      j := PutPiece(s, toSkip, i, result, j, done);
      done := done + Piece(s, toSkip, i);
      i := i + 1;
    }
    PiecesStep(s, toSkip, i);
    r := result[..];
    FilledUp(r, done, whole);
  }

  lemma Unfilled(buffer: string)
    requires forall k | 0 <= k < |buffer| :: buffer[k] == '_'
    ensures FilledWith(buffer, "")
  {}

  lemma Regroup(done: string, piece: string, rest: string, whole: string)
    requires done + (piece + rest) == whole
    ensures (done + piece) + rest == whole && |done| + |piece| <= |whole|
  {
    assert (done + piece) + rest == done + (piece + rest);
  }

  lemma FilledUp(buffer: string, done: string, whole: string)
    requires FilledWith(buffer, done) && done + "" == whole && |whole| == |buffer|
    ensures buffer == whole
  {
    assert done + "" == done;
  }

  // ---------------------------------------------------------------- what the result looks like

  predicate IsSnakeChar(c: char) { IsLower(c) || '0' <= c <= '9' || c == '_' }

  /** Empty, or [a-z][a-z0-9_]*. */
  predicate IsSnakeCase(r: string) {
    r == "" || (IsLower(r[0]) && forall i | 0 <= i < |r| :: IsSnakeChar(r[i]))
  }

  lemma {:induction false} PiecesAreSnake(s: string, skip: nat, from: nat)
    requires from <= |s|
    ensures forall i | 0 <= i < |Pieces(s, skip, from)| :: IsSnakeChar(Pieces(s, skip, from)[i])
    decreases |s| - from
  {
    if from < |s| {
      PiecesAreSnake(s, skip, from + 1);
    }
  }

  lemma ResultIsSnakeCase(s: string)
    ensures IsSnakeCase(SnakeCase(s))
  {
    PiecesAreSnake(s, Skipped(s), Skipped(s));
  }

  lemma {:induction false} SnakePieces(r: string, from: nat)
    requires from <= |r| && forall i | 0 <= i < |r| :: IsSnakeChar(r[i])
    ensures Pieces(r, 0, from) == r[from..]
    decreases |r| - from
  {
    if from < |r| {
      SnakePieces(r, from + 1);
      assert IsSnakeChar(r[from]);
    }
  }

  /** Converting twice is converting once. */
  lemma SnakeCaseIdempotent(s: string)
    ensures SnakeCase(SnakeCase(s)) == SnakeCase(s)
  {
    var r := SnakeCase(s);
    ResultIsSnakeCase(s);
    if r != "" {
      SkippedIs(r, 0);
      SnakePieces(r, 0);
    }
  }

  /** A word of letters and digits with no capital except, perhaps, its first character; and what stands after it:
      characters that are neither letters nor digits, or nothing if the next word begins with a capital. */
  datatype Chunk = Chunk(first: char, tail: string, after: string)

  predicate IsSmall(c: char) { IsLower(c) || '0' <= c <= '9' }

  predicate IsChunk(c: Chunk, next: string) {
    && IsAlnum(c.first)
    && (forall i | 0 <= i < |c.tail| :: IsSmall(c.tail[i]))
    && (forall i | 0 <= i < |c.after| :: !IsAlnum(c.after[i]))
    && (c.after == "" && next != "" ==> IsUpper(next[0]))
  }

  function ChunksText(chunks: seq<Chunk>): string {
    if chunks == [] then "" else [chunks[0].first] + (chunks[0].tail + (chunks[0].after + ChunksText(chunks[1..])))
  }

  predicate AreChunks(chunks: seq<Chunk>) {
    chunks == [] || (IsChunk(chunks[0], ChunksText(chunks[1..])) && AreChunks(chunks[1..]))
  }

  /** The code of a capital grows by 32. */
  function LowCase(c: char): char {
    if 65 <= c as int <= 90 then (c as int + 32) as char else c
  }

  function Underscores(n: nat): string {
    seq(n, _ => '_')
  }

  /** The words in lower case, each followed by one underscore for every character after it, or by one underscore
      if the next word follows at once. */
  function ChunksSnake(chunks: seq<Chunk>): string {
    if chunks == [] then ""
    else
      var c, more := chunks[0], if chunks[0].after == "" && |chunks| > 1 then "_" else "";
      [LowCase(c.first)] + (c.tail + (Underscores(|c.after|) + (more + ChunksSnake(chunks[1..]))))
  }

  lemma FrontChar(s: string, from: nat, t: string, u: string)
    requires from <= |s| && t != "" && s[from..] == t + u
    ensures from < |s| && s[from] == t[0] && s[from + 1..] == t[1..] + u
  {
    assert s[from] == s[from..][0] && s[from + 1..] == s[from..][1..];
  }

  lemma {:induction false} SmallPieces(s: string, skip: nat, from: nat, t: string, u: string)
    requires skip < from <= |s| && s[from..] == t + u && forall i | 0 <= i < |t| :: IsSmall(t[i])
    ensures from + |t| <= |s| && s[from + |t|..] == u
    ensures Pieces(s, skip, from) == t + Pieces(s, skip, from + |t|)
    ensures t != "" ==> IsAlnum(s[from + |t| - 1])
    decreases |t|
  {
    if t == "" {
      assert t + u == u;
    } else {
      FrontChar(s, from, t, u);
      PlainPiece(s, skip, from);
      PiecesStep(s, skip, from);
      hide Pieces, Piece, IsSmall, IsAlnum;
      SmallPieces(s, skip, from + 1, t[1..], u);
      Cons(t, Pieces(s, skip, from + |t|));
    }
  }

  /** What becomes of a character that is no capital. */
  lemma PlainPiece(s: string, skip: nat, i: nat)
    requires i < |s|
    ensures IsSmall(s[i]) ==> IsAlnum(s[i]) && Piece(s, skip, i) == [s[i]]
    ensures !IsAlnum(s[i]) ==> Piece(s, skip, i) == "_"
  {}

  lemma Cons(t: string, u: string)
    requires t != ""
    ensures [t[0]] + (t[1..] + u) == t + u
  {}

  lemma {:induction false} OtherPieces(s: string, skip: nat, from: nat, t: string, u: string)
    requires skip < from <= |s| && s[from..] == t + u && forall i | 0 <= i < |t| :: !IsAlnum(t[i])
    ensures from + |t| <= |s| && s[from + |t|..] == u
    ensures Pieces(s, skip, from) == Underscores(|t|) + Pieces(s, skip, from + |t|)
    ensures t != "" ==> !IsAlnum(s[from + |t| - 1])
    decreases |t|
  {
    if t == "" {
      assert t + u == u;
    } else {
      FrontChar(s, from, t, u);
      PlainPiece(s, skip, from);
      PiecesStep(s, skip, from);
      hide Pieces, Piece, IsSmall, IsAlnum;
      OtherPieces(s, skip, from + 1, t[1..], u);
      assert Underscores(|t|)[1..] == Underscores(|t| - 1) && [Underscores(|t|)[0]] == "_";
      Cons(Underscores(|t|), Pieces(s, skip, from + |t|));
    }
  }

  /** A word that follows another one at once is set off by an underscore. */
  function Gap(s: string, skip: nat, i: nat): string
    requires i <= |s|
  {
    if i > skip && IsAlnum(s[i - 1]) then "_" else ""
  }

  lemma FirstPiece(s: string, skip: nat, i: nat)
    requires skip <= i < |s| && IsAlnum(s[i])
    requires i > skip && IsAlnum(s[i - 1]) ==> IsUpper(s[i])
    ensures Pieces(s, skip, i) == Gap(s, skip, i) + ([LowCase(s[i])] + Pieces(s, skip, i + 1))
  {
    PiecesStep(s, skip, i);
    hide Pieces;
    assert Piece(s, skip, i) == Gap(s, skip, i) + [LowCase(s[i])];
    hide *;
    Gather(Gap(s, skip, i), [LowCase(s[i])], Pieces(s, skip, i + 1));
  }

  lemma Gather(a: string, b: string, c: string)
    ensures (a + b) + c == a + (b + c)
  {}

  /** One word, and what is after it. */
  lemma ChunkPieces(s: string, skip: nat, from: nat, c: Chunk, rest: string) returns (end: nat)
    requires skip <= from <= |s| && IsChunk(c, rest) && s[from..] == [c.first] + (c.tail + (c.after + rest))
    requires from > skip && IsAlnum(s[from - 1]) ==> IsUpper(c.first)
    ensures from < end <= |s| && s[end..] == rest && (IsAlnum(s[end - 1]) <==> c.after == "")
    ensures Pieces(s, skip, from) == Gap(s, skip, from)
      + ([LowCase(c.first)] + (c.tail + (Underscores(|c.after|) + Pieces(s, skip, end))))
  {
    FrontOf(s, from, c.first, c.tail + (c.after + rest));
    assert IsAlnum(s[from]);
    FirstPiece(s, skip, from);
    end := RestPieces(s, skip, from + 1, c.tail, c.after, rest);
    hide *;
  }

  /** A word without its first character, and what is after it. */
  lemma RestPieces(s: string, skip: nat, from: nat, tail: string, after: string, rest: string) returns (end: nat)
    requires skip < from <= |s| && s[from..] == tail + (after + rest) && IsAlnum(s[from - 1])
    requires (forall i | 0 <= i < |tail| :: IsSmall(tail[i])) && forall i | 0 <= i < |after| :: !IsAlnum(after[i])
    ensures from <= end <= |s| && s[end..] == rest && (IsAlnum(s[end - 1]) <==> after == "")
    ensures Pieces(s, skip, from) == tail + (Underscores(|after|) + Pieces(s, skip, end))
  {
    hide *;
    SmallPieces(s, skip, from, tail, after + rest);
    OtherPieces(s, skip, from + |tail|, after, rest);
    end := from + |tail| + |after|;
  }

  lemma FrontOf(s: string, from: nat, x: char, u: string)
    requires from <= |s| && s[from..] == [x] + u
    ensures from < |s| && s[from] == x && s[from + 1..] == u
  {
    FrontChar(s, from, [x], u);
    assert [x][1..] + u == u;
  }

  lemma {:induction false} ChunksPieces(s: string, skip: nat, from: nat, chunks: seq<Chunk>)
    requires skip <= from <= |s| && AreChunks(chunks) && s[from..] == ChunksText(chunks)
    requires chunks != [] && from > skip && IsAlnum(s[from - 1]) ==> IsUpper(chunks[0].first)
    ensures Pieces(s, skip, from) == (if chunks == [] then "" else Gap(s, skip, from)) + ChunksSnake(chunks)
    decreases |chunks|
  {
    if chunks != [] {
      var rest := chunks[1..];
      var end := ChunkPieces(s, skip, from, chunks[0], ChunksText(rest));
      assert rest != [] ==> ChunksText(rest)[0] == rest[0].first;
      ChunksPieces(s, skip, end, rest);
    }
  }

  /** The whole conversion: what comes before the first letter is dropped, and the words are joined. */
  lemma WordsAreJoined(junk: string, chunks: seq<Chunk>)
    requires AreChunks(chunks) && (chunks != [] ==> IsAlpha(chunks[0].first))
    requires forall i | 0 <= i < |junk| :: !IsAlpha(junk[i])
    ensures SnakeCase(junk + ChunksText(chunks)) == ChunksSnake(chunks)
  {
    var s := junk + ChunksText(chunks);
    assert chunks != [] ==> s[|junk|] == chunks[0].first;
    SkippedIs(s, |junk|);
    assert s[|junk|..] == ChunksText(chunks);
    ChunksPieces(s, |junk|, |junk|, chunks);
    assert "" + ChunksSnake(chunks) == ChunksSnake(chunks);
  }

  /** How many characters a text starts with that are small, or that are no letters or digits. */
  function SmallRun(s: string): (n: nat)
    ensures n <= |s| && (forall i | 0 <= i < n :: IsSmall(s[i])) && (n < |s| ==> !IsSmall(s[n]))
  {
    if s == "" || !IsSmall(s[0]) then 0
    else
      var n := 1 + SmallRun(s[1..]);
      assert forall i | 0 < i < n :: s[i] == s[1..][i - 1];
      n
  }

  function OtherRun(s: string): (n: nat)
    ensures n <= |s| && (forall i | 0 <= i < n :: !IsAlnum(s[i])) && (n < |s| ==> IsAlnum(s[n]))
  {
    if s == "" || IsAlnum(s[0]) then 0
    else
      var n := 1 + OtherRun(s[1..]);
      assert forall i | 0 < i < n :: s[i] == s[1..][i - 1];
      n
  }

  lemma {:induction false} TextHasChunks(s: string) returns (chunks: seq<Chunk>)
    requires s != "" ==> IsAlnum(s[0])
    ensures AreChunks(chunks) && ChunksText(chunks) == s
    decreases |s|
  {
    if s == "" {
      chunks := [];
    } else {
      var c, rest := FirstChunk(s);
      hide *;
      var others := TextHasChunks(rest);
      MoreChunks(c, others);
      chunks := [c] + others;
    }
  }

  lemma FirstChunk(s: string) returns (c: Chunk, rest: string)
    requires s != "" && IsAlnum(s[0])
    ensures IsChunk(c, rest) && s == [c.first] + (c.tail + (c.after + rest))
    ensures |rest| < |s| && (rest != "" ==> IsAlnum(rest[0]))
  {
    assert s == [s[0]] + s[1..];
    var tail, u := SmallFront(s[1..]);
    var after, v := OtherFront(u);
    rest := v;
    c := Chunk(s[0], tail, after);
    NotSmall(u);
    hide *;
    assert after == "" ==> after + rest == rest;
    Lengths(s, c.first, tail, after, rest);
    assert IsChunk(c, rest) by { ChunkOf(c, rest); }
  }

  lemma NotSmall(u: string)
    ensures u != "" && !IsSmall(u[0]) && IsAlnum(u[0]) ==> IsUpper(u[0])
  {}

  lemma Lengths(s: string, x: char, a: string, b: string, c: string)
    requires s == [x] + (a + (b + c))
    ensures |s| == 1 + |a| + |b| + |c|
  {}

  lemma ChunkOf(c: Chunk, rest: string)
    requires IsAlnum(c.first) && (forall i | 0 <= i < |c.tail| :: IsSmall(c.tail[i]))
    requires forall i | 0 <= i < |c.after| :: !IsAlnum(c.after[i])
    requires c.after == "" && rest != "" ==> IsUpper(rest[0])
    ensures IsChunk(c, rest)
  {}

  lemma SmallFront(s: string) returns (front: string, back: string)
    ensures s == front + back && (forall i | 0 <= i < |front| :: IsSmall(front[i])) && (back != "" ==> !IsSmall(back[0]))
  {
    var n := SmallRun(s);
    front, back := s[..n], s[n..];
  }

  lemma OtherFront(s: string) returns (front: string, back: string)
    ensures s == front + back && (forall i | 0 <= i < |front| :: !IsAlnum(front[i])) && (back != "" ==> IsAlnum(back[0]))
  {
    var n := OtherRun(s);
    front, back := s[..n], s[n..];
  }

  /** Every text consists of such words after what is dropped, so WordsAreJoined says what becomes of any text. */
  lemma EveryTextHasChunks(s: string) returns (junk: string, chunks: seq<Chunk>)
    ensures s == junk + ChunksText(chunks) && AreChunks(chunks) && (forall i | 0 <= i < |junk| :: !IsAlpha(junk[i]))
    ensures chunks != [] ==> IsAlpha(chunks[0].first)
  {
    var n := Skipped(s);
    junk := s[..n];
    assert n < |s| ==> s[n..][0] == s[n];
    chunks := TextHasChunks(s[n..]);
    assert s == junk + s[n..];
  }

  lemma MoreChunks(c: Chunk, rest: seq<Chunk>)
    requires AreChunks(rest) && IsChunk(c, ChunksText(rest))
    ensures AreChunks([c] + rest)
    ensures ChunksText([c] + rest) == [c.first] + (c.tail + (c.after + ChunksText(rest)))
    ensures ChunksSnake([c] + rest) == [LowCase(c.first)]
      + (c.tail + (Underscores(|c.after|) + ((if c.after == "" && rest != [] then "_" else "") + ChunksSnake(rest))))
  {
    assert ([c] + rest)[1..] == rest;
  }

  /** The example of the documentation. */
  lemma DocumentedExample()
    ensures SnakeCase("^2ILoveYou!") == "i_love_you_"
  {
    var i, love, you := Chunk('I', "", ""), Chunk('L', "ove", ""), Chunk('Y', "ou", "!");
    ExampleChunks(i, love, you);
    Letters();
    Texts();
    hide *;
    MoreChunks(you, []);
    MoreChunks(love, [you]);
    MoreChunks(i, [love, you]);
    WordsAreJoined("^2", [i, love, you]);
  }

  lemma ExampleChunks(i: Chunk, love: Chunk, you: Chunk)
    requires i == Chunk('I', "", "") && love == Chunk('L', "ove", "") && you == Chunk('Y', "ou", "!")
    ensures IsChunk(you, "") && IsChunk(love, "You!") && IsChunk(i, "LoveYou!") && IsAlpha(i.first)
    ensures forall k | 0 <= k < 2 :: !IsAlpha("^2"[k])
    ensures AreChunks([]) && ChunksText([]) == "" && ChunksSnake([]) == ""
    ensures [you] + [] == [you] && [love] + [you] == [love, you] && [i] + [love, you] == [i, love, you]
    ensures [love, you] != [] && [you] != [] && [i, love, you][0] == i
  {}

  lemma Letters()
    ensures LowCase('I') == 'i' && LowCase('L') == 'l' && LowCase('Y') == 'y' && Underscores(1) == "_" && Underscores(0) == ""
  {
    assert 'I' as int + 32 == 'i' as int && 'L' as int + 32 == 'l' as int && 'Y' as int + 32 == 'y' as int;
  }

  lemma Texts()
    ensures "Y" + ("ou" + ("!" + "")) == "You!" && "L" + ("ove" + ("" + "You!")) == "LoveYou!"
    ensures "I" + ("" + ("" + "LoveYou!")) == "ILoveYou!" && "^2" + "ILoveYou!" == "^2ILoveYou!"
    ensures "y" + ("ou" + ("_" + ("" + ""))) == "you_" && "l" + ("ove" + ("" + ("_" + "you_"))) == "love_you_"
    ensures "i" + ("" + ("" + ("_" + "love_you_"))) == "i_love_you_"
  {}

  // ---------------------------------------------------------------- single characters

  /** Which letter a capital becomes, by the codes. */
  lemma LowerCaseIs(c: char)
    ensures ToLower(c) == if 65 <= c as int <= 90 then (c as int + 32) as char else c
  {}
}
