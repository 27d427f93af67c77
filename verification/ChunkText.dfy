/** chunk_text of omniai/rag/store.py: paragraphs packed into chunks of bounded size, each chunk
    starting with the tail of the one before it. */
module ChunkText {
  import opened Numbers
  import opened Options

  /** str.isspace for one character. */
  predicate IsSpace(c: char) {
    || '\U{9}' <= c <= '\U{D}' || '\U{1C}' <= c <= '\U{20}' || c == '\U{85}' || c == '\U{A0}'
    || c == '\U{1680}' || '\U{2000}' <= c <= '\U{200A}' || c == '\U{2028}' || c == '\U{2029}'
    || c == '\U{202F}' || c == '\U{205F}' || c == '\U{3000}'
  }

  const WHITE_SPACE :=
    ['\U{9}', '\U{A}', '\U{B}', '\U{C}', '\U{D}', '\U{1C}', '\U{1D}', '\U{1E}', '\U{1F}', '\U{20}', '\U{85}',
     '\U{A0}', '\U{1680}', '\U{2000}', '\U{2001}', '\U{2002}', '\U{2003}', '\U{2004}', '\U{2005}', '\U{2006}',
     '\U{2007}', '\U{2008}', '\U{2009}', '\U{200A}', '\U{2028}', '\U{2029}', '\U{202F}', '\U{205F}', '\U{3000}']

  /** The white space characters, one by one. */
  lemma WhiteSpaceIs(c: char)
    ensures IsSpace(c) <==> c in WHITE_SPACE
  {
  }

  function StripLeft(s: string): string {
    if s != "" && IsSpace(s[0]) then StripLeft(s[1..]) else s
  }

  function StripRight(s: string): string {
    if s != "" && IsSpace(s[|s| - 1]) then StripRight(s[..|s| - 1]) else s
  }

  function Strip(s: string): string {
    StripLeft(StripRight(s))
  }

  /** Index of the first blank line, or the length when there is none. */
  function FirstBreak(text: string): (i: nat)
    ensures i == |text| || (i + 2 <= |text| && text[i..i + 2] == "\n\n")
  {
    if |text| < 2 then |text|
    else if text[0] == '\n' && text[1] == '\n' then 0
    else 1 + FirstBreak(text[1..])
  }

  /** text.split("\n\n"). */
  function Split(text: string): seq<string> {
    var i := FirstBreak(text);
    if i == |text| then [text] else [text[..i]] + Split(text[i + 2..])
  }

  function StripAll(parts: seq<string>): seq<string> {
    if parts == [] then []
    else
      var p := Strip(parts[0]);
      (if p == "" then [] else [p]) + StripAll(parts[1..])
  }

  function Paragraphs(text: string): seq<string> {
    StripAll(Split(text))
  }

  // ---- the two loops ----

  /** current[-overlap:] if overlap else "", a Python slice that clamps. */
  function Tail(current: string, overlap: int): string {
    if overlap == 0 then ""
    else if overlap > 0 then (if |current| <= overlap then current else current[|current| - overlap..])
    else From(current, -overlap)
  }

  /** s[n:] for n >= 0. */
  function From(s: string, n: nat): string {
    if n >= |s| then "" else s[n..]
  }

  function Join(current: string, para: string): string {
    if current == "" then para else Strip(current + "\n\n" + para)
  }

  /** Chunks the inner loop cuts off. */
  function Cuts(current: string, size: nat, overlap: int): seq<string>
    requires size > overlap
    decreases |current|
  {
    if |current| <= size then []
    else [current[..size]] + Cuts(From(current, size - overlap), size, overlap)
  }

  /** What the inner loop leaves. */
  function Rest(current: string, size: nat, overlap: int): string
    requires size > overlap
    decreases |current|
  {
    if |current| <= size then current else Rest(From(current, size - overlap), size, overlap)
  }

  predicate MustFlush(current: string, para: string, size: nat) {
    current != "" && |current| + |para| + 2 > size
  }

  function Joined(current: string, para: string, size: nat, overlap: int): string {
    Join(if MustFlush(current, para, size) then Tail(current, overlap) else current, para)
  }

  function Flushed(current: string, para: string, size: nat): seq<string> {
    if MustFlush(current, para, size) then [current] else []
  }

  function Chunks(paras: seq<string>, current: string, size: int, overlap: int): seq<string>
    requires size > overlap && (paras == [] || size >= 0)
    decreases |paras|
  {
    if paras == [] then (if current == "" then [] else [current])
    else
      var joined := Joined(current, paras[0], size, overlap);
      Flushed(current, paras[0], size)
      + Cuts(joined, size, overlap)
      + Chunks(paras[1..], Rest(joined, size, overlap), size, overlap)
  }

  /** None is the ValueError for chunk_size <= overlap. The requires is when the call returns or
      raises at all: see ChunkingEndsIff. */
  method SplitIntoChunks(text: string, chunkSize: int, overlap: int) returns (result: Option<seq<string>>)
    requires chunkSize <= overlap || Paragraphs(text) == [] || chunkSize >= 0
    ensures result.None? <==> chunkSize <= overlap
    ensures result.Some? ==> result.value == Chunks(Paragraphs(text), "", chunkSize, overlap)
  {
    if chunkSize <= overlap {
      return None;
    }
    var paragraphs := Paragraphs(text);
    var chunks: seq<string> := [];
    var current := "";
    var i := 0;
    while i < |paragraphs|
      invariant 0 <= i <= |paragraphs|
      invariant chunks + Chunks(paragraphs[i..], current, chunkSize, overlap)
             == Chunks(paragraphs, "", chunkSize, overlap)
    {
      var para := paragraphs[i];
      OuterStep(chunks, paragraphs, i, current, chunkSize, overlap);
      assert chunks + [] == chunks;
      if current != "" && |current| + |para| + 2 > chunkSize {
        chunks := chunks + [current];
        current := Tail(current, overlap);
      }
      current := Join(current, para);
      var cuts;
      cuts, current := CutDown(current, chunkSize, overlap);
      chunks := chunks + cuts;
      i := i + 1;
    }
    if current != "" {
      chunks := chunks + [current];
    }
    return Some(chunks);
  }

  /** The inner loop. */
  method CutDown(text: string, size: nat, overlap: int) returns (cuts: seq<string>, current: string)
    requires size > overlap
    ensures cuts == Cuts(text, size, overlap) && current == Rest(text, size, overlap)
  {
    cuts, current := [], text;
    while |current| > size
      invariant cuts + Cuts(current, size, overlap) == Cuts(text, size, overlap)
      invariant Rest(current, size, overlap) == Rest(text, size, overlap)
      decreases |current|
    {
      CutsUnfold(current, size, overlap);
      MoveOver(cuts, current[..size], Cuts(From(current, size - overlap), size, overlap));
      cuts := cuts + [current[..size]];
      current := From(current, size - overlap);
    }
  }

  lemma CutsUnfold(w: string, size: nat, overlap: int)
    requires overlap < size < |w|
    ensures var next := From(w, size - overlap);
            && Cuts(w, size, overlap) == [w[..size]] + Cuts(next, size, overlap)
            && Rest(w, size, overlap) == Rest(next, size, overlap)
            && |next| < |w|
  {
  }

  lemma MoveOver(cuts: seq<string>, cut: string, more: seq<string>)
    ensures cuts + ([cut] + more) == cuts + [cut] + more
  {
  }

  /** What n rounds of the inner loop leave of a text, whatever the loop's guard says. */
  function AfterCuts(current: string, size: int, overlap: int, n: nat): string
    requires size > overlap
  {
    if n == 0 then current else From(AfterCuts(current, size, overlap, n - 1), size - overlap)
  }

  /** The inner loop ends: after some number of rounds its guard is false. */
  ghost predicate CuttingEnds(current: string, size: int, overlap: int)
    requires size > overlap
  {
    exists n: nat :: |AfterCuts(current, size, overlap, n)| <= size
  }

  lemma {:induction false} CutsShrink(current: string, size: int, overlap: int, n: nat)
    requires size > overlap
    ensures |AfterCuts(current, size, overlap, n)| <= AtLeast(|current| - n, 0)
  {
    if n > 0 {
      CutsShrink(current, size, overlap, n - 1);
    }
  }

  /** The inner loop ends, on any text, if and only if the size is not negative. */
  lemma CuttingEndsIff(current: string, size: int, overlap: int)
    requires size > overlap
    ensures CuttingEnds(current, size, overlap) <==> size >= 0
  {
    CutsShrink(current, size, overlap, |current|);
  }

  /** chunk_text returns or raises if and only if it refuses its arguments, finds no paragraph, or
      is given a size that is not negative; otherwise it never leaves the inner loop of its first
      paragraph. */
  lemma ChunkingEndsIff(text: string, size: int, overlap: int)
    ensures (|| size <= overlap
             || Paragraphs(text) == []
             || CuttingEnds(Join("", Paragraphs(text)[0]), size, overlap))
            <==> size <= overlap || Paragraphs(text) == [] || size >= 0
  {
    if size > overlap && Paragraphs(text) != [] {
      CuttingEndsIff(Join("", Paragraphs(text)[0]), size, overlap);
    }
  }

  lemma OuterStep(chunks: seq<string>, paras: seq<string>, i: nat, current: string, size: nat, overlap: int)
    requires size > overlap && i < |paras|
    ensures var joined := Joined(current, paras[i], size, overlap);
            chunks + Chunks(paras[i..], current, size, overlap)
            == chunks + Flushed(current, paras[i], size) + Cuts(joined, size, overlap)
               + Chunks(paras[i + 1..], Rest(joined, size, overlap), size, overlap)
  {
    var joined := Joined(current, paras[i], size, overlap);
    var rest := Rest(joined, size, overlap);
    assert paras[i..][1..] == paras[i + 1..] && paras[i..][0] == paras[i];
    assert Chunks(paras[i..], current, size, overlap)
        == Flushed(current, paras[i], size) + Cuts(joined, size, overlap) + Chunks(paras[i + 1..], rest, size, overlap);
    Reassociate(chunks, Flushed(current, paras[i], size), Cuts(joined, size, overlap),
                Chunks(paras[i + 1..], rest, size, overlap));
  }

  lemma Reassociate(a: seq<string>, b: seq<string>, c: seq<string>, d: seq<string>)
    ensures a + (b + c + d) == a + b + c + d
  {
  }

  // ---- characters that are not white space ----

  function NonSpace(s: string): string {
    if s == "" then ""
    else if IsSpace(s[0]) then NonSpace(s[1..])
    else [s[0]] + NonSpace(s[1..])
  }

  function Concat(parts: seq<string>): string {
    if parts == [] then "" else parts[0] + Concat(parts[1..])
  }

  lemma {:induction false} NonSpaceConcat(a: string, b: string)
    ensures NonSpace(a + b) == NonSpace(a) + NonSpace(b)
  {
    if a == "" {
      assert a + b == b;
    } else {
      assert (a + b)[1..] == a[1..] + b;
      NonSpaceConcat(a[1..], b);
    }
  }

  lemma {:induction false} ConcatOfConcat(a: seq<string>, b: seq<string>)
    ensures Concat(a + b) == Concat(a) + Concat(b)
  {
    if a == [] {
      assert a + b == b;
    } else {
      assert (a + b)[1..] == a[1..] + b;
      ConcatOfConcat(a[1..], b);
    }
  }

  lemma {:induction false} StripLeftFacts(s: string)
    ensures |StripLeft(s)| <= |s| && StripLeft(s) == s[|s| - |StripLeft(s)|..]
    ensures NonSpace(StripLeft(s)) == NonSpace(s)
    ensures StripLeft(s) != "" ==> !IsSpace(StripLeft(s)[0])
    ensures forall k :: 0 <= k < |s| && !IsSpace(s[k]) ==> |s| - |StripLeft(s)| <= k
  {
    if s != "" && IsSpace(s[0]) {
      StripLeftFacts(s[1..]);
      forall k | 0 <= k < |s| && !IsSpace(s[k]) ensures |s| - |StripLeft(s)| <= k {
        assert s[1..][k - 1] == s[k];
      }
    }
  }

  lemma {:induction false} StripRightFacts(s: string)
    ensures |StripRight(s)| <= |s| && StripRight(s) == s[..|StripRight(s)|]
    ensures NonSpace(StripRight(s)) == NonSpace(s)
    ensures s != "" && !IsSpace(s[|s| - 1]) ==> StripRight(s) == s
    ensures StripRight(s) != "" ==> !IsSpace(StripRight(s)[|StripRight(s)| - 1])
  {
    if s != "" && IsSpace(s[|s| - 1]) {
      StripRightFacts(s[..|s| - 1]);
      assert s == s[..|s| - 1] + [s[|s| - 1]];
      NonSpaceConcat(s[..|s| - 1], [s[|s| - 1]]);
    }
  }

  /** A paragraph after strip(): not empty, no white space at either end. */
  predicate Trimmed(p: string) {
    p != "" && !IsSpace(p[0]) && !IsSpace(p[|p| - 1])
  }

  lemma StripFacts(s: string)
    ensures NonSpace(Strip(s)) == NonSpace(s)
    ensures Strip(s) != "" ==> Trimmed(Strip(s))
  {
    StripRightFacts(s);
    StripLeftFacts(StripRight(s));
  }

  lemma {:induction false} StripAllFacts(parts: seq<string>)
    ensures NonSpace(Concat(StripAll(parts))) == NonSpace(Concat(parts))
    ensures forall i :: 0 <= i < |StripAll(parts)| ==> Trimmed(StripAll(parts)[i])
  {
    if parts != [] {
      StripFacts(parts[0]);
      StripAllFacts(parts[1..]);
      NonSpaceConcat(parts[0], Concat(parts[1..]));
      var p := Strip(parts[0]);
      if p != "" {
        assert StripAll(parts)[1..] == StripAll(parts[1..]);
        NonSpaceConcat(p, Concat(StripAll(parts[1..])));
      } else {
        assert StripAll(parts) == StripAll(parts[1..]);
      }
    }
  }

  lemma {:induction false} SplitFacts(text: string)
    ensures NonSpace(Concat(Split(text))) == NonSpace(text)
    decreases |text|
  {
    var i := FirstBreak(text);
    if i == |text| {
      assert Concat([text]) == text + Concat([text][1..]);
      assert [text][1..] == [] && text + "" == text;
    } else {
      SplitFacts(text[i + 2..]);
      AroundBreak(text[..i], text[i + 2..]);
      NonSpaceConcat(text[..i], Concat(Split(text[i + 2..])));
      assert text == text[..i] + "\n\n" + text[i + 2..];
      assert Split(text)[1..] == Split(text[i + 2..]);
    }
  }

  lemma AroundBreak(a: string, b: string)
    ensures NonSpace(a + "\n\n" + b) == NonSpace(a) + NonSpace(b)
  {
    NonSpaceConcat(a + "\n\n", b);
    NonSpaceConcat(a, "\n\n");
    BreakIsSpace();
  }

  lemma BreakIsSpace()
    ensures NonSpace("\n\n") == ""
  {
    assert "\n\n"[1..] == "\n";
    assert "\n"[1..] == "";
  }

  /** Splitting and stripping only drops white space. */
  lemma ParagraphsKeepText(text: string)
    ensures NonSpace(Concat(Paragraphs(text))) == NonSpace(text)
    ensures forall i :: 0 <= i < |Paragraphs(text)| ==> Trimmed(Paragraphs(text)[i])
  {
    SplitFacts(text);
    StripAllFacts(Split(text));
  }

  // ---- carried and fresh parts ----

  /** A chunk seen as what it repeats and what it adds. */
  datatype Piece = Piece(carried: string, added: string) {
    function Whole(): string {
      carried + added
    }
  }

  predicate IsSuffix(s: string, of: string) {
    |s| <= |of| && of[|of| - |s|..] == s
  }

  predicate ArePieces(chunks: seq<string>, pieces: seq<Piece>) {
    |pieces| == |chunks| && forall i :: 0 <= i < |chunks| ==> chunks[i] == pieces[i].Whole()
  }

  function Before(chunks: seq<string>, i: nat, previous: string): string
    requires i < |chunks|
  {
    if i == 0 then previous else chunks[i - 1]
  }

  /** The piece adds something, and repeats a suffix of the chunk before it, of at most `overlap`
      characters. */
  predicate Continues(p: Piece, previous: string, overlap: int) {
    p.added != "" && |p.carried| <= overlap && IsSuffix(p.carried, previous)
  }

  /** Piece i is chunk i and continues the chunk before it. */
  predicate PieceAt(chunks: seq<string>, pieces: seq<Piece>, i: nat, previous: string, overlap: int)
    requires i < |chunks| == |pieces|
  {
    chunks[i] == pieces[i].Whole() && Continues(pieces[i], Before(chunks, i, previous), overlap)
  }

  /** Every piece continues the chunk before it; `previous` is the one before the first. */
  ghost predicate Chained(chunks: seq<string>, pieces: seq<Piece>, previous: string, overlap: int) {
    |pieces| == |chunks| && forall i :: 0 <= i < |chunks| ==> PieceAt(chunks, pieces, i, previous, overlap)
  }

  function FreshText(pieces: seq<Piece>): string {
    if pieces == [] then "" else pieces[0].added + FreshText(pieces[1..])
  }

  function Last(chunks: seq<string>, previous: string): string {
    if chunks == [] then previous else chunks[|chunks| - 1]
  }

  predicate Within(chunks: seq<string>, size: nat) {
    forall i :: 0 <= i < |chunks| ==> |chunks[i]| <= size
  }

  lemma WithinConcat(a: seq<string>, b: seq<string>, size: nat)
    requires Within(a, size) && Within(b, size)
    ensures Within(a + b, size)
  {
  }

  lemma LastConcat(a: seq<string>, b: seq<string>, previous: string)
    ensures Last(a + b, previous) == Last(b, Last(a, previous))
  {
  }

  lemma {:induction false} FreshOfConcat(a: seq<Piece>, b: seq<Piece>)
    ensures FreshText(a + b) == FreshText(a) + FreshText(b)
  {
    if a == [] {
      assert a + b == b;
    } else {
      assert (a + b)[1..] == a[1..] + b;
      FreshOfConcat(a[1..], b);
    }
  }

  lemma ChainedConcat(chunks: seq<string>, pieces: seq<Piece>, more: seq<string>, morePieces: seq<Piece>,
                      previous: string, overlap: int)
    requires Chained(chunks, pieces, previous, overlap)
    requires Chained(more, morePieces, Last(chunks, previous), overlap)
    ensures Chained(chunks + more, pieces + morePieces, previous, overlap)
  {
    var all, allPieces := chunks + more, pieces + morePieces;
    forall i | 0 <= i < |all| ensures PieceAt(all, allPieces, i, previous, overlap) {
      if i < |chunks| {
        assert PieceAt(chunks, pieces, i, previous, overlap);
        assert Before(all, i, previous) == Before(chunks, i, previous);
      } else {
        var k := i - |chunks|;
        assert PieceAt(more, morePieces, k, Last(chunks, previous), overlap);
        BeforeConcat(chunks, more, k, previous);
      }
    }
  }

  lemma BeforeConcat(chunks: seq<string>, more: seq<string>, k: nat, previous: string)
    requires k < |more|
    ensures Before(chunks + more, |chunks| + k, previous) == Before(more, k, Last(chunks, previous))
  {
  }

  lemma ChainedOne(p: Piece, previous: string, overlap: int)
    requires Continues(p, previous, overlap)
    ensures Chained([p.Whole()], [p], previous, overlap)
  {
    assert PieceAt([p.Whole()], [p], 0, previous, overlap);
  }

  /** The inner loop distributes a piece's fresh text, unchanged, over the cuts and the rest. */
  lemma {:induction false} CutPieces(p: Piece, previous: string, size: nat, overlap: int)
    returns (pieces: seq<Piece>, rest: Piece)
    requires 0 <= overlap < size && Continues(p, previous, overlap)
    ensures var cuts := Cuts(p.Whole(), size, overlap);
            && Chained(cuts, pieces, previous, overlap)
            && Continues(rest, Last(cuts, previous), overlap)
            && Within(cuts, size)
    ensures rest.Whole() == Rest(p.Whole(), size, overlap) && |rest.Whole()| <= size
    ensures FreshText(pieces) + rest.added == p.added
    decreases |p.Whole()|
  {
    if |p.Whole()| <= size {
      return [], p;
    }
    var first, next := CutOne(p, previous, size, overlap);
    var more;
    more, rest := CutPieces(next, first.Whole(), size, overlap);
    pieces := [first] + more;
    CutsUnfold(p.Whole(), size, overlap);
    ChainedFirst(first, Cuts(next.Whole(), size, overlap), more, previous, overlap);
    assert pieces[1..] == more;
    Regroup3(first.added, FreshText(more), rest.added);
  }

  /** A chain of chunks with one more in front. */
  lemma ChainedFirst(first: Piece, cuts: seq<string>, more: seq<Piece>, previous: string, overlap: int)
    requires Continues(first, previous, overlap) && Chained(cuts, more, first.Whole(), overlap)
    ensures Chained([first.Whole()] + cuts, [first] + more, previous, overlap)
    ensures Last([first.Whole()] + cuts, previous) == Last(cuts, first.Whole())
  {
    ChainedOne(first, previous, overlap);
    ChainedConcat([first.Whole()], [first], cuts, more, previous, overlap);
  }

  lemma Regroup3(a: string, b: string, c: string)
    ensures (a + b) + c == a + (b + c)
  {
  }

  /** One cut of the inner loop, as pieces. */
  lemma CutOne(p: Piece, previous: string, size: nat, overlap: int) returns (first: Piece, next: Piece)
    requires 0 <= overlap < size < |p.Whole()| && Continues(p, previous, overlap)
    ensures first.Whole() == p.Whole()[..size] && Continues(first, previous, overlap)
    ensures next.Whole() == From(p.Whole(), size - overlap) && Continues(next, first.Whole(), overlap)
    ensures first.added + next.added == p.added
  {
    var w, m := p.Whole(), size - |p.carried|;
    first := Piece(p.carried, p.added[..m]);
    next := Piece(w[size - overlap..size], p.added[m..]);
    CutConcat(p.carried, p.added, m);
    SlicesJoin(w, size - overlap, size);
    SuffixOfPrefix(w, size, size - overlap);
  }

  lemma CutConcat(a: string, b: string, m: nat)
    requires m <= |b|
    ensures a + b[..m] == (a + b)[..|a| + m]
    ensures (a + b)[|a| + m..] == b[m..]
    ensures b[..m] + b[m..] == b
  {
  }

  lemma SlicesJoin(w: string, i: nat, j: nat)
    requires i <= j <= |w|
    ensures w[i..j] + w[j..] == w[i..]
  {
  }

  lemma SuffixOfPrefix(w: string, k: nat, i: nat)
    requires i <= k <= |w|
    ensures w[..k][i..] == w[i..k]
  {
  }

  /** Appending a paragraph keeps the carried part a suffix and loses only white space. */
  lemma JoinPiece(base: Piece, para: string, previous: string, overlap: int) returns (joined: Piece)
    requires Trimmed(para) && |base.carried| <= overlap && IsSuffix(base.carried, previous)
    ensures Continues(joined, previous, overlap)
    ensures joined.Whole() == Join(base.Whole(), para)
    ensures |joined.Whole()| <= |base.Whole()| + 2 + |para|
    ensures NonSpace(joined.added) == NonSpace(base.added) + NonSpace(para)
  {
    if base.Whole() == "" {
      assert base.added == "";
      return Piece("", para);
    }
    var added := base.added + "\n\n" + para;
    BreakConcat(base.carried, base.added, para);
    StripJoined(base.Whole(), para);
    AroundBreak(base.added, para);
    joined := StripPiece(base.carried, added);
    if joined.carried != "" {
      SuffixOfSuffix(joined.carried, base.carried, previous);
    }
  }

  lemma BreakConcat(a: string, b: string, c: string)
    ensures a + (b + "\n\n" + c) == a + b + "\n\n" + c
  {
  }

  lemma SuffixOfSuffix(a: string, b: string, c: string)
    requires IsSuffix(a, b) && IsSuffix(b, c)
    ensures IsSuffix(a, c)
  {
    assert c[|c| - |b|..][|b| - |a|..] == c[|c| - |a|..];
  }

  /** Stripping the left end of a piece shortens what is carried, or drops all of it and white space
      of what is added. */
  lemma StripPiece(carried: string, added: string) returns (stripped: Piece)
    requires StripLeft(carried + added) != "" && added != ""
    ensures stripped.Whole() == StripLeft(carried + added)
    ensures IsSuffix(stripped.carried, carried) && stripped.added != ""
    ensures NonSpace(stripped.added) == NonSpace(added)
  {
    var whole := carried + added;
    StripLeftFacts(whole);
    var k := |whole| - |StripLeft(whole)|;
    if k < |carried| {
      stripped := Piece(carried[k..], added);
      assert carried[k..] + added == whole[k..];
    } else {
      stripped := Piece("", StripLeft(whole));
      StripAcross(carried, added);
    }
  }

  /** Stripping a joined text only works on its left end, and stops before the paragraph. */
  lemma StripJoined(current: string, para: string)
    requires Trimmed(para)
    ensures var whole := current + "\n\n" + para;
            Strip(whole) == StripLeft(whole) && |para| <= |StripLeft(whole)| <= |whole|
  {
    var whole := current + "\n\n" + para;
    assert whole[|whole| - 1] == para[|para| - 1];
    StripRightFacts(whole);
    StripLeftFacts(whole);
    assert whole[|current| + 2] == para[0];
  }

  /** When stripping eats the whole carried part, what it eats of the fresh part is white space. */
  lemma {:induction false} StripAcross(carried: string, added: string)
    requires |StripLeft(carried + added)| <= |added|
    ensures NonSpace(StripLeft(carried + added)) == NonSpace(added)
  {
    if carried == "" {
      assert carried + added == added;
      StripLeftFacts(added);
    } else {
      assert (carried + added)[1..] == carried[1..] + added;
      StripAcross(carried[1..], added);
    }
  }

  lemma TailFacts(current: string, overlap: nat)
    ensures IsSuffix(Tail(current, overlap), current) && |Tail(current, overlap)| <= overlap
  {
  }

  /** The chunks that one turn of the outer loop closes. */
  function Closed(current: string, para: string, size: nat, overlap: int): seq<string>
    requires size > overlap
  {
    Flushed(current, para, size) + Cuts(Joined(current, para, size, overlap), size, overlap)
  }

  /** One turn of the outer loop. */
  lemma OneParagraph(current: Piece, previous: string, para: string, size: nat, overlap: int)
    returns (done: seq<Piece>, rest: Piece)
    requires 0 <= overlap < size && Trimmed(para) && |current.Whole()| <= size
    requires current == Piece("", "") || Continues(current, previous, overlap)
    ensures var chunks := Closed(current.Whole(), para, size, overlap);
            && Chained(chunks, done, previous, overlap)
            && Continues(rest, Last(chunks, previous), overlap)
            && Within(chunks, size)
    ensures rest.Whole() == Rest(Joined(current.Whole(), para, size, overlap), size, overlap)
    ensures |rest.Whole()| <= size
    ensures NonSpace(FreshText(done)) + NonSpace(rest.added) == NonSpace(current.added) + NonSpace(para)
  {
    var flushed, base := FlushPiece(current, previous, para, size, overlap);
    var chunks := Flushed(current.Whole(), para, size);
    var joined := JoinPiece(base, para, Last(chunks, previous), overlap);
    var cutPieces;
    cutPieces, rest := CutPieces(joined, Last(chunks, previous), size, overlap);
    ChainedConcat(chunks, flushed, Cuts(joined.Whole(), size, overlap), cutPieces, previous, overlap);
    WithinConcat(chunks, Cuts(joined.Whole(), size, overlap), size);
    LastConcat(chunks, Cuts(joined.Whole(), size, overlap), previous);
    done := flushed + cutPieces;
    FreshAddsUp(flushed, cutPieces, rest.added, base.added, para);
  }

  lemma FreshAddsUp(flushed: seq<Piece>, cut: seq<Piece>, rest: string, base: string, para: string)
    requires NonSpace(FreshText(cut) + rest) == NonSpace(base) + NonSpace(para)
    ensures NonSpace(FreshText(flushed + cut)) + NonSpace(rest)
         == NonSpace(FreshText(flushed)) + NonSpace(base) + NonSpace(para)
  {
    FreshOfConcat(flushed, cut);
    NonSpaceConcat(FreshText(flushed), FreshText(cut));
    NonSpaceConcat(FreshText(cut), rest);
    Regroup3(NonSpace(FreshText(flushed)), NonSpace(FreshText(cut)), NonSpace(rest));
    Regroup3(NonSpace(FreshText(flushed)), NonSpace(base), NonSpace(para));
  }

  /** The outer loop, from any intermediate state. */
  lemma {:induction false} ChunkPieces(paras: seq<string>, current: Piece, previous: string, size: nat, overlap: int)
    returns (pieces: seq<Piece>)
    requires 0 <= overlap < size
    requires forall i :: 0 <= i < |paras| ==> Trimmed(paras[i])
    requires current == Piece("", "") || Continues(current, previous, overlap)
    requires |current.Whole()| <= size
    ensures var chunks := Chunks(paras, current.Whole(), size, overlap);
            Chained(chunks, pieces, previous, overlap) && Within(chunks, size)
    ensures NonSpace(FreshText(pieces)) == NonSpace(current.added) + NonSpace(Concat(paras))
    decreases |paras|
  {
    if paras == [] {
      if current.Whole() != "" {
        ChainedOne(current, previous, overlap);
      }
      pieces := if current.Whole() == "" then [] else [current];
      FreshOfOne(current);
      return;
    }
    var done, rest := OneParagraph(current, previous, paras[0], size, overlap);
    var chunks := Closed(current.Whole(), paras[0], size, overlap);
    var more := Chunks(paras[1..], rest.Whole(), size, overlap);
    var later := ChunkPieces(paras[1..], rest, Last(chunks, previous), size, overlap);
    ChainedConcat(chunks, done, more, later, previous, overlap);
    pieces := done + later;
    ChunksUnfold(paras, current.Whole(), size, overlap);
    FreshOfConcat(done, later);
    NonSpaceConcat(FreshText(done), FreshText(later));
    NonSpaceConcat(paras[0], Concat(paras[1..]));
    Regroup3(NonSpace(FreshText(done)), NonSpace(rest.added), NonSpace(Concat(paras[1..])));
    Regroup3(NonSpace(current.added), NonSpace(paras[0]), NonSpace(Concat(paras[1..])));
  }

  lemma ChunksUnfold(paras: seq<string>, current: string, size: nat, overlap: int)
    requires size > overlap && paras != []
    ensures Chunks(paras, current, size, overlap)
         == Closed(current, paras[0], size, overlap)
            + Chunks(paras[1..], Rest(Joined(current, paras[0], size, overlap), size, overlap), size, overlap)
  {
  }

  lemma FreshOfOne(p: Piece)
    ensures FreshText([p]) == p.added
  {
    assert [p][1..] == [] && p.added + "" == p.added;
  }

  /** The flush before a paragraph that does not fit: the current chunk is closed and its tail
      carried over. */
  lemma FlushPiece(current: Piece, previous: string, para: string, size: nat, overlap: int)
    returns (flushed: seq<Piece>, base: Piece)
    requires 0 <= overlap < size && |current.Whole()| <= size
    requires current == Piece("", "") || Continues(current, previous, overlap)
    ensures var chunks := Flushed(current.Whole(), para, size);
            && Chained(chunks, flushed, previous, overlap)
            && Within(chunks, size)
            && |base.carried| <= overlap && IsSuffix(base.carried, Last(chunks, previous))
            && (base.added == "" ==> base.Whole() == base.carried)
            && Join(base.Whole(), para) == Joined(current.Whole(), para, size, overlap)
    ensures NonSpace(FreshText(flushed)) + NonSpace(base.added) == NonSpace(current.added)
  {
    var cur := current.Whole();
    if MustFlush(cur, para, size) {
      flushed := [current];
      ChainedOne(current, previous, overlap);
      base := Piece(Tail(cur, overlap), "");
      TailFacts(cur, overlap);
      FreshOfOne(current);
      assert base.Whole() == Tail(cur, overlap);
    } else {
      flushed, base := [], current;
    }
  }

  /** Nothing is lost and nothing is doubled: for 0 <= overlap < size every chunk is at most
      `size` long and is a suffix of the chunk before it, of at most `overlap` characters,
      followed by a non-empty new part; the new parts together are the text's characters other
      than white space, in order. */
  lemma ChunksCoverText(text: string, size: nat, overlap: int)
    requires 0 <= overlap < size
    ensures var chunks := Chunks(Paragraphs(text), "", size, overlap);
            && (forall i :: 0 <= i < |chunks| ==> 0 < |chunks[i]| <= size)
            && (exists pieces :: Chained(chunks, pieces, "", overlap) && NonSpace(FreshText(pieces)) == NonSpace(text))
  {
    ParagraphsKeepText(text);
    var pieces := ChunkPieces(Paragraphs(text), Piece("", ""), "", size, overlap);
    var chunks := Chunks(Paragraphs(text), "", size, overlap);
    forall i | 0 <= i < |chunks| ensures 0 < |chunks[i]| {
      assert PieceAt(chunks, pieces, i, "", overlap);
    }
  }

  // ---- a text that fits is one chunk ----

  /** Paragraphs appended one after the other. */
  function Appended(current: string, paras: seq<string>): string
    decreases |paras|
  {
    if paras == [] then current else Appended(current + "\n\n" + paras[0], paras[1..])
  }

  lemma {:induction false} AppendedGrows(current: string, paras: seq<string>)
    ensures |current| <= |Appended(current, paras)|
    decreases |paras|
  {
    if paras != [] {
      AppendedGrows(current + "\n\n" + paras[0], paras[1..]);
    }
  }

  /** The joined text is stripped already. */
  lemma JoinAppends(current: string, para: string)
    requires current != "" && !IsSpace(current[0]) && Trimmed(para)
    ensures Join(current, para) == current + "\n\n" + para
  {
    StripJoined(current, para);
    assert (current + "\n\n" + para)[0] == current[0];
  }

  lemma {:induction false} FittingRestIsOneChunk(paras: seq<string>, current: string, size: nat, overlap: int)
    requires size > overlap && current != "" && !IsSpace(current[0])
    requires forall i :: 0 <= i < |paras| ==> Trimmed(paras[i])
    requires |Appended(current, paras)| <= size
    ensures Chunks(paras, current, size, overlap) == [Appended(current, paras)]
    decreases |paras|
  {
    if paras != [] {
      var joined := current + "\n\n" + paras[0];
      JoinAppends(current, paras[0]);
      AppendedGrows(joined, paras[1..]);
      assert joined[0] == current[0];
      FittingRestIsOneChunk(paras[1..], joined, size, overlap);
      ChunksUnfold(paras, current, size, overlap);
    }
  }

  /** No chunk is closed early: paragraphs that fit into one chunk together, with a blank line between
      each two, become that chunk. */
  lemma FittingTextIsOneChunk(text: string, size: nat, overlap: int)
    requires size > overlap && Paragraphs(text) != []
    requires |Appended(Paragraphs(text)[0], Paragraphs(text)[1..])| <= size
    ensures Chunks(Paragraphs(text), "", size, overlap) == [Appended(Paragraphs(text)[0], Paragraphs(text)[1..])]
  {
    ParagraphsKeepText(text);
    var paras := Paragraphs(text);
    AppendedGrows(paras[0], paras[1..]);
    FittingRestIsOneChunk(paras[1..], paras[0], size, overlap);
    ChunksUnfold(paras, "", size, overlap);
  }

  // ---- chunks overlap ----

  /** The last characters of a chunk, as many as the overlap. */
  function LastCharacters(chunk: string, overlap: nat): (t: string)
    ensures |t| == if |chunk| < overlap then |chunk| else overlap
    ensures IsSuffix(t, chunk)
  {
    if |chunk| < overlap then chunk else chunk[|chunk| - overlap..]
  }

  /** `next` starts with the end of `previous`, with or without its leading white space. */
  predicate Overlaps(previous: string, next: string, overlap: nat) {
    LastCharacters(previous, overlap) <= next || StripLeft(LastCharacters(previous, overlap)) <= next
  }

  /** Every chunk overlaps the one before it; `previous` is the one before the first, empty if there is
      none. */
  ghost predicate Linked(chunks: seq<string>, previous: string, overlap: nat) {
    forall i :: 0 <= i < |chunks| ==> LinkedAt(chunks, i, previous, overlap)
  }

  predicate LinkedAt(chunks: seq<string>, i: nat, previous: string, overlap: nat)
    requires i < |chunks|
  {
    Overlaps(Before(chunks, i, previous), chunks[i], overlap)
  }

  lemma LinkedAtConcat(chunks: seq<string>, more: seq<string>, i: nat, previous: string, overlap: nat)
    requires i < |chunks + more|
    requires i < |chunks| ==> LinkedAt(chunks, i, previous, overlap)
    requires i >= |chunks| ==> LinkedAt(more, i - |chunks|, Last(chunks, previous), overlap)
    ensures LinkedAt(chunks + more, i, previous, overlap)
  {
    if i < |chunks| {
      assert Before(chunks + more, i, previous) == Before(chunks, i, previous);
    } else {
      BeforeConcat(chunks, more, i - |chunks|, previous);
    }
  }

  lemma LinkedConcat(chunks: seq<string>, more: seq<string>, previous: string, overlap: nat)
    requires Linked(chunks, previous, overlap) && Linked(more, Last(chunks, previous), overlap)
    ensures Linked(chunks + more, previous, overlap)
  {
    forall i | 0 <= i < |chunks + more| ensures LinkedAt(chunks + more, i, previous, overlap) {
      LinkedAtConcat(chunks, more, i, previous, overlap);
    }
  }

  lemma LinkedOne(chunk: string, previous: string, overlap: nat)
    requires Overlaps(previous, chunk, overlap)
    ensures Linked([chunk], previous, overlap)
  {
    assert LinkedAt([chunk], 0, previous, overlap);
  }

  /** A cut keeps the start of a text and repeats the overlap. */
  lemma OneCutOverlaps(w: string, previous: string, size: nat, overlap: nat)
    requires 0 < overlap < size < |w| && Overlaps(previous, w, overlap)
    ensures Overlaps(previous, w[..size], overlap)
    ensures Overlaps(w[..size], From(w, size - overlap), overlap)
  {
    var t := LastCharacters(previous, overlap);
    StripLeftFacts(t);
    if t <= w {
      PrefixOfPrefix(t, w, size);
    } else {
      PrefixOfPrefix(StripLeft(t), w, size);
    }
    SuffixOfPrefix(w, size, size - overlap);
    SlicesJoin(w, size - overlap, size);
  }

  lemma PrefixOfPrefix(u: string, w: string, k: nat)
    requires u <= w && |u| <= k <= |w|
    ensures u <= w[..k]
  {
  }

  /** The inner loop's cuts overlap, and so does the rest. */
  lemma {:induction false} CutsOverlap(w: string, previous: string, size: nat, overlap: nat)
    requires 0 < overlap < size && Overlaps(previous, w, overlap)
    ensures Linked(Cuts(w, size, overlap), previous, overlap)
    ensures Overlaps(Last(Cuts(w, size, overlap), previous), Rest(w, size, overlap), overlap)
    decreases |w|
  {
    if |w| > size {
      var first, next := w[..size], From(w, size - overlap);
      OneCutOverlaps(w, previous, size, overlap);
      CutsOverlap(next, first, size, overlap);
      CutsUnfold(w, size, overlap);
      LinkedOne(first, previous, overlap);
      LinkedConcat([first], Cuts(next, size, overlap), previous, overlap);
      LastConcat([first], Cuts(next, size, overlap), previous);
    }
  }

  lemma {:induction false} StripLeftConcat(a: string, b: string)
    ensures StripLeft(a) != "" ==> StripLeft(a + b) == StripLeft(a) + b
  {
    if a != "" && IsSpace(a[0]) {
      assert (a + b)[1..] == a[1..] + b;
      StripLeftConcat(a[1..], b);
    }
  }

  /** Appending a paragraph keeps the start of a text, up to leading white space. */
  lemma JoinOverlaps(previous: string, base: string, para: string, overlap: nat)
    requires Overlaps(previous, base, overlap) && Trimmed(para)
    ensures Overlaps(previous, Join(base, para), overlap)
  {
    var t := LastCharacters(previous, overlap);
    if base == "" {
      assert StripLeft(t) == "";
    } else {
      StripJoined(base, para);
      if StripLeft(t) != "" {
        StripTwice(t);
        StripKeepsStart(if t <= base then t else StripLeft(t), base, "\n\n" + para);
        assert base + "\n\n" + para == base + ("\n\n" + para);
      }
    }
  }

  /** Stripping a text strips its start. */
  lemma StripKeepsStart(start: string, base: string, more: string)
    requires start <= base && StripLeft(start) != ""
    ensures StripLeft(start) <= StripLeft(base + more)
  {
    var rest := base[|start|..] + more;
    assert base + more == start + rest;
    StripLeftConcat(start, rest);
  }

  lemma StripTwice(s: string)
    ensures StripLeft(StripLeft(s)) == StripLeft(s)
  {
    StripLeftFacts(s);
  }

  /** What a flush leaves overlaps the chunk it closes. */
  lemma FlushOverlaps(current: string, previous: string, para: string, size: nat, overlap: nat)
    requires 0 < overlap < size && Trimmed(para) && Overlaps(previous, current, overlap)
    ensures Linked(Flushed(current, para, size), previous, overlap)
    ensures Overlaps(Last(Flushed(current, para, size), previous), Joined(current, para, size, overlap), overlap)
  {
    if MustFlush(current, para, size) {
      LinkedOne(current, previous, overlap);
      assert Tail(current, overlap) == LastCharacters(current, overlap);
      JoinOverlaps(current, Tail(current, overlap), para, overlap);
    } else {
      JoinOverlaps(previous, current, para, overlap);
    }
  }

  /** The outer loop, from any intermediate state. */
  lemma {:induction false} ChunksLinked(paras: seq<string>, current: string, previous: string, size: nat, overlap: nat)
    requires 0 < overlap < size && Overlaps(previous, current, overlap)
    requires forall i :: 0 <= i < |paras| ==> Trimmed(paras[i])
    ensures Linked(Chunks(paras, current, size, overlap), previous, overlap)
    decreases |paras|
  {
    if paras == [] {
      if current != "" {
        LinkedOne(current, previous, overlap);
      }
    } else {
      var joined := Joined(current, paras[0], size, overlap);
      var flushed, cuts := Flushed(current, paras[0], size), Cuts(joined, size, overlap);
      FlushOverlaps(current, previous, paras[0], size, overlap);
      CutsOverlap(joined, Last(flushed, previous), size, overlap);
      LinkedConcat(flushed, cuts, previous, overlap);
      LastConcat(flushed, cuts, previous);
      ChunksLinked(paras[1..], Rest(joined, size, overlap), Last(flushed + cuts, previous), size, overlap);
      LinkedConcat(flushed + cuts, Chunks(paras[1..], Rest(joined, size, overlap), size, overlap), previous, overlap);
      ChunksUnfold(paras, current, size, overlap);
    }
  }

  /** Context is carried over: for 0 < overlap < size every chunk but the first starts with the last
      `overlap` characters of the chunk before it, all of it if it is shorter, with or without their
      leading white space. */
  lemma ChunksOverlap(text: string, size: nat, overlap: nat, i: nat)
    requires 0 < overlap < size
    requires 0 < i < |Chunks(Paragraphs(text), "", size, overlap)|
    ensures var chunks := Chunks(Paragraphs(text), "", size, overlap);
            var t := LastCharacters(chunks[i - 1], overlap);
            t <= chunks[i] || StripLeft(t) <= chunks[i]
  {
    ParagraphsKeepText(text);
    ChunksLinked(Paragraphs(text), "", "", size, overlap);
    var chunks := Chunks(Paragraphs(text), "", size, overlap);
    assert LinkedAt(chunks, i, "", overlap);
  }

  // ---- small paragraphs stay whole ----

  predicate Occurs(p: string, at: nat, s: string) {
    at + |p| <= |s| && s[at..at + |p|] == p
  }

  ghost predicate Contains(chunks: seq<string>, p: string) {
    exists i, at :: 0 <= i < |chunks| && Occurs(p, at, chunks[i])
  }

  lemma ContainsLater(front: seq<string>, back: seq<string>, p: string)
    requires Contains(back, p)
    ensures Contains(front + back, p)
  {
    var i, at :| 0 <= i < |back| && Occurs(p, at, back[i]);
    assert Occurs(p, at, (front + back)[|front| + i]);
  }

  /** Joining never breaks up a trimmed text that stands in the current chunk, nor the new one. */
  lemma JoinKeeps(current: string, para: string, p: string, at: nat)
    requires Trimmed(para) && Trimmed(p)
    requires Occurs(p, at, if current == "" then para else current + "\n\n" + para)
    ensures |Join(current, para)| <= |current| + 2 + |para|
    ensures exists k: nat :: Occurs(p, k, Join(current, para))
  {
    if current == "" {
      assert Occurs(p, at, Join(current, para));
    } else {
      var whole := current + "\n\n" + para;
      StripJoined(current, para);
      StripLeftFacts(whole);
      var k := |whole| - |StripLeft(whole)|;
      assert whole[at] == whole[at..at + |p|][0] == p[0];
      DropKeeps(p, at, whole, k);
    }
  }

  lemma DropKeeps(p: string, at: nat, s: string, k: nat)
    requires Occurs(p, at, s) && k <= at
    ensures Occurs(p, at - k, s[k..])
  {
    assert s[k..][at - k..at - k + |p|] == s[at..at + |p|];
  }

  /** A trimmed text inside the current chunk survives into the result. */
  lemma {:induction false} CurrentIsKept(paras: seq<string>, current: string, p: string, at: nat, size: nat,
                                         overlap: int)
    requires 0 <= overlap < size && |current| <= size
    requires Trimmed(p) && Occurs(p, at, current)
    requires forall i :: 0 <= i < |paras| ==> Trimmed(paras[i])
    ensures Contains(Chunks(paras, current, size, overlap), p)
    decreases |paras|
  {
    if paras == [] {
      assert Occurs(p, at, Chunks(paras, current, size, overlap)[0]);
    } else {
      ChunksUnfold(paras, current, size, overlap);
      var joined := Joined(current, paras[0], size, overlap);
      var more := Chunks(paras[1..], Rest(joined, size, overlap), size, overlap);
      var closed := Closed(current, paras[0], size, overlap);
      if MustFlush(current, paras[0], size) {
        assert Occurs(p, at, (closed + more)[0]);
      } else {
        assert Occurs(p, at, current + "\n\n" + paras[0]);
        JoinKeeps(current, paras[0], p, at);
        var k :| Occurs(p, k, joined);
        CurrentIsKept(paras[1..], joined, p, k, size, overlap);
        ContainsLater(closed, more, p);
      }
    }
  }

  lemma {:induction false} ParagraphIsKept(paras: seq<string>, current: string, j: nat, size: nat, overlap: int)
    requires 0 <= overlap < size && |current| <= size
    requires forall i :: 0 <= i < |paras| ==> Trimmed(paras[i])
    requires j < |paras| && |paras[j]| + overlap + 2 <= size
    ensures Contains(Chunks(paras, current, size, overlap), paras[j])
    decreases |paras|
  {
    var joined := Joined(current, paras[0], size, overlap);
    var rest := Rest(joined, size, overlap);
    var tail := paras[1..];
    RestFits(joined, size, overlap);
    if j == 0 {
      var at := ParagraphFits(current, paras[0], size, overlap);
      CurrentIsKept(tail, joined, paras[0], at, size, overlap);
    } else {
      assert tail[j - 1] == paras[j];
      ParagraphIsKept(tail, rest, j - 1, size, overlap);
    }
    LaterIsKept(paras, current, paras[j], size, overlap);
  }

  lemma LaterIsKept(paras: seq<string>, current: string, p: string, size: nat, overlap: int)
    requires size > overlap && paras != []
    requires var rest := Rest(Joined(current, paras[0], size, overlap), size, overlap);
             Contains(Chunks(paras[1..], rest, size, overlap), p)
    ensures Contains(Chunks(paras, current, size, overlap), p)
  {
    ChunksUnfold(paras, current, size, overlap);
    ContainsLater(Closed(current, paras[0], size, overlap),
                  Chunks(paras[1..], Rest(Joined(current, paras[0], size, overlap), size, overlap), size, overlap), p);
  }

  /** A small paragraph is joined whole and leaves nothing to cut. */
  lemma ParagraphFits(current: string, para: string, size: nat, overlap: int) returns (at: nat)
    requires 0 <= overlap < size && |current| <= size && Trimmed(para)
    requires |para| + overlap + 2 <= size
    ensures var joined := Joined(current, para, size, overlap); |joined| <= size && Occurs(para, at, joined)
  {
    TailFacts(current, overlap);
    var base := if MustFlush(current, para, size) then Tail(current, overlap) else current;
    var start := if base == "" then 0 else |base| + 2;
    assert Occurs(para, start, if base == "" then para else base + "\n\n" + para);
    JoinKeeps(base, para, para, start);
    at :| Occurs(para, at, Join(base, para));
  }

  lemma {:induction false} RestFits(current: string, size: nat, overlap: int)
    requires size > overlap
    ensures |Rest(current, size, overlap)| <= size
    decreases |current|
  {
    if |current| > size {
      RestFits(From(current, size - overlap), size, overlap);
    }
  }

  /** A paragraph with room for the overlap and a separator is never split: it stands whole
      inside some chunk. */
  lemma SmallParagraphsStayWhole(text: string, j: nat, size: nat, overlap: int)
    requires 0 <= overlap < size
    requires j < |Paragraphs(text)| && |Paragraphs(text)[j]| + overlap + 2 <= size
    ensures Contains(Chunks(Paragraphs(text), "", size, overlap), Paragraphs(text)[j])
  {
    ParagraphsKeepText(text);
    ParagraphIsKept(Paragraphs(text), "", j, size, overlap);
  }

  // ---- a negative overlap loses text ----

  /** The chunks' new parts, for some way to split them into carried and new, hold the text. */
  ghost predicate Covered(text: string, chunks: seq<string>) {
    exists pieces :: ArePieces(chunks, pieces) && NonSpace(FreshText(pieces)) == NonSpace(text)
  }

  function Repeat(c: char, n: nat): string {
    seq(n, i => c)
  }

  lemma {:induction false} SolidTextIsOneParagraph(n: nat)
    ensures FirstBreak(Repeat('a', n)) == n && NonSpace(Repeat('a', n)) == Repeat('a', n)
  {
    if n > 0 {
      assert Repeat('a', n)[1..] == Repeat('a', n - 1);
      SolidTextIsOneParagraph(n - 1);
    }
  }

  lemma SolidTextParagraphs(text: string)
    requires FirstBreak(text) == |text| && text != "" && !IsSpace(text[0]) && !IsSpace(text[|text| - 1])
    ensures Paragraphs(text) == [text]
  {
    assert StripAll([text]) == [text] + StripAll([text][1..]);
    assert [text][1..] == [];
  }

  lemma {:induction false} NonSpaceShrinks(s: string)
    ensures |NonSpace(s)| <= |s|
  {
    if s != "" {
      NonSpaceShrinks(s[1..]);
    }
  }

  lemma NegativeOverlapLoses(size: nat, overlap: int)
    requires overlap < 0
    ensures var text := Repeat('a', size - overlap); !Covered(text, Chunks(Paragraphs(text), "", size, overlap))
  {
    var text := Repeat('a', size - overlap);
    SolidTextIsOneParagraph(size - overlap);
    SolidTextParagraphs(text);
    var chunks := Chunks([text], "", size, overlap);
    assert chunks == [text[..size]] by {
      assert From(text, size - overlap) == "";
      assert Cuts(text, size, overlap) == [text[..size]] + Cuts("", size, overlap);
      ChunksUnfold([text], "", size, overlap);
      assert [text][1..] == [];
    }
    forall pieces: seq<Piece> | ArePieces(chunks, pieces) ensures NonSpace(FreshText(pieces)) != NonSpace(text) {
      assert FreshText(pieces) == pieces[0].added + FreshText(pieces[1..]);
      assert pieces[1..] == [];
      assert |pieces[0].added| <= |pieces[0].Whole()| == size;
      NonSpaceShrinks(FreshText(pieces));
    }
  }

  lemma ChainedArePieces(chunks: seq<string>, pieces: seq<Piece>, overlap: int)
    requires Chained(chunks, pieces, "", overlap)
    ensures ArePieces(chunks, pieces)
  {
    forall i | 0 <= i < |chunks| ensures chunks[i] == pieces[i].Whole() {
      assert PieceAt(chunks, pieces, i, "", overlap);
    }
  }

  /** No text is lost for any input if and only if the overlap is not negative; the size check
      of the source lets negative overlaps through. */
  lemma NothingLostIff(size: nat, overlap: int)
    requires size > overlap
    ensures (forall text :: Covered(text, Chunks(Paragraphs(text), "", size, overlap))) <==> overlap >= 0
  {
    if overlap >= 0 {
      forall text ensures Covered(text, Chunks(Paragraphs(text), "", size, overlap)) {
        ChunksCoverText(text, size, overlap);
        var pieces :| Chained(Chunks(Paragraphs(text), "", size, overlap), pieces, "", overlap)
                      && NonSpace(FreshText(pieces)) == NonSpace(text);
        ChainedArePieces(Chunks(Paragraphs(text), "", size, overlap), pieces, overlap);
      }
    } else {
      NegativeOverlapLoses(size, overlap);
    }
  }
}
