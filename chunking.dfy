/**
 * `chunk_text` (scripts/vectorize_docs.py): a character-window splitter with
 * overlap that prefers to end a window just after the last ". " or newline
 * lying past the window's midpoint.
 */
module Chunking {
  import opened PyText

  /** `chunk_text`'s default arguments. */
  const DefaultChunkSize := 2000
  const DefaultOverlap := 256

  /**
   * `chunk_text` has no guard against a start offset that fails to move, so
   * termination is an obligation of its callers: the next start `end - overlap`
   * exceeds the current one exactly when both bounds on `overlap` hold.
   * A negative `chunkSize` would turn the slice bounds into Python's
   * from-the-end indices and is excluded as well.
   */
  predicate ValidParams(chunkSize: int, overlap: int) {
    0 <= chunkSize && overlap < chunkSize && overlap <= chunkSize / 2 + 1
  }

  /** A natural break at index `k` of window `w`: a newline, or the "." of a ". ". */
  predicate IsBoundary(w: string, k: int) {
    0 <= k < |w| && (w[k] == '\n' || MatchAt(w, ". ", k))
  }

  /** `max(chunk.rfind('. '), chunk.rfind('\n'))`: the last boundary in the window, or -1. */
  function BreakPoint(w: string): (bp: int)
    ensures -1 <= bp < |w|
  {
    Max(RFind(w, ". "), RFind(w, "\n"))
  }

  /**
   * The value of `end` after the early-break rule, for a window starting at
   * `start`. Like the source's `end`, it is not clamped to the text length.
   */
  function WindowEnd(text: string, size: int, start: nat): (end: int)
    requires 0 <= size && start < |text|
    ensures start <= end <= start + size
    ensures end == start + size || start + size / 2 + 2 <= end
  {
    var end := start + size;
    if end < |text| then
      var breakPoint := BreakPoint(text[start..end]);
      if breakPoint > size / 2 then start + breakPoint + 1 else end
    else end
  }

  /** A one-character pattern matches exactly where that character stands. */
  lemma MatchOne(w: string, c: char, k: int)
    ensures MatchAt(w, [c], k) <==> 0 <= k < |w| && w[k] == c
  {
    if 0 <= k < |w| {
      assert w[k] == c ==> w[k..k + 1] == [c];
      assert w[k..k + 1][0] == w[k];
    }
  }

  /** `BreakPoint` is the last boundary of the window, or -1 when there is none. */
  lemma BreakPointIsLastBoundary(w: string)
    ensures BreakPoint(w) == -1 || IsBoundary(w, BreakPoint(w))
    ensures forall k :: BreakPoint(w) < k ==> !IsBoundary(w, k)
  {
    var p, n := RFind(w, ". "), RFind(w, "\n");
    RFindSpec(w, ". ");
    RFindSpec(w, "\n");
    forall k | Max(p, n) < k ensures !IsBoundary(w, k) {
      MatchOne(w, '\n', k);
    }
    if p < n {
      MatchOne(w, '\n', n);
    }
  }

  /**
   * The early-break rule: it applies only when the full window stops short of
   * the end of the text; the window is then cut just after the last boundary
   * in it, if that boundary lies past index `size / 2`, and is kept whole otherwise.
   */
  lemma EarlyBreakRule(text: string, size: int, start: nat)
    requires 0 <= size && start < |text|
    ensures var end := WindowEnd(text, size, start);
      && (|text| <= start + size ==> end == start + size)
      && (start + size < |text| ==>
            var w := text[start..start + size];
            && (forall k :: end - start <= k < size ==> !IsBoundary(w, k))
            && (end < start + size ==> size / 2 < end - start - 1 && IsBoundary(w, end - start - 1))
            && (end == start + size ==>
                  IsBoundary(w, size - 1) || forall k :: size / 2 < k < size ==> !IsBoundary(w, k)))
  {
    if start + size < |text| {
      BreakPointIsLastBoundary(text[start..start + size]);
    }
  }

  /** One kept window: the slice `text[start..stop]` and its stripped text. */
  datatype Piece = Piece(start: nat, stop: nat, text: string)

  /** `min(end, len(text))`: where the window's slice actually stops. */
  function WindowStop(text: string, size: int, start: nat): (stop: nat)
    requires 0 <= size && start < |text|
    ensures start <= stop <= |text| && stop - start <= size
  {
    Min(WindowEnd(text, size, start), |text|)
  }

  /** `end - overlap`: under `ValidParams` the next window starts strictly later. */
  function NextStart(text: string, size: int, overlap: int, start: nat): (next: nat)
    requires ValidParams(size, overlap) && start < |text|
    ensures start < next
  {
    WindowEnd(text, size, start) - overlap
  }

  /** The chunk the window at `start` contributes: none when its slice is blank. */
  function PieceAt(text: string, size: int, start: nat): (ps: seq<Piece>)
    requires 0 <= size && start < |text|
  {
    var stop := WindowStop(text, size, start);
    var chunk := Strip(text[start..stop]);
    if chunk == [] then [] else [Piece(start, stop, chunk)]
  }

  /** The windows the loop visits from offset `start` on, keeping those that strip to something. */
  function PiecesFrom(text: string, size: int, overlap: int, start: nat): seq<Piece>
    requires ValidParams(size, overlap)
    decreases |text| - start
  {
    if |text| <= start then []
    else PieceAt(text, size, start) + PiecesFrom(text, size, overlap, NextStart(text, size, overlap, start))
  }

  /** The stripped texts of the kept windows, in order. */
  function Texts(ps: seq<Piece>): (ts: seq<string>)
    ensures |ts| == |ps|
    ensures forall i :: 0 <= i < |ps| ==> ts[i] == ps[i].text
  {
    if ps == [] then [] else [ps[0].text] + Texts(ps[1..])
  }

  /** What `chunk_text(text, size, overlap)` returns. */
  function Chunks(text: string, size: int, overlap: int): seq<string>
    requires ValidParams(size, overlap)
  {
    Texts(PiecesFrom(text, size, overlap, 0))
  }

  /** `chunk_text`, loop for loop. */
  method ChunkText(text: string, chunkSize: int, overlap: int) returns (chunks: seq<string>)
    requires ValidParams(chunkSize, overlap)
    ensures chunks == Chunks(text, chunkSize, overlap)
  {
    chunks := [];
    var start := 0;
    while start < |text|
      invariant 0 <= start
      invariant chunks + Texts(PiecesFrom(text, chunkSize, overlap, start)) == Chunks(text, chunkSize, overlap)
      decreases |text| - start
    {
      var end, chunk := Window(text, chunkSize, start);
      ChunkStep(text, chunkSize, overlap, start, chunks);
      ghost var next := NextStart(text, chunkSize, overlap, start);
      ghost var later := Texts(PiecesFrom(text, chunkSize, overlap, next));
      var stripped := Strip(chunk);
      ghost var c0 := chunks;
      if stripped != [] {
        chunks := chunks + [stripped];
      }
      assert chunks + later == c0 + Texts(PiecesFrom(text, chunkSize, overlap, start));
      start := end - overlap;
      assert start == next;
    }
  }

  /** The body of `chunk_text`'s loop up to the strip: the window's `end` and its slice. */
  method Window(text: string, chunkSize: int, start: nat) returns (end: int, chunk: string)
    requires 0 <= chunkSize && start < |text|
    ensures end == WindowEnd(text, chunkSize, start)
    ensures chunk == text[start..WindowStop(text, chunkSize, start)]
  {
    end := start + chunkSize;
    chunk := text[start..Min(end, |text|)];
    if end < |text| {
      var lastPeriod := RFind(chunk, ". ");
      var lastNewline := RFind(chunk, "\n");
      var breakPoint := Max(lastPeriod, lastNewline);
      assert breakPoint == BreakPoint(text[start..end]);
      if breakPoint > chunkSize / 2 {
        PrefixOfSlice(text, start, end, breakPoint + 1);
        chunk := chunk[..breakPoint + 1];
        end := start + breakPoint + 1;
      }
    }
  }

  /** One turn of the loop: the window at `start` appends its stripped slice, if any, to `done`. */
  lemma ChunkStep(text: string, size: int, overlap: int, start: nat, done: seq<string>)
    requires ValidParams(size, overlap) && start < |text|
    ensures var chunk := Strip(text[start..WindowStop(text, size, start)]);
      done + Texts(PiecesFrom(text, size, overlap, start))
      == (if chunk == [] then done else done + [chunk]) + Texts(PiecesFrom(text, size, overlap, NextStart(text, size, overlap, start)))
  {
    var chunk := Strip(text[start..WindowStop(text, size, start)]);
    var later := PiecesFrom(text, size, overlap, NextStart(text, size, overlap, start));
    PiecesFromStep(text, size, overlap, start);
    TextsAppend(PieceAt(text, size, start), later);
    if chunk != [] {
      AppendAssoc(done, [chunk], Texts(later));
    } else {
      assert [] + Texts(later) == Texts(later);
    }
  }

  lemma TextsAppend(a: seq<Piece>, b: seq<Piece>)
    ensures Texts(a + b) == Texts(a) + Texts(b)
  {
    assert Texts(a + b) == Texts(a) + Texts(b);
  }

  lemma PiecesFromStep(text: string, size: int, overlap: int, start: nat)
    requires ValidParams(size, overlap) && start < |text|
    ensures PiecesFrom(text, size, overlap, start)
         == PieceAt(text, size, start) + PiecesFrom(text, size, overlap, NextStart(text, size, overlap, start))
  {
  }

  /**
   * A kept window: inside the text, at most `size` long, cut by the early-break
   * rule, and carrying the non-empty stripped slice.
   */
  ghost predicate PieceOf(text: string, size: int, p: Piece) {
    && 0 <= size
    && p.start < p.stop <= |text|
    && p.stop - p.start <= size
    && p.stop == WindowStop(text, size, p.start)
    && p.text == Strip(text[p.start..p.stop])
    && p.text != []
  }

  /** Every piece of `ps` is a `PieceOf` the text starting at or after `from`. */
  ghost predicate PiecesAfter(text: string, size: int, from: nat, ps: seq<Piece>) {
    forall i :: 0 <= i < |ps| ==> from <= ps[i].start && PieceOf(text, size, ps[i])
  }

  /** Strictly increasing window starts. */
  ghost predicate Increasing(ps: seq<Piece>) {
    forall i, j :: 0 <= i < j < |ps| ==> ps[i].start < ps[j].start
  }

  /** The window at `start` is kept as a `PieceOf` the text, or dropped. */
  lemma PieceAtShape(text: string, size: int, start: nat)
    requires 0 <= size && start < |text|
    ensures |PieceAt(text, size, start)| <= 1
    ensures PieceAt(text, size, start) != [] ==>
      PieceAt(text, size, start)[0].start == start && PieceOf(text, size, PieceAt(text, size, start)[0])
  {
  }

  /** Prepending a window at `start` to pieces that all start later keeps both properties. */
  lemma PrependPiece(start: nat, head: seq<Piece>, next: nat, rest: seq<Piece>, ok: Piece -> bool)
    requires |head| <= 1 && start < next
    requires head != [] ==> head[0].start == start && ok(head[0])
    requires forall i :: 0 <= i < |rest| ==> next <= rest[i].start && ok(rest[i])
    requires Increasing(rest)
    ensures forall i :: 0 <= i < |head + rest| ==> start <= (head + rest)[i].start && ok((head + rest)[i])
    ensures Increasing(head + rest)
  {
    var ps := head + rest;
    forall i | 0 <= i < |ps| ensures start <= ps[i].start && ok(ps[i]) {
      if i >= |head| { assert ps[i] == rest[i - |head|]; }
    }
    forall i, j | 0 <= i < j < |ps| ensures ps[i].start < ps[j].start {
      assert ps[j] == rest[j - |head|];
      if i >= |head| { assert ps[i] == rest[i - |head|]; }
    }
  }

  /**
   * Every kept window from `start` on is a `PieceOf` the text, starting no earlier
   * than `start`, and windows come in strictly increasing start order.
   */
  lemma {:induction false} PiecesShape(text: string, size: int, overlap: int, start: nat)
    requires ValidParams(size, overlap)
    ensures PiecesAfter(text, size, start, PiecesFrom(text, size, overlap, start))
    ensures Increasing(PiecesFrom(text, size, overlap, start))
    decreases |text| - start
  {
    if start < |text| {
      var next := NextStart(text, size, overlap, start);
      PiecesFromStep(text, size, overlap, start);
      PiecesShape(text, size, overlap, next);
      PieceAtShape(text, size, start);
      PrependPiece(start, PieceAt(text, size, start), next, PiecesFrom(text, size, overlap, next), p => PieceOf(text, size, p));
    }
  }

  /** Every chunk is non-empty and already stripped. */
  lemma ChunksTrimmed(text: string, size: int, overlap: int)
    requires ValidParams(size, overlap)
    ensures forall i :: 0 <= i < |Chunks(text, size, overlap)| ==>
      Chunks(text, size, overlap)[i] != [] && Strip(Chunks(text, size, overlap)[i]) == Chunks(text, size, overlap)[i]
  {
    var ps := PiecesFrom(text, size, overlap, 0);
    PiecesShape(text, size, overlap, 0);
    forall i | 0 <= i < |ps|
      ensures Chunks(text, size, overlap)[i] != [] && Strip(Chunks(text, size, overlap)[i]) == Chunks(text, size, overlap)[i]
    {
      assert PieceOf(text, size, ps[i]);
      StripIdempotent(text[ps[i].start..ps[i].stop]);
    }
  }

  /** Text made only of whitespace from `start` on yields no further chunks. */
  lemma {:induction false} BlankTailNoPieces(text: string, size: int, overlap: int, start: nat)
    requires ValidParams(size, overlap)
    requires forall k :: start <= k < |text| ==> IsSpace(text[k])
    ensures PiecesFrom(text, size, overlap, start) == []
    decreases |text| - start
  {
    if start < |text| {
      var w := text[start..WindowStop(text, size, start)];
      forall k | 0 <= k < |w| ensures IsSpace(w[k]) { assert w[k] == text[start + k]; }
      StripEmptyIff(w, IsSpace);
      assert PieceAt(text, size, start) == [];
      BlankTailNoPieces(text, size, overlap, NextStart(text, size, overlap, start));
      PiecesFromStep(text, size, overlap, start);
    }
  }

  /** A non-whitespace character at or after `start` is reached by some window when `overlap >= 0`. */
  lemma {:induction false} NonBlankHasPiece(text: string, size: int, overlap: int, start: nat, p: nat)
    requires ValidParams(size, overlap) && 0 <= overlap
    requires start <= p < |text| && !IsSpace(text[p])
    ensures PiecesFrom(text, size, overlap, start) != []
    decreases |text| - start
  {
    var stop := WindowStop(text, size, start);
    PiecesFromStep(text, size, overlap, start);
    if p < stop {
      var w := text[start..stop];
      assert w[p - start] == text[p];
      StripEmptyIff(w, IsSpace);
      assert PieceAt(text, size, start) != [];
    } else {
      NonBlankHasPiece(text, size, overlap, NextStart(text, size, overlap, start), p);
    }
  }

  /** With a non-negative overlap, the chunk list is empty exactly when the text is blank. */
  lemma NoChunksIffBlank(text: string, size: int, overlap: int)
    requires ValidParams(size, overlap) && 0 <= overlap
    ensures Chunks(text, size, overlap) == [] <==> Strip(text) == []
  {
    StripEmptyIff(text, IsSpace);
    if Strip(text) == [] {
      BlankTailNoPieces(text, size, overlap, 0);
    } else {
      var p :| 0 <= p < |text| && !IsSpace(text[p]);
      NonBlankHasPiece(text, size, overlap, 0, p);
    }
  }

  /** A text no longer than `size - overlap` (and `size`) is one chunk: itself, stripped. */
  lemma ShortTextOneChunk(text: string, size: int, overlap: int)
    requires ValidParams(size, overlap)
    requires |text| <= size && |text| <= size - overlap
    ensures Chunks(text, size, overlap) == if Strip(text) == [] then [] else [Strip(text)]
  {
    if text != [] {
      PiecesFromStep(text, size, overlap, 0);
      assert WindowStop(text, size, 0) == |text|;
      assert text[0..|text|] == text;
      assert PiecesFrom(text, size, overlap, NextStart(text, size, overlap, 0)) == [];
    }
  }

  /**
   * The tail is chunked twice: when `size - overlap < |text| <= size`, the whole
   * text is the first chunk and the window restarting at `size - overlap` gives a
   * second chunk that is a suffix of the first.
   */
  lemma TailChunkedTwice(text: string, size: int, overlap: int)
    requires ValidParams(size, overlap) && 0 <= overlap
    requires size - overlap < |text| <= size
    requires Strip(text[size - overlap..]) != []
    ensures |Chunks(text, size, overlap)| >= 2
    ensures Chunks(text, size, overlap)[0] == Strip(text)
    ensures Chunks(text, size, overlap)[1] == Strip(text[size - overlap..])
    ensures var first, second := Chunks(text, size, overlap)[0], Chunks(text, size, overlap)[1];
      |second| <= |first| && first[|first| - |second|..] == second
  {
    FirstTwoChunks(text, size, overlap);
    TailIsSuffix(text, size, overlap);
    SuffixCarries(Chunks(text, size, overlap), Strip(text), Strip(text[size - overlap..]));
  }

  /** The suffix relation between two strings carries over to the first two chunks equal to them. */
  lemma SuffixCarries(cs: seq<string>, a: string, b: string)
    requires |cs| >= 2 && cs[0] == a && cs[1] == b
    requires |b| <= |a| && a[|a| - |b|..] == b
    ensures var first, second := cs[0], cs[1];
      |second| <= |first| && first[|first| - |second|..] == second
  {
  }

  lemma TailIsSuffix(text: string, size: int, overlap: int)
    requires 0 <= size - overlap <= |text|
    requires Strip(text[size - overlap..]) != []
    ensures var first, second := Strip(text), Strip(text[size - overlap..]);
      |second| <= |first| && first[|first| - |second|..] == second
  {
    StripOfSuffix(text, size - overlap, IsSpace);
  }

  lemma FirstTwoChunks(text: string, size: int, overlap: int)
    requires ValidParams(size, overlap) && 0 <= overlap
    requires size - overlap < |text| <= size
    requires Strip(text[size - overlap..]) != []
    ensures |Chunks(text, size, overlap)| >= 2
    ensures Chunks(text, size, overlap)[0] == Strip(text)
    ensures Chunks(text, size, overlap)[1] == Strip(text[size - overlap..])
  {
    TwoPieces(text, size, overlap);
  }

  /** The piece lists behind `FirstTwoChunks`: the whole text first, then the rest from `size - overlap`. */
  lemma TwoPieces(text: string, size: int, overlap: int)
    requires ValidParams(size, overlap) && 0 <= overlap
    requires size - overlap < |text| <= size
    requires Strip(text[size - overlap..]) != []
    ensures var ps := PiecesFrom(text, size, overlap, 0);
      |ps| >= 2 && ps[0].text == Strip(text) && ps[1].text == Strip(text[size - overlap..])
  {
    var restart := size - overlap;
    SameRestart(text, size, overlap, restart);
    StripOfSuffix(text, restart, IsSpace);
    WholeSlice(text);
    LastWindow(text, size, overlap, 0, restart);
    LastWindow(text, size, overlap, restart, restart + size - overlap);
  }

  /** Names `size - overlap` for the lemmas above, whose statements spell it out. */
  lemma SameRestart(text: string, size: int, overlap: int, restart: int)
    requires restart == size - overlap && 0 <= restart <= |text|
    ensures Strip(text[restart..]) == Strip(text[size - overlap..])
  {
  }

  /**
   * A window reaching the end of the text keeps the whole rest, and the next
   * one starts `overlap` earlier than that window's end, at `next`.
   */
  lemma LastWindow(text: string, size: int, overlap: int, start: nat, next: nat)
    requires ValidParams(size, overlap) && start < |text| <= start + size
    requires Strip(text[start..]) != []
    requires next == start + size - overlap
    ensures PiecesFrom(text, size, overlap, start)
         == [Piece(start, |text|, Strip(text[start..]))] + PiecesFrom(text, size, overlap, next)
  {
    FinalPiece(text, size, overlap, start);
    PiecesFromStepTo(text, size, overlap, start, [Piece(start, |text|, Strip(text[start..]))], next);
  }

  /** `PiecesFromStep` with the head and the next start already worked out. */
  lemma PiecesFromStepTo(text: string, size: int, overlap: int, start: nat, head: seq<Piece>, next: nat)
    requires ValidParams(size, overlap) && start < |text|
    requires head == PieceAt(text, size, start) && next == NextStart(text, size, overlap, start)
    ensures PiecesFrom(text, size, overlap, start) == head + PiecesFrom(text, size, overlap, next)
  {
    PiecesFromStep(text, size, overlap, start);
  }

  /** The window that reaches the end of the text is not cut early and keeps the stripped rest. */
  lemma FinalPiece(text: string, size: int, overlap: int, start: nat)
    requires ValidParams(size, overlap) && start < |text| <= start + size
    requires Strip(text[start..]) != []
    ensures NextStart(text, size, overlap, start) == start + size - overlap
    ensures PieceAt(text, size, start) == [Piece(start, |text|, Strip(text[start..]))]
  {
    assert WindowStop(text, size, start) == |text|;
    assert text[start..|text|] == text[start..];
  }

  /**
   * Without `overlap <= size / 2 + 1` the loop can stall: with `size = 10` and
   * `overlap = 7` a newline at index 6 ends the window at 7, and the next start is 0 again.
   */
  lemma OverlapBoundNeeded()
    ensures var text := "012345\n789abcdef";
      WindowEnd(text, 10, 0) - 7 == 0
  {
    var text := "012345\n789abcdef";
    var w := text[0..10];
    assert w == "012345\n789";
    BreakPointIsLastBoundary(w);
    var bp := BreakPoint(w);
    assert IsBoundary(w, 6);
    assert bp == 6 by {
      assert !IsBoundary(w, 7) by { MatchOne(". ", '.', 0); assert w[7] == '7'; }
      assert !IsBoundary(w, 8) by { assert w[8] == '8'; }
      assert !IsBoundary(w, 9) by { assert w[9] == '9'; }
    }
  }
}
