/** The greedy word packing of `PrivacyDataset.chunk_text` (src/models/modeling_functions.py):
    the words of a text are packed, in order, into chunks whose token total stays within
    `max_len`; a word that would push the running total past the budget starts a new chunk.
    The tokenizer is abstracted as `tokens`, the token count of one word. */
module Chunking {
  import opened Collections
  import opened Text

  /** Token count of a list of words. */
  function TokenTotal(ws: seq<string>, tokens: string -> nat): nat
  {
    if ws == [] then 0 else TokenTotal(ws[..|ws| - 1], tokens) + tokens(ws[|ws| - 1])
  }

  /** One word more adds its own token count. */
  lemma TokenTotalSnoc(ws: seq<string>, w: string, tokens: string -> nat)
    ensures TokenTotal(ws + [w], tokens) == TokenTotal(ws, tokens) + tokens(w)
  {
    assert (ws + [w])[..|ws|] == ws;
  }

  /** With a tokenizer that gives every word one token, the total is the word count. */
  lemma {:induction false} UnitTokenTotal(ws: seq<string>, tokens: string -> nat)
    requires forall w :: tokens(w) == 1
    ensures TokenTotal(ws, tokens) == |ws|
  {
    if ws != [] {
      UnitTokenTotal(ws[..|ws| - 1], tokens);
    }
  }

  /** The loop state: the flushed chunks, the chunk being filled and its token count. */
  datatype Packing = Packing(chunks: seq<seq<string>>, current: seq<string>, length: nat)

  const Start := Packing([], [], 0)

  /** One iteration of the loop as the source writes it: the budget test alone decides a
      flush, so an over-long first word flushes the still empty chunk. */
  function StepAsWritten(p: Packing, w: string, tokens: string -> nat, maxLen: nat): Packing
  {
    var t := tokens(w);
    if p.length + t > maxLen then Packing(p.chunks + [p.current], [w], t)
    else Packing(p.chunks, p.current + [w], p.length + t)
  }

  /** One iteration with the flush limited to a non-empty chunk. */
  function Step(p: Packing, w: string, tokens: string -> nat, maxLen: nat): Packing
  {
    var t := tokens(w);
    if p.current != [] && p.length + t > maxLen then Packing(p.chunks + [p.current], [w], t)
    else Packing(p.chunks, p.current + [w], p.length + t)
  }

  function PackAsWritten(words: seq<string>, tokens: string -> nat, maxLen: nat): Packing
  {
    if words == [] then Start
    else StepAsWritten(PackAsWritten(words[..|words| - 1], tokens, maxLen), words[|words| - 1], tokens, maxLen)
  }

  /** The loop state after the given words. */
  function Pack(words: seq<string>, tokens: string -> nat, maxLen: nat): Packing
  {
    if words == [] then Start
    else Step(Pack(words[..|words| - 1], tokens, maxLen), words[|words| - 1], tokens, maxLen)
  }

  /** After the loop: the chunk being filled is added when it holds a word. */
  function Finish(p: Packing): seq<seq<string>>
  {
    if p.current != [] then p.chunks + [p.current] else p.chunks
  }

  /** The word lists of the chunks `chunk_text` returns, as the source writes it. */
  function GroupsAsWritten(words: seq<string>, tokens: string -> nat, maxLen: nat): seq<seq<string>>
  {
    Finish(PackAsWritten(words, tokens, maxLen))
  }

  /** The word lists of the chunks with the empty-chunk flush removed. */
  function ChunkGroups(words: seq<string>, tokens: string -> nat, maxLen: nat): seq<seq<string>>
  {
    Finish(Pack(words, tokens, maxLen))
  }

  /** `" ".join(chunk)` for every chunk. */
  function JoinChunks(groups: seq<seq<string>>): seq<string>
  {
    seq(|groups|, i requires 0 <= i < |groups| => JoinWith(groups[i], ' '))
  }

  lemma JoinChunksSnoc(groups: seq<seq<string>>, g: seq<string>)
    ensures JoinChunks(groups + [g]) == JoinChunks(groups) + [JoinWith(g, ' ')]
  {
  }

  /** The chunks `chunk_text` returns, as the source writes it. */
  function ChunkTextsAsWritten(text: string, tokens: string -> nat, maxLen: nat): seq<string>
  {
    JoinChunks(GroupsAsWritten(Words(text), tokens, maxLen))
  }

  /** The chunks of a text with the empty-chunk flush removed. */
  function ChunkTexts(text: string, tokens: string -> nat, maxLen: nat): seq<string>
  {
    JoinChunks(ChunkGroups(Words(text), tokens, maxLen))
  }

  // ---------------------------------------------------------------------------
  // What the packing keeps
  // ---------------------------------------------------------------------------

  /** A chunk within the budget, or a single word that exceeds it alone. */
  predicate Budgeted(g: seq<string>, tokens: string -> nat, maxLen: nat)
  {
    |g| <= 1 || TokenTotal(g, tokens) <= maxLen
  }

  /** The first word after flushed chunk `i`. */
  function NextWord(p: Packing, i: nat): string
    requires i < |p.chunks| && p.current != []
    requires forall j :: 0 <= j < |p.chunks| ==> p.chunks[j] != []
  {
    if i + 1 < |p.chunks| then p.chunks[i + 1][0] else p.current[0]
  }

  /** The loop invariant: nothing lost or reordered, the running count is the current
      chunk's, no flushed chunk is empty or over budget unless it is one word, and every
      flush happened because the next word did not fit. */
  predicate Packed(words: seq<string>, p: Packing, tokens: string -> nat, maxLen: nat)
  {
    && Flatten(p.chunks) + p.current == words
    && p.length == TokenTotal(p.current, tokens)
    && (p.current == [] <==> words == [])
    && (p.current == [] ==> p.chunks == [])
    && Budgeted(p.current, tokens, maxLen)
    && (forall i :: 0 <= i < |p.chunks| ==> p.chunks[i] != [] && Budgeted(p.chunks[i], tokens, maxLen))
    && (p.current != [] ==>
          forall i :: 0 <= i < |p.chunks| ==> TokenTotal(p.chunks[i], tokens) + tokens(NextWord(p, i)) > maxLen)
  }

  lemma FlattenSnoc<T>(xss: seq<seq<T>>, xs: seq<T>)
    ensures Flatten(xss + [xs]) == Flatten(xss) + xs
  {
    assert (xss + [xs])[..|xss|] == xss;
  }

  /** A flush keeps the invariant. */
  lemma FlushPacked(words: seq<string>, p: Packing, w: string, tokens: string -> nat, maxLen: nat)
    requires Packed(words, p, tokens, maxLen)
    requires p.current != [] && p.length + tokens(w) > maxLen
    ensures Packed(words + [w], Packing(p.chunks + [p.current], [w], tokens(w)), tokens, maxLen)
  {
    var q := Packing(p.chunks + [p.current], [w], tokens(w));
    FlattenSnoc(p.chunks, p.current);
    TokenTotalSnoc([], w, tokens);
    forall i | 0 <= i < |q.chunks|
      ensures q.chunks[i] != [] && Budgeted(q.chunks[i], tokens, maxLen)
    {
      if i < |p.chunks| {
        assert q.chunks[i] == p.chunks[i];
      }
    }
    forall i | 0 <= i < |q.chunks|
      ensures TokenTotal(q.chunks[i], tokens) + tokens(NextWord(q, i)) > maxLen
    {
      if i < |p.chunks| {
        assert q.chunks[i] == p.chunks[i];
        assert NextWord(q, i) == NextWord(p, i);
      }
    }
  }

  /** Adding the word to the current chunk keeps the invariant. */
  lemma AppendPacked(words: seq<string>, p: Packing, w: string, tokens: string -> nat, maxLen: nat)
    requires Packed(words, p, tokens, maxLen)
    requires p.current == [] || p.length + tokens(w) <= maxLen
    ensures Packed(words + [w], Packing(p.chunks, p.current + [w], p.length + tokens(w)), tokens, maxLen)
  {
    var q := Packing(p.chunks, p.current + [w], p.length + tokens(w));
    AppendBudgeted(p.current, w, tokens, maxLen);
    if p.current != [] {
      AppendFlushes(p, w, tokens, maxLen);
    }
    assert Flatten(q.chunks) + q.current == words + [w];
  }

  /** A word added to an empty chunk, or one that fits, keeps the chunk within budget. */
  lemma AppendBudgeted(current: seq<string>, w: string, tokens: string -> nat, maxLen: nat)
    requires current == [] || TokenTotal(current, tokens) + tokens(w) <= maxLen
    ensures TokenTotal(current + [w], tokens) == TokenTotal(current, tokens) + tokens(w)
    ensures Budgeted(current + [w], tokens, maxLen)
  {
    TokenTotalSnoc(current, w, tokens);
  }

  /** The flushed chunks stay as they are, so each was still flushed because the word
      after it did not fit. */
  lemma AppendFlushes(p: Packing, w: string, tokens: string -> nat, maxLen: nat)
    requires p.current != []
    requires forall j :: 0 <= j < |p.chunks| ==> p.chunks[j] != []
    requires forall i :: 0 <= i < |p.chunks| ==> TokenTotal(p.chunks[i], tokens) + tokens(NextWord(p, i)) > maxLen
    ensures var q := Packing(p.chunks, p.current + [w], p.length + tokens(w));
      forall i :: 0 <= i < |q.chunks| ==> TokenTotal(q.chunks[i], tokens) + tokens(NextWord(q, i)) > maxLen
  {
    var q := Packing(p.chunks, p.current + [w], p.length + tokens(w));
    forall i | 0 <= i < |q.chunks|
      ensures TokenTotal(q.chunks[i], tokens) + tokens(NextWord(q, i)) > maxLen
    {
      assert NextWord(q, i) == NextWord(p, i);
    }
  }

  /** One step keeps the invariant. */
  lemma StepPacked(words: seq<string>, p: Packing, w: string, tokens: string -> nat, maxLen: nat)
    requires Packed(words, p, tokens, maxLen)
    ensures Packed(words + [w], Step(p, w, tokens, maxLen), tokens, maxLen)
  {
    if p.current != [] && p.length + tokens(w) > maxLen {
      FlushPacked(words, p, w, tokens, maxLen);
    } else {
      AppendPacked(words, p, w, tokens, maxLen);
    }
  }

  /** The loop keeps the invariant for every prefix of the words. */
  lemma {:induction false} PackPacked(words: seq<string>, tokens: string -> nat, maxLen: nat)
    ensures Packed(words, Pack(words, tokens, maxLen), tokens, maxLen)
  {
    if words != [] {
      var n := |words| - 1;
      PackPacked(words[..n], tokens, maxLen);
      StepPacked(words[..n], Pack(words[..n], tokens, maxLen), words[n], tokens, maxLen);
      assert words[..n] + [words[n]] == words;
    }
  }

  /** `chunk_text` loses and reorders nothing: the chunks' words, in order, are the
      text's words; no chunk is empty; a chunk over the budget is one over-long word;
      and a chunk ends only where its next word would have pushed it past the budget. */
  lemma ChunkGroupsSpec(words: seq<string>, tokens: string -> nat, maxLen: nat)
    ensures var groups := ChunkGroups(words, tokens, maxLen);
      && Flatten(groups) == words
      && (groups == [] <==> words == [])
      && (forall i :: 0 <= i < |groups| ==> groups[i] != [] && Budgeted(groups[i], tokens, maxLen))
      && (forall i :: 0 <= i < |groups| - 1 ==>
            TokenTotal(groups[i], tokens) + tokens(groups[i + 1][0]) > maxLen)
  {
    var p := Pack(words, tokens, maxLen);
    PackPacked(words, tokens, maxLen);
    var groups := ChunkGroups(words, tokens, maxLen);
    if p.current != [] {
      FlattenSnoc(p.chunks, p.current);
      forall i | 0 <= i < |groups| - 1
        ensures TokenTotal(groups[i], tokens) + tokens(groups[i + 1][0]) > maxLen
      {
        assert groups[i + 1][0] == NextWord(p, i);
      }
    }
  }

  /** A text of one or more words whose token total exceeds the budget gives more than
      one chunk. */
  lemma ChunkGroupsSplit(words: seq<string>, tokens: string -> nat, maxLen: nat)
    requires |words| >= 2 && TokenTotal(words, tokens) > maxLen
    ensures |ChunkGroups(words, tokens, maxLen)| >= 2
  {
    var groups := ChunkGroups(words, tokens, maxLen);
    ChunkGroupsSpec(words, tokens, maxLen);
    FlattenOne(groups);
  }

  lemma FlattenOne<T>(xss: seq<seq<T>>)
    ensures |xss| == 1 ==> Flatten(xss) == xss[0]
  {
    if |xss| == 1 {
      assert xss[..0] == [];
    }
  }

  // ---------------------------------------------------------------------------
  // Chunk strings
  // ---------------------------------------------------------------------------

  /** Splitting a chunk string gives back its words, so the chunks' words, in order, are
      `text.split()`. */
  lemma ChunkTextsWords(text: string, tokens: string -> nat, maxLen: nat)
    ensures var chunks, groups := ChunkTexts(text, tokens, maxLen), ChunkGroups(Words(text), tokens, maxLen);
      && |chunks| == |groups|
      && (forall i :: 0 <= i < |chunks| ==> Words(chunks[i]) == groups[i])
      && Flatten(groups) == Words(text)
  {
    var words := Words(text);
    var groups := ChunkGroups(words, tokens, maxLen);
    ChunkGroupsSpec(words, tokens, maxLen);
    forall i | 0 <= i < |groups|
      ensures Words(JoinWith(groups[i], ' ')) == groups[i]
    {
      forall w | w in groups[i]
        ensures IsWord(w)
      {
        var k :| 0 <= k < |groups[i]| && groups[i][k] == w;
        FlattenAt(groups, i, k);
        assert w in words;
      }
      WordsOfJoin(groups[i]);
    }
  }

  /** Empty or whitespace-only text gives no chunk. */
  lemma ChunkTextsBlank(text: string, tokens: string -> nat, maxLen: nat)
    requires forall k :: 0 <= k < |text| ==> IsSpace(text[k])
    ensures ChunkTexts(text, tokens, maxLen) == []
  {
    WordsOfBlank(text);
    ChunkGroupsSpec([], tokens, maxLen);
  }

  /** With one token per word and a budget of at least one: every chunk splits into at
      most `max_len` words, and a text of more than `max_len` words gives several
      chunks. */
  lemma ChunkTextsUnitTokens(text: string, tokens: string -> nat, maxLen: nat)
    requires forall w :: tokens(w) == 1
    requires maxLen >= 1
    ensures forall c :: c in ChunkTexts(text, tokens, maxLen) ==> |Words(c)| <= maxLen
    ensures |Words(text)| > maxLen ==> |ChunkTexts(text, tokens, maxLen)| >= 2
  {
    var words := Words(text);
    var groups := ChunkGroups(words, tokens, maxLen);
    var chunks := ChunkTexts(text, tokens, maxLen);
    ChunkTextsWords(text, tokens, maxLen);
    ChunkGroupsSpec(words, tokens, maxLen);
    assert |chunks| == |groups|;
    forall c | c in chunks
      ensures |Words(c)| <= maxLen
    {
      var i :| 0 <= i < |chunks| && chunks[i] == c;
      assert Words(c) == groups[i];
      UnitTokenTotal(groups[i], tokens);
    }
    if |words| > maxLen {
      UnitTokenTotal(words, tokens);
      ChunkGroupsSplit(words, tokens, maxLen);
    }
  }

  // ---------------------------------------------------------------------------
  // The source's loop against the corrected one
  // ---------------------------------------------------------------------------

  /** The as-written loop state is the corrected one, with one extra empty chunk in front
      when the first word alone exceeds the budget. */
  lemma {:induction false} PackAsWrittenShift(words: seq<string>, tokens: string -> nat, maxLen: nat)
    requires words != []
    ensures var p, q := Pack(words, tokens, maxLen), PackAsWritten(words, tokens, maxLen);
      && p.current != []
      && q.current == p.current && q.length == p.length
      && q.chunks == (if tokens(words[0]) > maxLen then [[]] else []) + p.chunks
  {
    var n := |words| - 1;
    if n == 0 {
      assert words[..n] == [];
    } else {
      PackAsWrittenShift(words[..n], tokens, maxLen);
      assert words[..n][0] == words[0];
    }
  }

  /** The source's result: exactly the corrected chunks, preceded by an empty chunk when
      the first word's token count exceeds `max_len`. */
  lemma GroupsAsWrittenShift(words: seq<string>, tokens: string -> nat, maxLen: nat)
    ensures GroupsAsWritten(words, tokens, maxLen) ==
      (if words != [] && tokens(words[0]) > maxLen then [[]] else []) + ChunkGroups(words, tokens, maxLen)
  {
    if words != [] {
      PackAsWrittenShift(words, tokens, maxLen);
    }
  }

  lemma {:induction false} FlattenEmptyFront<T>(xss: seq<seq<T>>)
    ensures Flatten([[]] + xss) == Flatten(xss)
  {
    if xss != [] {
      var n := |xss| - 1;
      FlattenEmptyFront(xss[..n]);
      assert ([[]] + xss)[..n + 1] == [[]] + xss[..n];
    }
  }

  /** As written, the chunks' words, in order, are still the text's words, and there is
      a chunk whenever there is a word. */
  lemma GroupsAsWrittenWords(words: seq<string>, tokens: string -> nat, maxLen: nat)
    ensures var groups := GroupsAsWritten(words, tokens, maxLen);
      && Flatten(groups) == words
      && (groups == [] <==> words == [])
  {
    var corrected := ChunkGroups(words, tokens, maxLen);
    GroupsAsWrittenShift(words, tokens, maxLen);
    ChunkGroupsSpec(words, tokens, maxLen);
    if words != [] && tokens(words[0]) > maxLen {
      FlattenEmptyFront(corrected);
      assert GroupsAsWritten(words, tokens, maxLen) == [[]] + corrected;
    } else {
      assert GroupsAsWritten(words, tokens, maxLen) == corrected;
    }
  }

  /** As written, a chunk over the budget is one over-long word. */
  lemma GroupsAsWrittenBudgeted(words: seq<string>, tokens: string -> nat, maxLen: nat)
    ensures var groups := GroupsAsWritten(words, tokens, maxLen);
      forall i :: 0 <= i < |groups| ==> Budgeted(groups[i], tokens, maxLen)
  {
    var groups := GroupsAsWritten(words, tokens, maxLen);
    var corrected := ChunkGroups(words, tokens, maxLen);
    GroupsAsWrittenShift(words, tokens, maxLen);
    ChunkGroupsSpec(words, tokens, maxLen);
    if words != [] && tokens(words[0]) > maxLen {
      forall i | 1 <= i < |groups|
        ensures Budgeted(groups[i], tokens, maxLen)
      {
        assert groups[i] == corrected[i - 1];
      }
    } else {
      assert groups == corrected;
    }
  }

  /** As written, the only empty chunk is the first, there exactly when the first word
      alone exceeds the budget. */
  lemma GroupsAsWrittenEmpty(words: seq<string>, tokens: string -> nat, maxLen: nat)
    requires words != []
    ensures var groups := GroupsAsWritten(words, tokens, maxLen);
      forall i :: 0 <= i < |groups| ==> (groups[i] == [] <==> i == 0 && tokens(words[0]) > maxLen)
  {
    var groups := GroupsAsWritten(words, tokens, maxLen);
    var corrected := ChunkGroups(words, tokens, maxLen);
    GroupsAsWrittenShift(words, tokens, maxLen);
    ChunkGroupsNonEmpty(words, tokens, maxLen);
    if tokens(words[0]) > maxLen {
      assert groups == [[]] + corrected;
      forall i | 1 <= i < |groups|
        ensures groups[i] != []
      {
        assert groups[i] == corrected[i - 1];
      }
    } else {
      assert groups == corrected;
    }
  }

  /** As written, every chunk after the first starts with a word that did not fit into
      the chunk before it, the empty one included. */
  lemma GroupsAsWrittenFlushes(words: seq<string>, tokens: string -> nat, maxLen: nat)
    ensures var groups := GroupsAsWritten(words, tokens, maxLen);
      forall i :: 0 < i < |groups| ==>
        groups[i] != [] && TokenTotal(groups[i - 1], tokens) + tokens(groups[i][0]) > maxLen
  {
    var groups := GroupsAsWritten(words, tokens, maxLen);
    var corrected := ChunkGroups(words, tokens, maxLen);
    GroupsAsWrittenShift(words, tokens, maxLen);
    if words != [] {
      ChunkGroupsFirst(words, tokens, maxLen);
      if tokens(words[0]) > maxLen {
        forall i | 0 < i < |groups|
          ensures groups[i] != [] && TokenTotal(groups[i - 1], tokens) + tokens(groups[i][0]) > maxLen
        {
          assert groups[i] == corrected[i - 1];
          if i > 1 {
            assert groups[i - 1] == corrected[i - 2];
          }
        }
      } else {
        assert groups == corrected;
      }
    }
  }

  /** No corrected chunk is empty. */
  lemma ChunkGroupsNonEmpty(words: seq<string>, tokens: string -> nat, maxLen: nat)
    ensures var groups := ChunkGroups(words, tokens, maxLen);
      forall i :: 0 <= i < |groups| ==> groups[i] != []
  {
    ChunkGroupsSpec(words, tokens, maxLen);
  }

  /** The corrected chunks of one or more words start with the first word, and each
      chunk after the first starts with a word that did not fit. */
  lemma ChunkGroupsFirst(words: seq<string>, tokens: string -> nat, maxLen: nat)
    requires words != []
    ensures var groups := ChunkGroups(words, tokens, maxLen);
      && groups != [] && groups[0] != [] && groups[0][0] == words[0]
      && (forall i :: 0 < i < |groups| ==>
            groups[i] != [] && TokenTotal(groups[i - 1], tokens) + tokens(groups[i][0]) > maxLen)
  {
    var groups := ChunkGroups(words, tokens, maxLen);
    ChunkGroupsSpec(words, tokens, maxLen);
    FlattenAt(groups, 0, 0);
    assert groups[..0] == [];
    forall i | 0 < i < |groups|
      ensures groups[i] != [] && TokenTotal(groups[i - 1], tokens) + tokens(groups[i][0]) > maxLen
    {
      assert (i - 1) + 1 == i;
    }
  }

  lemma JoinChunksEmptyFront(groups: seq<seq<string>>)
    ensures JoinChunks([[]] + groups) == [""] + JoinChunks(groups)
  {
    var chunks := JoinChunks([[]] + groups);
    assert chunks[0] == JoinWith([], ' ') == "";
    forall i | 1 <= i < |chunks|
      ensures chunks[i] == JoinChunks(groups)[i - 1]
    {
      assert ([[]] + groups)[i] == groups[i - 1];
    }
  }

  /** The source's chunk strings: the corrected ones, preceded by `""` when the first
      word alone exceeds the budget. */
  lemma ChunkTextsAsWrittenShift(text: string, tokens: string -> nat, maxLen: nat)
    ensures var words := Words(text);
      ChunkTextsAsWritten(text, tokens, maxLen) ==
        (if words != [] && tokens(words[0]) > maxLen then [""] else []) + ChunkTexts(text, tokens, maxLen)
  {
    var words := Words(text);
    var corrected := ChunkGroups(words, tokens, maxLen);
    GroupsAsWrittenShift(words, tokens, maxLen);
    if words != [] && tokens(words[0]) > maxLen {
      JoinChunksEmptyFront(corrected);
    } else {
      assert GroupsAsWritten(words, tokens, maxLen) == corrected;
    }
  }

  /** Splitting each of the source's chunk strings gives back its word list. */
  lemma ChunkTextsAsWrittenWords(text: string, tokens: string -> nat, maxLen: nat)
    ensures var chunks, groups := ChunkTextsAsWritten(text, tokens, maxLen), GroupsAsWritten(Words(text), tokens, maxLen);
      && |chunks| == |groups|
      && (forall i :: 0 <= i < |chunks| ==> Words(chunks[i]) == groups[i])
  {
    var words := Words(text);
    var groups := GroupsAsWritten(words, tokens, maxLen);
    var chunks := ChunkTextsAsWritten(text, tokens, maxLen);
    var corrected := ChunkTexts(text, tokens, maxLen);
    GroupsAsWrittenShift(words, tokens, maxLen);
    ChunkTextsAsWrittenShift(text, tokens, maxLen);
    ChunkTextsWords(text, tokens, maxLen);
    if words != [] && tokens(words[0]) > maxLen {
      EmptyFrontWords(corrected, ChunkGroups(words, tokens, maxLen));
      assert chunks == [""] + corrected;
      assert groups == [[]] + ChunkGroups(words, tokens, maxLen);
    } else {
      assert groups == ChunkGroups(words, tokens, maxLen);
      assert chunks == corrected;
    }
  }

  /** The empty chunk string splits into the empty word list, so putting one in front of
      each list keeps every chunk string matched with its words. */
  lemma EmptyFrontWords(chunks: seq<string>, groups: seq<seq<string>>)
    requires |chunks| == |groups|
    requires forall j :: 0 <= j < |chunks| ==> Words(chunks[j]) == groups[j]
    ensures forall i :: 0 <= i < |chunks| + 1 ==> Words(([""] + chunks)[i]) == ([[]] + groups)[i]
  {
    WordsOfBlank("");
    forall i | 0 < i < |chunks| + 1
      ensures Words(([""] + chunks)[i]) == ([[]] + groups)[i]
    {
      assert ([""] + chunks)[i] == chunks[i - 1];
      assert ([[]] + groups)[i] == groups[i - 1];
    }
  }

  /** Empty or whitespace-only text gives no chunk as written either. */
  lemma ChunkTextsAsWrittenBlank(text: string, tokens: string -> nat, maxLen: nat)
    requires forall k :: 0 <= k < |text| ==> IsSpace(text[k])
    ensures ChunkTextsAsWritten(text, tokens, maxLen) == []
  {
    WordsOfBlank(text);
  }

  /** With one token per word and a budget of at least one, no word exceeds the budget
      alone, so the source's chunks are the corrected ones: each splits into at most
      `max_len` words, and more than `max_len` words give several chunks. */
  lemma ChunkTextsAsWrittenUnitTokens(text: string, tokens: string -> nat, maxLen: nat)
    requires forall w :: tokens(w) == 1
    requires maxLen >= 1
    ensures ChunkTextsAsWritten(text, tokens, maxLen) == ChunkTexts(text, tokens, maxLen)
    ensures forall c :: c in ChunkTextsAsWritten(text, tokens, maxLen) ==> |Words(c)| <= maxLen
    ensures |Words(text)| > maxLen ==> |ChunkTextsAsWritten(text, tokens, maxLen)| >= 2
  {
    ChunkTextsAsWrittenShift(text, tokens, maxLen);
    ChunkTextsUnitTokens(text, tokens, maxLen);
  }

  /** A one-word text whose word costs two tokens, with a budget of one: the source
      returns the chunks "" and "x", the first of them empty. */
  lemma AsWrittenEmptyChunk()
    ensures JoinChunks(GroupsAsWritten(["x"], w => 2, 1)) == ["", "x"]
    ensures JoinChunks(ChunkGroups(["x"], w => 2, 1)) == ["x"]
  {
    GroupsAsWrittenShift(["x"], w => 2, 1);
    var p := Pack(["x"], w => 2, 1);
    assert ["x"][..0] == [];
    assert p == Packing([], ["x"], 2);
  }
}
