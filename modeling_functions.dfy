/** The training dataset of src/models/modeling_functions.py: each text is cut into
    chunks by `chunk_text`, each chunk is encoded and paired with the text's labels, and
    `collate_fn` lays the chunks of a batch out one after another. The tokenizer is
    abstracted as two functions: the token count of a word and the encoding of a chunk. */
module ModelingFunctions {
  import opened Collections
  import opened Text
  import opened Chunking

  /** What the tokenizer returns for one chunk, padded or truncated to `max_len`. */
  datatype Encoding = Encoding(inputIds: seq<int>, attentionMask: seq<int>)

  /** One entry of `__getitem__`: the chunk's encoding and the text's labels. */
  datatype Item = Item(inputIds: seq<int>, attentionMask: seq<int>, labels: seq<int>)

  /** What `collate_fn` returns, before padding and stacking. */
  datatype Batch = Batch(inputIds: seq<seq<int>>, attentionMask: seq<seq<int>>, labels: seq<seq<int>>)

  class PrivacyDataset {
    const texts: seq<string>
    /** One row of the multi-label binarisation per text. */
    const labels: seq<seq<int>>
    /** `len(tokenizer.encode(word, add_special_tokens=False))`. */
    const tokenCount: string -> nat
    /** `tokenizer(chunk, max_length=max_len, padding="max_length", truncation=True)`. */
    const encode: string -> Encoding
    const maxLen: nat

    constructor (texts: seq<string>, labels: seq<seq<int>>, tokenCount: string -> nat,
                 encode: string -> Encoding, maxLen: nat)
      ensures this.texts == texts && this.labels == labels && this.maxLen == maxLen
      ensures this.tokenCount == tokenCount && this.encode == encode
    {
      this.texts := texts;
      this.labels := labels;
      this.tokenCount := tokenCount;
      this.encode := encode;
      this.maxLen := maxLen;
    }

    /** `__len__`: one sample per text. */
    function Len(): nat
    {
      |texts|
    }

    /** `chunk_text`: the greedy packing of the text's words, each chunk joined by
        single spaces. A word that does not fit flushes the current chunk even while it
        is empty, so an over-long first word is preceded by the chunk `""`. */
    method ChunkText(text: string) returns (chunks: seq<string>)
      ensures chunks == ChunkTextsAsWritten(text, tokenCount, maxLen)
    {
      var words := Words(text);
      chunks := [];
      var currentChunk: seq<string> := [];
      var currentLength: nat := 0;
      ghost var groups: seq<seq<string>> := [];
      for i := 0 to |words|
        invariant Packing(groups, currentChunk, currentLength) == PackAsWritten(words[..i], tokenCount, maxLen)
        invariant chunks == JoinChunks(groups)
      {
        var word := words[i];
        var tokenLength := tokenCount(word);
        assert words[..i + 1][..i] == words[..i];
        if currentLength + tokenLength > maxLen {
          JoinChunksSnoc(groups, currentChunk);
          chunks := chunks + [JoinWith(currentChunk, ' ')];
          groups := groups + [currentChunk];
          currentChunk := [word];
          currentLength := tokenLength;
        } else {
          currentChunk := currentChunk + [word];
          currentLength := currentLength + tokenLength;
        }
      }
      assert words[..|words|] == words;
      if currentChunk != [] {
        JoinChunksSnoc(groups, currentChunk);
        chunks := chunks + [JoinWith(currentChunk, ' ')];
      }
    }

    /** `__getitem__`: one entry per chunk of the text, in chunk order, each carrying
        the chunk's encoding and the text's labels. */
    method GetItem(idx: nat) returns (inputs: seq<Item>)
      requires idx < |texts| && idx < |labels|
      ensures var chunks := ChunkTextsAsWritten(texts[idx], tokenCount, maxLen);
        && |inputs| == |chunks|
        && forall k :: 0 <= k < |chunks| ==>
             inputs[k] == Item(encode(chunks[k]).inputIds, encode(chunks[k]).attentionMask, labels[idx])
    {
      var text := texts[idx];
      var textLabels := labels[idx];
      var chunkedTexts := ChunkText(text);
      inputs := [];
      for k := 0 to |chunkedTexts|
        invariant |inputs| == k
        invariant forall j :: 0 <= j < k ==>
          inputs[j] == Item(encode(chunkedTexts[j]).inputIds, encode(chunkedTexts[j]).attentionMask, textLabels)
      {
        var encodedChunk := encode(chunkedTexts[k]);
        inputs := inputs + [Item(encodedChunk.inputIds, encodedChunk.attentionMask, textLabels)];
      }
    }
  }

  /** The entries of a batch in batch-then-chunk order. */
  function Entries(batch: seq<seq<Item>>): seq<Item>
  {
    Flatten(batch)
  }

  /** `collate_fn` without the padding: one row per entry of every sample, samples in
      batch order and each sample's entries in order, with ids, masks and labels side by
      side. */
  method CollateFn(batch: seq<seq<Item>>) returns (b: Batch)
    ensures |b.inputIds| == |b.attentionMask| == |b.labels| == |Entries(batch)|
    ensures forall i :: 0 <= i < |Entries(batch)| ==>
      && b.inputIds[i] == Entries(batch)[i].inputIds
      && b.attentionMask[i] == Entries(batch)[i].attentionMask
      && b.labels[i] == Entries(batch)[i].labels
  {
    var inputIds: seq<seq<int>> := [];
    var attentionMasks: seq<seq<int>> := [];
    var labels: seq<seq<int>> := [];
    for s := 0 to |batch|
      invariant |inputIds| == |attentionMasks| == |labels| == |Flatten(batch[..s])|
      invariant forall i :: 0 <= i < |inputIds| ==>
        && inputIds[i] == Flatten(batch[..s])[i].inputIds
        && attentionMasks[i] == Flatten(batch[..s])[i].attentionMask
        && labels[i] == Flatten(batch[..s])[i].labels
    {
      var sample := batch[s];
      ghost var done := Flatten(batch[..s]);
      for k := 0 to |sample|
        invariant |inputIds| == |attentionMasks| == |labels| == |done| + k
        invariant forall i :: 0 <= i < |inputIds| ==>
          && inputIds[i] == (done + sample[..k])[i].inputIds
          && attentionMasks[i] == (done + sample[..k])[i].attentionMask
          && labels[i] == (done + sample[..k])[i].labels
      {
        var item := sample[k];
        assert done + sample[..k + 1] == (done + sample[..k]) + [item];
        inputIds := inputIds + [item.inputIds];
        attentionMasks := attentionMasks + [item.attentionMask];
        labels := labels + [item.labels];
      }
      assert sample[..|sample|] == sample;
      FlattenPrefixStep(batch, s);
    }
    assert batch[..|batch|] == batch;
    b := Batch(inputIds, attentionMasks, labels);
  }

  /** Entry `k` of sample `s` lands at row `Offset(batch, s) + k`: the samples' entries
      stay contiguous and in order. */
  lemma CollatePosition(batch: seq<seq<Item>>, s: nat, k: nat)
    requires s < |batch| && k < |batch[s]|
    ensures Offset(batch, s) + k < |Entries(batch)|
    ensures Entries(batch)[Offset(batch, s) + k] == batch[s][k]
  {
    FlattenAt(batch, s, k);
  }

  /** The collated batch has as many rows as the samples have entries together. */
  lemma CollateCount(batch: seq<seq<Item>>)
    ensures |Entries(batch)| == TotalLength(batch)
  {
    FlattenLength(batch);
  }
}
