/** Packed token masks: extraction of the allowed IDs, counting, and the synthetic mask builder. */
module TokenMask {
  import opened WordBits

  /** `xgrammar::GetBitmaskSize` */
  function MaskWords(vocabSize: nat): (words: nat)
    ensures vocabSize <= WORD_BITS * words < vocabSize + WORD_BITS
  {
    (vocabSize + WORD_BITS - 1) / WORD_BITS
  }

  /** A mask tensor: `columns` words per row. */
  predicate HasRow(mask: seq<Word>, columns: nat, row: nat) {
    (row + 1) * columns <= |mask|
  }

  function Row(mask: seq<Word>, columns: nat, row: nat): (words: seq<Word>)
    requires HasRow(mask, columns, row)
    ensures |words| == columns
  {
    assert (row + 1) * columns == row * columns + columns;
    mask[row * columns..row * columns + columns]
  }

  /** Whether each ID is allowed: ID k is bit k % 32 of word k / 32. */
  function Flags(words: seq<Word>): (flags: seq<bool>)
    ensures |flags| == WORD_BITS * |words|
  {
    seq(WORD_BITS * |words|, id requires 0 <= id < WORD_BITS * |words| => Bit(words[id / WORD_BITS], id % WORD_BITS))
  }

  lemma FlagAt(words: seq<Word>, word: nat, offset: nat)
    requires word < |words| && offset < WORD_BITS
    ensures word * WORD_BITS + offset < |Flags(words)|
    ensures Flags(words)[word * WORD_BITS + offset] == Bit(words[word], offset)
  {
    assert (word * WORD_BITS + offset) / WORD_BITS == word;
    assert (word * WORD_BITS + offset) % WORD_BITS == offset;
  }

  /** The plain filter: the allowed IDs from `from` up to `bound`, one test per ID. */
  function AllowedIds(flags: seq<bool>, from: nat, bound: nat): seq<nat>
    requires from <= bound <= |flags|
    decreases bound - from
  {
    if from == bound then [] else (if flags[from] then [from] else []) + AllowedIds(flags, from + 1, bound)
  }

  lemma {:induction false} AllowedIdsExact(flags: seq<bool>, from: nat, bound: nat)
    requires from <= bound <= |flags|
    ensures forall id :: id in AllowedIds(flags, from, bound) <==> from <= id < bound && flags[id]
    ensures forall i, j | 0 <= i < j < |AllowedIds(flags, from, bound)| ::
              AllowedIds(flags, from, bound)[i] < AllowedIds(flags, from, bound)[j]
    decreases bound - from
  {
    if from < bound {
      AllowedIdsExact(flags, from + 1, bound);
      var rest := AllowedIds(flags, from + 1, bound);
      assert forall i | 0 <= i < |rest| :: rest[i] in rest;
    }
  }

  lemma {:induction false} AllowedIdsSplit(flags: seq<bool>, from: nat, mid: nat, bound: nat)
    requires from <= mid <= bound <= |flags|
    ensures AllowedIds(flags, from, bound) == AllowedIds(flags, from, mid) + AllowedIds(flags, mid, bound)
    decreases mid - from
  {
    if from < mid {
      AllowedIdsSplit(flags, from + 1, mid, bound);
    }
  }

  lemma {:induction false} AllowedIdsFit(flags: seq<bool>, from: nat, bound: nat)
    requires from <= bound <= |flags|
    ensures |AllowedIds(flags, from, bound)| <= bound - from
    decreases bound - from
  {
    if from < bound {
      AllowedIdsFit(flags, from + 1, bound);
    }
  }

  /** The IDs the `ctz` loop writes for one word whose bit 0 stands for the ID `base`. */
  function LowestFirst(base: nat, bits: nat): seq<nat>
    decreases PopCount(bits)
  {
    if bits == 0 then []
    else
      ClearLowest(bits);
      [base + TrailingZeros(bits)] + LowestFirst(base, And(bits, bits - 1))
  }

  /** The same IDs, read off bit by bit. */
  function BitByBit(base: nat, bits: nat): (ids: seq<nat>)
    ensures |ids| == PopCount(bits)
    decreases bits
  {
    if bits == 0 then [] else (if bits % 2 == 1 then [base] else []) + BitByBit(base + 1, bits / 2)
  }

  lemma OddWord(half: nat)
    ensures And(2 * half + 1, 2 * half) == 2 * half
    ensures TrailingZeros(2 * half + 1) == 0
  {
    assert (2 * half + 1) / 2 == half && (2 * half) / 2 == half;
    AndSelf(half);
  }

  lemma EvenWord(half: nat)
    requires half > 0
    ensures And(2 * half, 2 * half - 1) == 2 * And(half, half - 1)
    ensures TrailingZeros(2 * half) == 1 + TrailingZeros(half)
  {
    ClearLowest(2 * half);
    ClearLowest(half);
  }

  /** Doubling a word moves its IDs up by one. */
  lemma {:induction false} DoubledWord(base: nat, half: nat)
    ensures LowestFirst(base, 2 * half) == LowestFirst(base + 1, half)
    ensures BitByBit(base, 2 * half) == BitByBit(base + 1, half)
    decreases half
  {
    assert (2 * half) / 2 == half;
    if half > 0 {
      EvenWord(half);
      ClearLowest(half);
      DoubledWord(base, And(half, half - 1));
    }
  }

  lemma {:induction false} LowestFirstIsBitByBit(base: nat, bits: nat)
    ensures LowestFirst(base, bits) == BitByBit(base, bits)
    decreases bits
  {
    if bits % 2 == 1 {
      OddWord(bits / 2);
      LowestFirstIsBitByBit(base, bits - 1);
      DoubledWord(base, bits / 2);
    } else if bits > 0 {
      LowestFirstIsBitByBit(base + 1, bits / 2);
      DoubledWord(base, bits / 2);
    }
  }

  /** `bits` holds the flags from `start` up to `bound`. */
  ghost predicate HoldsFlags(bits: nat, flags: seq<bool>, start: nat, bound: nat)
    requires start <= bound <= |flags|
  {
    forall i: nat :: Bit(bits, i) <==> start + i < bound && flags[start + i]
  }

  lemma HoldsRest(bits: nat, flags: seq<bool>, start: nat, bound: nat)
    requires start < bound <= |flags| && HoldsFlags(bits, flags, start, bound)
    ensures bits % 2 == 1 <==> flags[start]
    ensures HoldsFlags(bits / 2, flags, start + 1, bound)
  {
    assert Bit(bits, 0) <==> flags[start + 0];
    forall i: nat ensures Bit(bits / 2, i) <==> start + 1 + i < bound && flags[start + 1 + i] {
      assert Bit(bits, i + 1) <==> start + (i + 1) < bound && flags[start + (i + 1)];
    }
  }

  /** Reading a word bit by bit is filtering its IDs one by one. */
  lemma {:induction false} BitByBitIsFilter(bits: nat, flags: seq<bool>, start: nat, bound: nat)
    requires start <= bound <= |flags| && HoldsFlags(bits, flags, start, bound)
    ensures BitByBit(start, bits) == AllowedIds(flags, start, bound)
    decreases bound - start
  {
    if start == bound {
      NoBitsIsZero(bits);
    } else {
      HoldsRest(bits, flags, start, bound);
      BitByBitIsFilter(bits / 2, flags, start + 1, bound);
      if bits == 0 {
        assert BitByBit(start + 1, bits / 2) == [];
      }
    }
  }

  /** The word as the loops see it: the last one loses the bits past the vocabulary. */
  function Masked(words: seq<Word>, vocabSize: nat, word: nat): (bits: nat)
    requires word < |words|
  {
    if word + 1 == |words| && vocabSize % WORD_BITS != 0
    then And(words[word], Pow2(vocabSize % WORD_BITS) - 1)
    else words[word]
  }

  /** The IDs covered once `word` words have been read. */
  function Reach(vocabSize: nat, word: nat): nat {
    if word == MaskWords(vocabSize) then vocabSize else word * WORD_BITS
  }

  lemma ReachAdvances(vocabSize: nat, word: nat)
    requires word < MaskWords(vocabSize)
    ensures Reach(vocabSize, word) == word * WORD_BITS
    ensures Reach(vocabSize, word) <= Reach(vocabSize, word + 1) <= vocabSize <= WORD_BITS * MaskWords(vocabSize)
    ensures Reach(vocabSize, word + 1) - Reach(vocabSize, word)
         == if word + 1 == MaskWords(vocabSize) && vocabSize % WORD_BITS != 0 then vocabSize % WORD_BITS else WORD_BITS
  {}

  lemma MaskedBits(words: seq<Word>, vocabSize: nat, word: nat, i: nat)
    requires |words| == MaskWords(vocabSize) && word < |words|
    ensures Bit(Masked(words, vocabSize, word), i)
       <==> i < Reach(vocabSize, word + 1) - Reach(vocabSize, word) && Bit(words[word], i)
  {
    ReachAdvances(vocabSize, word);
    AndBit(words[word], Pow2(vocabSize % WORD_BITS) - 1, i);
    LowMaskBit(vocabSize % WORD_BITS, i);
    Pow2Word();
    if i >= WORD_BITS {
      HighBit(words[word], WORD_BITS, i);
    }
  }

  lemma MaskedHoldsFlags(words: seq<Word>, vocabSize: nat, word: nat)
    requires |words| == MaskWords(vocabSize) && word < |words|
    ensures Reach(vocabSize, word) <= Reach(vocabSize, word + 1) <= |Flags(words)|
    ensures HoldsFlags(Masked(words, vocabSize, word), Flags(words), Reach(vocabSize, word), Reach(vocabSize, word + 1))
  {
    ReachAdvances(vocabSize, word);
    var bits, flags := Masked(words, vocabSize, word), Flags(words);
    var start, bound := Reach(vocabSize, word), Reach(vocabSize, word + 1);
    forall i: nat ensures Bit(bits, i) <==> start + i < bound && flags[start + i] {
      MaskedBits(words, vocabSize, word, i);
      if start + i < bound {
        FlagAt(words, word, i);
      }
    }
  }

  /** One more word extends the filtered list by that word's IDs. */
  lemma FilterStep(words: seq<Word>, vocabSize: nat, word: nat)
    requires |words| == MaskWords(vocabSize) && word < |words|
    ensures Reach(vocabSize, word) <= Reach(vocabSize, word + 1) <= vocabSize <= |Flags(words)|
    ensures AllowedIds(Flags(words), 0, Reach(vocabSize, word + 1))
         == AllowedIds(Flags(words), 0, Reach(vocabSize, word))
            + BitByBit(word * WORD_BITS, Masked(words, vocabSize, word))
    ensures |AllowedIds(Flags(words), 0, Reach(vocabSize, word + 1))| <= vocabSize
  {
    ReachAdvances(vocabSize, word);
    MaskedHoldsFlags(words, vocabSize, word);
    BitByBitIsFilter(Masked(words, vocabSize, word), Flags(words), Reach(vocabSize, word), Reach(vocabSize, word + 1));
    AllowedIdsSplit(Flags(words), 0, Reach(vocabSize, word), Reach(vocabSize, word + 1));
    AllowedIdsFit(Flags(words), 0, Reach(vocabSize, word + 1));
  }

  /** Read one word of a row, dropping the bits past the vocabulary in the last one. */
  method ReadWord(mask: seq<Word>, columns: nat, vocabSize: nat, row: nat, word: nat) returns (bits: nat)
    requires HasRow(mask, columns, row) && word < columns
    ensures bits == Masked(Row(mask, columns, row), vocabSize, word)
  {
    assert (row + 1) * columns == row * columns + columns;
    bits := mask[row * columns + word];
    if word + 1 == columns && vocabSize % WORD_BITS != 0 {
      bits := And(bits, Pow2(vocabSize % WORD_BITS) - 1);
    }
  }

  lemma SingleBit(w: nat, k: nat)
    ensures And(w, Pow2(k)) != 0 <==> Bit(w, k)
  {
    forall i: nat ensures Bit(And(w, Pow2(k)), i) <==> i == k && Bit(w, i) {
      AndBit(w, Pow2(k), i);
      Pow2Bit(k, i);
    }
    if Bit(w, k) {
      ZeroBit(k);
      assert Bit(And(w, Pow2(k)), k);
    } else {
      NoBitsIsZero(And(w, Pow2(k)));
    }
  }

  method IsAllowed(mask: seq<Word>, columns: nat, tokenId: nat, row: nat) returns (allowed: bool)
    requires HasRow(mask, columns, row) && tokenId < WORD_BITS * columns
    ensures allowed == Flags(Row(mask, columns, row))[tokenId]
  {
    assert (row + 1) * columns == row * columns + columns;
    var word := mask[row * columns + tokenId / WORD_BITS];
    var bit := Pow2(tokenId % WORD_BITS);
    allowed := And(word, bit) != 0;
    SingleBit(word, tokenId % WORD_BITS);
  }

  method CountAllowed(mask: seq<Word>, columns: nat, vocabSize: nat, row: nat) returns (count: nat)
    requires columns == MaskWords(vocabSize) && HasRow(mask, columns, row)
    ensures vocabSize <= WORD_BITS * columns
    ensures count == |AllowedIds(Flags(Row(mask, columns, row)), 0, vocabSize)|
  {
    ghost var words := Row(mask, columns, row);
    count := 0;
    for word := 0 to columns
      invariant Reach(vocabSize, word) <= WORD_BITS * columns
      invariant count == |AllowedIds(Flags(words), 0, Reach(vocabSize, word))|
    {
      var bits := ReadWord(mask, columns, vocabSize, row, word);
      FilterStep(words, vocabSize, word);
      count := count + PopCount(bits);
    }
  }

  /** The inner loop: append the IDs of one word, lowest set bit first. */
  method AppendWordIds(base: nat, word: nat, output: array<nat>, start: nat) returns (count: nat)
    requires start + PopCount(word) <= output.Length
    modifies output
    ensures count == start + PopCount(word)
    ensures output[..count] == old(output[..start]) + BitByBit(base, word)
    ensures output[count..] == old(output[count..])
  {
    count := start;
    var bits := word;
    LowestFirstIsBitByBit(base, word);
    while bits != 0
      invariant count <= output.Length && count + PopCount(bits) == start + PopCount(word)
      invariant output[..count] + LowestFirst(base, bits) == old(output[..start]) + BitByBit(base, word)
      invariant output[count..] == old(output[count..])
      decreases PopCount(bits)
    {
      ClearLowest(bits);
      var bit := TrailingZeros(bits);
      ghost var before := output[..count];
      ghost var rest := LowestFirst(base, And(bits, bits - 1));
      assert before + LowestFirst(base, bits) == before + [base + bit] + rest;
      output[count] := base + bit;
      count := count + 1;
      assert output[..count] == before + [base + bit];
      bits := And(bits, bits - 1);
    }
  }

  /** The fast extraction writes exactly what the plain filter yields, and nothing after it. */
  method ExtractAllowedIds(mask: seq<Word>, columns: nat, vocabSize: nat, output: array<nat>, row: nat)
    returns (count: nat)
    requires columns == MaskWords(vocabSize) && HasRow(mask, columns, row)
    requires output.Length >= vocabSize
    modifies output
    ensures count <= vocabSize
    ensures vocabSize <= WORD_BITS * columns
    ensures output[..count] == AllowedIds(Flags(Row(mask, columns, row)), 0, vocabSize)
    ensures output[count..] == old(output[count..])
  {
    ghost var words := Row(mask, columns, row);
    count := 0;
    for word := 0 to columns
      invariant Reach(vocabSize, word) <= WORD_BITS * columns
      invariant count <= vocabSize
      invariant output[..count] == AllowedIds(Flags(words), 0, Reach(vocabSize, word))
      invariant output[count..] == old(output[count..])
    {
      var bits := ReadWord(mask, columns, vocabSize, row, word);
      FilterStep(words, vocabSize, word);
      count := AppendWordIds(word * WORD_BITS, bits, output, count);
    }
  }
}
