/** The synthetic masks of the extraction benchmark: tokens at stride 7919, and exactly when the
    benchmark's own count check passes. */
module MaskStride {
  import opened Arithmetic
  import opened WordBits
  import opened TokenMask

  const STRIDE: nat := 7919
  const ROW_SHIFT: nat := 1009
  const OFFSET: nat := 17

  function Token(index: nat, row: nat, vocabSize: nat): (id: nat)
    requires vocabSize > 0
    ensures id < vocabSize
  {
    (index * STRIDE + row * ROW_SHIFT + OFFSET) % vocabSize
  }

  /** Consecutive tokens of a row are 7919 apart, consecutive rows 1009, and the first token of the first row is 17, all
      around the vocabulary. */
  lemma TokenSteps(index: nat, row: nat, vocabSize: nat)
    requires vocabSize > 0
    ensures Token(0, 0, vocabSize) == 17 % vocabSize
    ensures Token(index + 1, row, vocabSize) == (Token(index, row, vocabSize) + 7919) % vocabSize
    ensures Token(index, row + 1, vocabSize) == (Token(index, row, vocabSize) + 1009) % vocabSize
  {
    var n := index * STRIDE + row * ROW_SHIFT + OFFSET;
    assert n == (n / vocabSize) * vocabSize + n % vocabSize;
    ModAddMultiple(n % vocabSize + 7919, n / vocabSize, vocabSize);
    ModAddMultiple(n % vocabSize + 1009, n / vocabSize, vocabSize);
  }

  function Tokens(count: nat, row: nat, vocabSize: nat): set<nat>
    requires vocabSize > 0
  {
    set i: nat | i < count :: Token(i, row, vocabSize)
  }

  /** A common divisor written as a combination of the two numbers, with both quotients. */
  datatype Divisor = Divisor(g: nat, x: int, y: int, qa: nat, qb: nat)

  lemma EuclidStep(a: nat, b: nat, d: Divisor)
    requires b > 0 && b == d.g * d.qa && a % b == d.g * d.qb
    requires d.x * b + d.y * (a % b) == d.g
    ensures a == d.g * ((a / b) * d.qa + d.qb)
    ensures d.y * a + (d.x - (a / b) * d.y) * b == d.g
  {
    var q, r := a / b, a % b;
    assert a == q * b + r;
    assert q * (d.g * d.qa) == d.g * (q * d.qa);
    assert d.g * (q * d.qa + d.qb) == d.g * (q * d.qa) + d.g * d.qb;
    assert d.y * (q * b + r) == d.y * (q * b) + d.y * r;
    assert (d.x - q * d.y) * b == d.x * b - (q * d.y) * b;
    assert (q * d.y) * b == d.y * (q * b);
  }

  /** Euclid's algorithm. */
  function Euclid(a: nat, b: nat): (d: Divisor)
    requires a > 0 || b > 0
    ensures d.g > 0 && a == d.g * d.qa && b == d.g * d.qb
    ensures d.x * a + d.y * b == d.g
    decreases b
  {
    if b == 0 then Divisor(a, 1, 0, 1, 0)
    else
      var d := Euclid(b, a % b);
      EuclidStep(a, b, d);
      Divisor(d.g, d.y, d.x - (a / b) * d.y, (a / b) * d.qa + d.qb, d.qa)
  }

  function Gcd(a: nat, b: nat): (g: nat)
    requires b > 0
    ensures g > 0
  {
    Euclid(a, b).g
  }

  lemma GapIsMultiple(gap: nat, k: int, d: Divisor, v: nat)
    requires d.g > 0 && v == d.g * d.qb && d.x * STRIDE + d.y * v == d.g
    requires gap * STRIDE == k * v
    ensures gap == (d.x * k + d.y * gap) * d.qb
  {
    var m := d.x * k + d.y * gap;
    calc {
      gap * d.g;
      gap * (d.x * STRIDE + d.y * v);
      d.x * (gap * STRIDE) + d.y * gap * v;
      d.x * (k * v) + d.y * gap * v;
      m * v;
      (m * d.qb) * d.g;
    }
    Cancel(gap, m * d.qb, d.g);
  }

  lemma NotAMultiple(gap: nat, m: int, p: nat)
    requires 0 < gap < p
    ensures gap != m * p
  {
    ScaleOrderIff(m, 0, p);
    ScaleOrderIff(1, m, p);
  }

  /** The token sequence repeats after `vocabSize / gcd` steps ... */
  function Period(vocabSize: nat): (p: nat)
    requires vocabSize > 0
    ensures p * Gcd(STRIDE, vocabSize) == vocabSize
    ensures p > 0
  {
    Euclid(STRIDE, vocabSize).qb
  }

  lemma Repeats(row: nat, vocabSize: nat)
    requires vocabSize > 0
    ensures Token(Period(vocabSize), row, vocabSize) == Token(0, row, vocabSize)
  {
    var d := Euclid(STRIDE, vocabSize);
    assert d.qb * (d.g * d.qa) == d.qa * (d.g * d.qb);
    ModAddMultiple(row * ROW_SHIFT + OFFSET, d.qa, vocabSize);
  }

  /** ... and not before. */
  lemma NoEarlierRepeat(i: nat, j: nat, row: nat, vocabSize: nat)
    requires vocabSize > 0 && i < j && j - i < Period(vocabSize)
    ensures Token(i, row, vocabSize) != Token(j, row, vocabSize)
  {
    var d := Euclid(STRIDE, vocabSize);
    var low, high := i * STRIDE + row * ROW_SHIFT + OFFSET, j * STRIDE + row * ROW_SHIFT + OFFSET;
    var k := high / vocabSize - low / vocabSize;
    var gap := j - i;
    assert high == (high / vocabSize) * vocabSize + high % vocabSize;
    assert low == (low / vocabSize) * vocabSize + low % vocabSize;
    if low % vocabSize == high % vocabSize {
      GapIsMultiple(gap, k, d, vocabSize);
      NotAMultiple(gap, d.x * k + d.y * gap, d.qb);
    }
  }

  /** The first `count` tokens are all different if and only if they stay within one period. */
  lemma {:induction false} TokensDistinctIff(count: nat, row: nat, vocabSize: nat)
    requires vocabSize > 0
    ensures |Tokens(count, row, vocabSize)| <= count
    ensures |Tokens(count, row, vocabSize)| == count <==> count <= Period(vocabSize)
  {
    if count > 0 {
      TokensDistinctIff(count - 1, row, vocabSize);
      var last := Token(count - 1, row, vocabSize);
      assert Tokens(count, row, vocabSize) == Tokens(count - 1, row, vocabSize) + {last};
      if count <= Period(vocabSize) {
        forall i: nat | i < count - 1 ensures Token(i, row, vocabSize) != last {
          NoEarlierRepeat(i, count - 1, row, vocabSize);
        }
      } else if count == Period(vocabSize) + 1 {
        Repeats(row, vocabSize);
        assert last in Tokens(count - 1, row, vocabSize);
      }
    }
  }

  ghost predicate RowHolds(words: seq<Word>, before: seq<Word>, tokens: set<nat>)
    requires |words| == |before|
  {
    forall id: nat | id < WORD_BITS * |words| :: Flags(words)[id] == (Flags(before)[id] || id in tokens)
  }

  lemma SetOneBit(words: seq<Word>, token: nat)
    requires token < WORD_BITS * |words|
    requires Or(words[token / WORD_BITS], Pow2(token % WORD_BITS)) < 0x1_0000_0000
    ensures RowHolds(words[token / WORD_BITS := Or(words[token / WORD_BITS], Pow2(token % WORD_BITS))], words, {token})
  {
    var w, k := token / WORD_BITS, token % WORD_BITS;
    var after := words[w := Or(words[w], Pow2(k))];
    forall id: nat | id < WORD_BITS * |words|
      ensures Flags(after)[id] == (Flags(words)[id] || id in {token})
    {
      OrBit(words[w], Pow2(k), id % WORD_BITS);
      Pow2Bit(k, id % WORD_BITS);
    }
  }

  /** Set one token's bit in place. */
  method SetBit(masks: array<Word>, columns: nat, row: nat, token: nat)
    requires HasRow(masks[..], columns, row) && token < WORD_BITS * columns
    modifies masks
    ensures RowHolds(Row(masks[..], columns, row), old(Row(masks[..], columns, row)), {token})
    ensures forall k: nat | k < masks.Length && k != row * columns + token / WORD_BITS :: masks[k] == old(masks[k])
  {
    assert (row + 1) * columns == row * columns + columns;
    var maskIndex := row * columns + token / WORD_BITS;
    ghost var words := Row(masks[..], columns, row);
    var word := masks[maskIndex];
    Pow2Word();
    Pow2Order(token % WORD_BITS, WORD_BITS);
    OrBound(word, Pow2(token % WORD_BITS), WORD_BITS);
    masks[maskIndex] := Or(word, Pow2(token % WORD_BITS));
    assert Row(masks[..], columns, row) == words[token / WORD_BITS := Or(word, Pow2(token % WORD_BITS))];
    SetOneBit(words, token);
  }

  /** Set the bits of one row in place. */
  method FillRow(masks: array<Word>, columns: nat, row: nat, count: nat, vocabSize: nat)
    requires vocabSize > 0 && columns == MaskWords(vocabSize)
    requires HasRow(masks[..], columns, row)
    modifies masks
    ensures RowHolds(Row(masks[..], columns, row), old(Row(masks[..], columns, row)), Tokens(count, row, vocabSize))
    ensures forall k: nat | k < masks.Length && !(row * columns <= k < row * columns + columns) ::
              masks[k] == old(masks[k])
  {
    ghost var before := masks[..];
    for index := 0 to count
      invariant HasRow(masks[..], columns, row)
      invariant RowHolds(Row(masks[..], columns, row), Row(before, columns, row), Tokens(index, row, vocabSize))
      invariant forall k: nat | k < masks.Length && !(row * columns <= k < row * columns + columns) ::
                  masks[k] == before[k]
    {
      var token := Token(index, row, vocabSize);
      SetBit(masks, columns, row, token);
      assert Tokens(index + 1, row, vocabSize) == Tokens(index, row, vocabSize) + {token};
    }
  }

  function Elements(ids: seq<nat>): set<nat> {
    set id | id in ids
  }

  lemma {:induction false} DistinctCount(ids: seq<nat>)
    requires forall i, j | 0 <= i < j < |ids| :: ids[i] < ids[j]
    ensures |Elements(ids)| == |ids|
  {
    if ids != [] {
      DistinctCount(ids[1..]);
      assert Elements(ids) == Elements(ids[1..]) + {ids[0]};
    }
  }

  /** What the plain filter finds in a row that was filled from an empty one. */
  lemma FilledRow(words: seq<Word>, empty: seq<Word>, row: nat, count: nat, vocabSize: nat)
    requires vocabSize > 0 && |words| == |empty| == MaskWords(vocabSize)
    requires forall k | 0 <= k < |empty| :: empty[k] == 0
    requires RowHolds(words, empty, Tokens(count, row, vocabSize))
    ensures vocabSize <= |Flags(words)|
    ensures Elements(AllowedIds(Flags(words), 0, vocabSize)) == Tokens(count, row, vocabSize)
    ensures |AllowedIds(Flags(words), 0, vocabSize)| == count <==> count * Gcd(STRIDE, vocabSize) <= vocabSize
  {
    var ids := AllowedIds(Flags(words), 0, vocabSize);
    AllowedIdsExact(Flags(words), 0, vocabSize);
    DistinctCount(ids);
    forall id: nat | id < WORD_BITS * |words| ensures !Flags(empty)[id] {
      ZeroBit(id % WORD_BITS);
    }
    assert Elements(ids) == Tokens(count, row, vocabSize);
    TokensDistinctIff(count, row, vocabSize);
    ScaleOrderIff(count, Period(vocabSize), Gcd(STRIDE, vocabSize));
  }

  /** A row as the tensor is allocated. */
  function ZeroWords(columns: nat): seq<Word> {
    seq(columns, _ => 0)
  }

  predicate RowIsEmpty(mask: seq<Word>, columns: nat, row: nat) {
    HasRow(mask, columns, row) && Row(mask, columns, row) == ZeroWords(columns)
  }

  ghost predicate RowIsFilled(mask: seq<Word>, columns: nat, row: nat, tokens: set<nat>) {
    HasRow(mask, columns, row) && RowHolds(Row(mask, columns, row), ZeroWords(columns), tokens)
  }

  /** A change within one row leaves every other row alone. */
  lemma OtherRowKept(before: seq<Word>, after: seq<Word>, columns: nat, row: nat, other: nat)
    requires |after| == |before| && HasRow(before, columns, other) && row != other
    requires forall k: nat | k < |before| && !(row * columns <= k < row * columns + columns) :: after[k] == before[k]
    ensures HasRow(after, columns, other) && Row(after, columns, other) == Row(before, columns, other)
  {
    assert (other + 1) * columns == other * columns + columns && (row + 1) * columns == row * columns + columns;
    if row < other {
      ScaleOrder(row + 1, other, columns);
    } else {
      ScaleOrder(other + 1, row, columns);
    }
  }

  /** The words of a mask of so many rows. */
  function Area(rows: nat, columns: nat): nat {
    rows * columns
  }

  lemma FreshRow(mask: seq<Word>, columns: nat, rows: nat, row: nat)
    requires |mask| == Area(rows, columns) && row < rows && forall k | 0 <= k < |mask| :: mask[k] == 0
    ensures RowIsEmpty(mask, columns, row)
  {
    ScaleOrder(row + 1, rows, columns);
  }

  /** Fill one row that is still empty. */
  method FillFreshRow(masks: array<Word>, columns: nat, row: nat, count: nat, vocabSize: nat)
    requires vocabSize > 0 && columns == MaskWords(vocabSize) && RowIsEmpty(masks[..], columns, row)
    modifies masks
    ensures RowIsFilled(masks[..], columns, row, Tokens(count, row, vocabSize))
    ensures forall r: nat | r != row && RowIsEmpty(old(masks[..]), columns, r) :: RowIsEmpty(masks[..], columns, r)
    ensures forall r: nat, tokens | r != row && RowIsFilled(old(masks[..]), columns, r, tokens) ::
              RowIsFilled(masks[..], columns, r, tokens)
  {
    ghost var before := masks[..];
    FillRow(masks, columns, row, count, vocabSize);
    forall r: nat | r != row && HasRow(before, columns, r)
      ensures HasRow(masks[..], columns, r) && Row(masks[..], columns, r) == Row(before, columns, r)
    {
      OtherRowKept(before, masks[..], columns, row, r);
    }
  }

  /** Fill every row of a fresh mask. */
  method FillAll(masks: array<Word>, columns: nat, counts: seq<nat>, vocabSize: nat)
    requires vocabSize > 0 && columns == MaskWords(vocabSize) && masks.Length == Area(|counts|, columns)
    requires forall k | 0 <= k < masks.Length :: masks[k] == 0
    modifies masks
    ensures forall r: nat | r < |counts| :: RowIsFilled(masks[..], columns, r, Tokens(counts[r], r, vocabSize))
  {
    hide RowIsEmpty, RowIsFilled, Tokens, Area, MaskWords;
    forall r: nat | r < |counts| ensures RowIsEmpty(masks[..], columns, r) {
      FreshRow(masks[..], columns, |counts|, r);
    }
    for row := 0 to |counts|
      invariant forall r: nat | r < row :: RowIsFilled(masks[..], columns, r, Tokens(counts[r], r, vocabSize))
      invariant forall r: nat | row <= r < |counts| :: RowIsEmpty(masks[..], columns, r)
    {
      FillFreshRow(masks, columns, row, counts[row], vocabSize);
    }
  }

  /** So many strided tokens times the common divisor of stride and vocabulary size are within the vocabulary size. */
  predicate Fits(count: nat, vocabSize: nat)
    requires vocabSize > 0
  {
    count * Gcd(STRIDE, vocabSize) <= vocabSize
  }

  /** The benchmark's check of one row. */
  method CheckRow(mask: seq<Word>, columns: nat, row: nat, count: nat, vocabSize: nat, output: array<nat>)
    returns (passed: bool)
    requires vocabSize > 0 && columns == MaskWords(vocabSize) && output.Length == vocabSize
    requires RowIsFilled(mask, columns, row, Tokens(count, row, vocabSize))
    modifies output
    ensures passed <==> Fits(count, vocabSize)
    ensures passed ==> count <= vocabSize && Elements(output[..count]) == Tokens(count, row, vocabSize)
  {
    hide RowHolds, Tokens;
    FilledRow(Row(mask, columns, row), ZeroWords(columns), row, count, vocabSize);
    var extracted := ExtractAllowedIds(mask, columns, vocabSize, output, row);
    passed := extracted == count;
  }

  /** Build every row, then extract every row again. The benchmark's check that the requested count comes back passes
      for all of them if and only if all of them fit; it fails at the first row that does not. */
  method BuildAndExtract(counts: seq<nat>, vocabSize: nat) returns (passed: bool, results: seq<nat>)
    requires vocabSize > 0
    ensures passed <==> forall r: nat | r < |counts| :: Fits(counts[r], vocabSize)
    ensures passed ==> results == counts
    ensures !passed ==> |results| < |counts| && results == counts[..|results|] && !Fits(counts[|results|], vocabSize)
  {
    hide RowIsFilled, Tokens, Area, MaskWords, Fits;
    var columns := MaskWords(vocabSize);
    var masks := new Word[Area(|counts|, columns)](_ => 0);
    FillAll(masks, columns, counts, vocabSize);
    var output := new nat[vocabSize];
    results := [];
    for row := 0 to |counts|
      invariant results == counts[..row]
      invariant forall r: nat | r < row :: Fits(counts[r], vocabSize)
      invariant forall r: nat | r < |counts| :: RowIsFilled(masks[..], columns, r, Tokens(counts[r], r, vocabSize))
    {
      var ok := CheckRow(masks[..], columns, row, counts[row], vocabSize, output);
      if !ok {
        return false, results;
      }
      results := results + [counts[row]];
    }
    passed := true;
  }

  /** A common divisor of two numbers with a combination that is one is one itself. */
  lemma CoprimeByCombination(g: nat, qa: nat, qb: nat, x: int, y: int)
    requires (g * qa) * x - (g * qb) * y == 1
    ensures g == 1
  {
    assert g * (qa * x - qb * y) == (g * qa) * x - (g * qb) * y;
    if g > 1 {
      NotAMultiple(1, qa * x - qb * y, g);
    }
  }

  /** No token of the 154880-token GLM vocabulary is hit twice, whatever the row. */
  lemma WholeVocabularyDistinct(row: nat)
    ensures |Tokens(154880, row, 154880)| == 154880
  {
    hide Euclid, Tokens;
    var d := Euclid(STRIDE, 154880);
    assert STRIDE * 146959 - 154880 * 7514 == 1;
    CoprimeByCombination(d.g, d.qa, d.qb, 146959, 7514);
    TokensDistinctIff(154880, row, 154880);
  }
}
