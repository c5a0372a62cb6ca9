/** Spread sampling of a tensor's bytes, with Python's round-half-to-even on exact rationals. */
module SampleRanges {
  import opened Arithmetic

  datatype Sample = Sample(offset: int, length: int)

  /** Python's `round(p / q)`: the nearest integer, ties to the even neighbour. */
  function RoundHalfEven(p: nat, q: nat): (k: nat)
    requires q > 0
    ensures 2 * p <= 2 * (k * q) + q && 2 * (k * q) <= 2 * p + q
    ensures 2 * p == 2 * (k * q) + q || 2 * (k * q) == 2 * p + q ==> k % 2 == 0
  {
    var floor, rest := p / q, p % q;
    assert p == floor * q + rest;
    if 2 * rest < q then floor
    else if 2 * rest > q || floor % 2 == 1 then
      assert (floor + 1) * q == floor * q + q;
      floor + 1
    else floor
  }

  function SampleCount(maximum: nat, chunk: nat): nat
    requires chunk > 0
  {
    if maximum / chunk > 1 then maximum / chunk else 1
  }

  function Ranges(length: nat, maximum: nat, chunk: nat): seq<Sample>
    requires chunk > 0
  {
    var count := SampleCount(maximum, chunk);
    var size := if chunk < length then chunk else length;
    if length <= maximum then [Sample(0, length)]
    else if count == 1 then [Sample((length - size) / 2, size)]
    else seq(count, i requires 0 <= i < count => Sample(RoundHalfEven(i * (length - size), count - 1), size))
  }

  function TotalBytes(samples: seq<Sample>): int {
    if samples == [] then 0 else samples[0].length + TotalBytes(samples[1..])
  }

  ghost predicate InBounds(samples: seq<Sample>, length: nat) {
    forall s | s in samples :: 0 <= s.offset && 0 <= s.length && s.offset + s.length <= length
  }

  /** Every sample ends before the next begins, so samples ascend and never share a byte. */
  ghost predicate Disjoint(samples: seq<Sample>) {
    forall i, j | 0 <= i < j < |samples| :: samples[i].offset + samples[i].length <= samples[j].offset
  }

  /** Rounding cannot close a gap that is strictly wider than one chunk. */
  lemma RoundedGap(p: nat, step: nat, q: nat, chunk: nat)
    requires q > 0 && step > chunk * q
    ensures RoundHalfEven(p + step, q) >= RoundHalfEven(p, q) + chunk
  {
    var a, b := RoundHalfEven(p, q), RoundHalfEven(p + step, q);
    assert (a + chunk - 1) * q == a * q + chunk * q - q;
    if b <= a + chunk - 1 {
      ScaleOrder(b, a + chunk - 1, q);
    }
  }

  /** Consecutive unrounded starts are more than a chunk apart. */
  lemma SpreadExceedsChunk(length: nat, maximum: nat, chunk: nat)
    requires chunk > 0 && length > maximum && maximum / chunk >= 2
    ensures chunk < length
    ensures length - chunk > chunk * (maximum / chunk - 1)
  {
    var count := maximum / chunk;
    assert count * chunk <= maximum;
    assert chunk * (count - 1) == count * chunk - chunk;
    assert 2 * chunk <= count * chunk;
  }

  lemma SpreadStep(length: nat, maximum: nat, chunk: nat, j: nat)
    requires chunk > 0 && length > maximum && maximum / chunk >= 2
    requires 0 < j < maximum / chunk == |Ranges(length, maximum, chunk)|
    ensures Ranges(length, maximum, chunk)[j - 1].offset + chunk <= Ranges(length, maximum, chunk)[j].offset
  {
    SpreadExceedsChunk(length, maximum, chunk);
    var step: nat, q := length - chunk, maximum / chunk - 1;
    assert (j - 1) * step + step == j * step;
    RoundedGap((j - 1) * step, step, q, chunk);
  }

  lemma {:induction false} SpreadDisjoint(length: nat, maximum: nat, chunk: nat, i: nat, j: nat)
    requires chunk > 0 && length > maximum && maximum / chunk >= 2
    requires i < j < maximum / chunk == |Ranges(length, maximum, chunk)|
    ensures Ranges(length, maximum, chunk)[i].offset + chunk <= Ranges(length, maximum, chunk)[j].offset
    decreases j
  {
    SpreadStep(length, maximum, chunk, j);
    if i < j - 1 {
      SpreadDisjoint(length, maximum, chunk, i, j - 1);
    }
  }

  lemma RoundExact(k: nat, q: nat)
    requires q > 0
    ensures RoundHalfEven(k * q, q) == k
  {
    var r := RoundHalfEven(k * q, q);
    assert (r + 1) * q == r * q + q && (k + 1) * q == k * q + q;
    if r < k {
      ScaleOrder(r + 1, k, q);
    } else if r > k {
      ScaleOrder(k + 1, r, q);
    }
  }

  /** With two or more samples the first starts at byte 0 and the last ends at the last byte. */
  lemma SpreadReachesBothEnds(length: nat, maximum: nat, chunk: nat)
    requires chunk > 0 && length > maximum && maximum / chunk >= 2
    ensures var r := Ranges(length, maximum, chunk);
            && |r| == maximum / chunk
            && r[0].offset == 0
            && r[|r| - 1].offset + r[|r| - 1].length == length
  {
    SpreadExceedsChunk(length, maximum, chunk);
    var step, q := length - chunk, maximum / chunk - 1;
    RoundExact(0, q);
    RoundExact(step, q);
    assert q * step == step * q;
  }

  /** A tensor within the budget is sampled whole; a single sample is centred, an odd byte falling behind it. */
  lemma WholeOrCentred(length: nat, maximum: nat, chunk: nat)
    requires chunk > 0
    ensures var r := Ranges(length, maximum, chunk);
            && (length <= maximum ==> r == [Sample(0, length)])
            && (length > maximum && maximum / chunk <= 1 ==>
                  && |r| == 1 && r[0].length == (if chunk < length then chunk else length)
                  && var behind := length - (r[0].offset + r[0].length);
                     r[0].offset <= behind <= r[0].offset + 1)
  {}

  /** Two rounded quotients whose numerators are `step` apart. */
  lemma RoundedStep(p: nat, step: nat, q: nat)
    requires q > 0
    ensures var gap := (RoundHalfEven(p + step, q) - RoundHalfEven(p, q)) * q;
            gap <= step + q && step <= gap + q
  {
    var a, b := RoundHalfEven(p, q), RoundHalfEven(p + step, q);
    assert (b - a) * q == b * q - a * q;
  }

  lemma NextEvenPlace(i: nat, room: nat)
    ensures (i + 1) * room == i * room + room
  {}

  /** Two or more samples are a chunk each, and spread evenly up to rounding: each starts within half a byte of its even
      place, and consecutive starts are within one byte of the even distance. */
  lemma SpreadIsEven(length: nat, maximum: nat, chunk: nat, i: nat)
    requires chunk > 0 && length > maximum && maximum / chunk >= 2 && i < maximum / chunk
    ensures var r, room, gaps := Ranges(length, maximum, chunk), length - chunk, maximum / chunk - 1;
            && |r| == gaps + 1 && r[i].length == chunk
            && -gaps <= 2 * (r[i].offset * gaps - i * room) <= gaps
            && (i + 1 < |r| ==> room - gaps <= (r[i + 1].offset - r[i].offset) * gaps <= room + gaps)
  {
    SpreadExceedsChunk(length, maximum, chunk);
    var r, room: nat, gaps: nat := Ranges(length, maximum, chunk), length - chunk, maximum / chunk - 1;
    assert r[i].offset == RoundHalfEven(i * room, gaps);
    if i + 1 < |r| {
      assert r[i + 1].offset == RoundHalfEven((i + 1) * room, gaps);
      NextEvenPlace(i, room);
      RoundedStep(i * room, room, gaps);
    }
  }

  lemma {:induction false} EqualLengths(samples: seq<Sample>, size: int)
    requires forall s | s in samples :: s.length == size
    ensures TotalBytes(samples) == |samples| * size
  {
    if samples != [] {
      EqualLengths(samples[1..], size);
      assert (|samples| - 1) * size + size == |samples| * size;
    }
  }

  /** For every tensor and every budget the samples are in bounds, ascending and disjoint. */
  lemma RangesAreDisjoint(length: nat, maximum: nat, chunk: nat)
    requires chunk > 0
    ensures InBounds(Ranges(length, maximum, chunk), length)
    ensures Disjoint(Ranges(length, maximum, chunk))
  {
    var r := Ranges(length, maximum, chunk);
    if length > maximum && SampleCount(maximum, chunk) >= 2 {
      SpreadReachesBothEnds(length, maximum, chunk);
      SpreadExceedsChunk(length, maximum, chunk);
      forall i, j | 0 <= i < j < |r| ensures r[i].offset + r[i].length <= r[j].offset {
        SpreadDisjoint(length, maximum, chunk, i, j);
      }
      forall i | 0 <= i < |r| ensures r[i].offset + r[i].length <= length {
        if i < |r| - 1 {
          SpreadDisjoint(length, maximum, chunk, i, |r| - 1);
        }
      }
    }
  }

  lemma ChunksInBudget(maximum: nat, chunk: nat)
    requires chunk > 0
    ensures (maximum / chunk) * chunk <= maximum
    ensures maximum / chunk >= 1 <==> chunk <= maximum
  {}

  lemma SeveralSamplesFit(length: nat, maximum: nat, chunk: nat)
    requires chunk > 0 && length > maximum && maximum / chunk >= 2
    ensures TotalBytes(Ranges(length, maximum, chunk)) <= maximum
  {
    SpreadExceedsChunk(length, maximum, chunk);
    ChunksInBudget(maximum, chunk);
    EqualLengths(Ranges(length, maximum, chunk), chunk);
  }

  /** The byte budget is kept if and only if the tensor fits it whole or the budget holds at least
      one chunk: a single sample is never shortened to the budget. */
  lemma BudgetKeptIff(length: nat, maximum: nat, chunk: nat)
    requires chunk > 0
    ensures TotalBytes(Ranges(length, maximum, chunk)) <= maximum <==> length <= maximum || chunk <= maximum
  {
    ChunksInBudget(maximum, chunk);
    if length > maximum && maximum / chunk >= 2 {
      SeveralSamplesFit(length, maximum, chunk);
    } else {
      var only := Ranges(length, maximum, chunk)[0];
      assert Ranges(length, maximum, chunk) == [only];
      assert TotalBytes([only]) == only.length;
    }
  }

  /** A budget below one chunk: four bytes are read where three were allowed. */
  lemma SmallBudgetOverrun()
    ensures Ranges(10, 3, 4) == [Sample(3, 4)]
  {}
}
