/** The payload check of an exported safetensors shard: its header entries, taken in offset
    order, must tile the payload. */
module SafetensorsLayout {
  import opened Sorting

  datatype Entry = Entry(name: string, dtype: string, shape: seq<int>, start: int, end: int)

  const DTYPE_BYTES: map<string, nat> := map[
    "BOOL" := 1, "U8" := 1, "I8" := 1, "F8_E4M3" := 1, "F8_E4M3FN" := 1, "F8_E4M3FNUZ" := 1,
    "F8_E5M2" := 1, "F8_E5M2FNUZ" := 1, "U16" := 2, "I16" := 2, "F16" := 2, "BF16" := 2,
    "U32" := 4, "I32" := 4, "F32" := 4, "U64" := 8, "I64" := 8, "F64" := 8]

  const PREFIX_BYTES := 8
  const MAX_HEADER_BYTES := 0x4000_0000

  function Product(shape: seq<int>): int {
    if shape == [] then 1 else shape[0] * Product(shape[1..])
  }

  /** A shape holds the product of its dimensions: shapes multiply when they are joined, and one dimension counts for
      itself. */
  lemma {:induction false} ProductOfJoined(a: seq<int>, b: seq<int>)
    ensures Product(a + b) == Product(a) * Product(b)
    ensures Product([]) == 1 && forall d :: Product([d]) == d
  {
    if a == [] {
      assert a + b == b;
    } else {
      ProductOfJoined(a[1..], b);
      assert (a + b)[1..] == a[1..] + b;
      assert a[0] * (Product(a[1..]) * Product(b)) == a[0] * Product(a[1..]) * Product(b);
    }
  }

  predicate ValidEntry(e: Entry) {
    && e.dtype in DTYPE_BYTES
    && (forall d | d in e.shape :: d >= 0)
    && 0 <= e.start <= e.end
    && e.end - e.start == Product(e.shape) * DTYPE_BYTES[e.dtype]
  }

  /** `entries`, in this order, concatenate exactly to the bytes from `from` to `to`. */
  predicate Tiles(entries: seq<Entry>, from: int, to: int) {
    if entries == [] then from == to
    else entries[0].start == from && Tiles(entries[1..], entries[0].end, to)
  }

  /** Python compares the (start, end, name) tuples lexicographically. */
  predicate EntryLe(a: Entry, b: Entry) {
    a.start < b.start
    || (a.start == b.start && (a.end < b.end || (a.end == b.end && StringLe(a.name, b.name))))
  }

  /** At most one gibibyte, and inside the file behind the length itself. */
  predicate HeaderLengthOk(headerBytes: int, size: nat): (ok: bool)
    ensures ok <==> 0 < headerBytes <= 1073741824 && 8 + headerBytes <= size
  {
    0 < headerBytes <= (if size - PREFIX_BYTES < MAX_HEADER_BYTES then size - PREFIX_BYTES else MAX_HEADER_BYTES)
  }

  /** A header is a JSON object, so no tensor name occurs twice. */
  ghost predicate DistinctNames(entries: seq<Entry>) {
    forall i, j | 0 <= i < j < |entries| :: entries[i].name != entries[j].name
  }

  /** Some arrangement of the entries concatenates to the whole payload. */
  ghost predicate Tileable(entries: seq<Entry>, payload: int) {
    exists order: seq<Entry> :: multiset(order) == multiset(entries) && Tiles(order, 0, payload)
  }

  /** The entry loop: every entry is checked and recorded under its name. */
  method ReadEntries(entries: seq<Entry>) returns (valid: bool, inventory: map<string, (string, seq<int>)>)
    requires DistinctNames(entries)
    ensures valid <==> forall e | e in entries :: ValidEntry(e)
    ensures valid ==> forall name :: name in inventory <==> exists i :: 0 <= i < |entries| && entries[i].name == name
    ensures valid ==> forall i | 0 <= i < |entries| ::
              entries[i].name in inventory && inventory[entries[i].name] == (entries[i].dtype, entries[i].shape)
  {
    inventory := map[];
    for i := 0 to |entries|
      invariant forall k | 0 <= k < i :: ValidEntry(entries[k])
      invariant forall name :: name in inventory <==> exists k :: 0 <= k < i && entries[k].name == name
      invariant forall k | 0 <= k < i ::
                  entries[k].name in inventory && inventory[entries[k].name] == (entries[k].dtype, entries[k].shape)
    {
      var e := entries[i];
      if !ValidEntry(e) {
        return false, inventory;
      }
      inventory := inventory[e.name := (e.dtype, e.shape)];
    }
    valid := true;
  }

  lemma EntryOrder()
    ensures TotalOrder(EntryLe)
    ensures forall a, b :: EntryLe(a, b) && EntryLe(b, a) ==> a.name == b.name
  {
    StringOrder();
  }

  /** An entry that may precede a tiling may be sorted into it: it only moves past entries that
      are empty and start where it does. */
  lemma {:induction false} InsertTiles(e: Entry, rest: seq<Entry>, to: int)
    requires e.start <= e.end && forall r | r in rest :: r.start <= r.end
    requires Tiles(rest, e.end, to)
    ensures Tiles(Insert(EntryLe, e, rest), e.start, to)
  {
    if rest != [] && !EntryLe(e, rest[0]) {
      InsertTiles(e, rest[1..], to);
    }
  }

  lemma {:induction false} SortTiles(order: seq<Entry>, from: int, to: int)
    requires forall e | e in order :: e.start <= e.end
    requires Tiles(order, from, to)
    ensures Tiles(Sort(EntryLe, order), from, to)
  {
    if order != [] {
      SortTiles(order[1..], order[0].end, to);
      forall r | r in Sort(EntryLe, order[1..]) ensures r in order[1..] {
        InMultiset(r, Sort(EntryLe, order[1..]));
        InMultiset(r, order[1..]);
      }
      InsertTiles(order[0], Sort(EntryLe, order[1..]), to);
    }
  }

  /** Entries with distinct names sort alike from every order. */
  lemma SortedAlike(entries: seq<Entry>, order: seq<Entry>)
    requires DistinctNames(entries) && multiset(order) == multiset(entries)
    ensures Sort(EntryLe, entries) == Sort(EntryLe, order)
  {
    hide Sort, TotalOrder;
    EntryOrder();
    SortSorted(EntryLe, order);
    SortSorted(EntryLe, entries);
    forall e | e in Sort(EntryLe, entries) ensures e in entries {
      InMultiset(e, Sort(EntryLe, entries));
      InMultiset(e, entries);
    }
    SortedUnique(EntryLe, Sort(EntryLe, entries), Sort(EntryLe, order));
  }

  /** A shard can be tiled in some order if and only if the sorted order tiles it. */
  lemma SortedTilesIff(entries: seq<Entry>, payload: int)
    requires DistinctNames(entries) && forall e | e in entries :: ValidEntry(e)
    ensures Tileable(entries, payload) <==> Tiles(Sort(EntryLe, entries), 0, payload)
  {
    hide Sort, Tiles;
    if Tileable(entries, payload) {
      var order :| multiset(order) == multiset(entries) && Tiles(order, 0, payload);
      forall e | e in order ensures ValidEntry(e) {
        InMultiset(e, order);
        InMultiset(e, entries);
      }
      SortTiles(order, 0, payload);
      SortedAlike(entries, order);
    }
  }

  /** The cursor loop over the sorted ranges. */
  method CheckRanges(entries: seq<Entry>, payload: int) returns (contiguous: bool)
    requires DistinctNames(entries) && forall e | e in entries :: ValidEntry(e)
    ensures contiguous <==> Tileable(entries, payload)
  {
    SortedTilesIff(entries, payload);
    var ranges := Sort(EntryLe, entries);
    var cursor := 0;
    for i := 0 to |ranges|
      invariant Tiles(ranges, 0, payload) <==> Tiles(ranges[i..], cursor, payload)
    {
      if ranges[i].start != cursor {
        return false;
      }
      assert ranges[i..][1..] == ranges[i + 1..];
      cursor := ranges[i].end;
    }
    contiguous := cursor == payload;
  }

  /** The header and cursor checks of one shard of `size` bytes. */
  method CheckShard(entries: seq<Entry>, headerBytes: int, size: nat)
    returns (accepted: bool, inventory: map<string, (string, seq<int>)>)
    requires DistinctNames(entries)
    ensures accepted <==>
            && HeaderLengthOk(headerBytes, size)
            && (forall e | e in entries :: ValidEntry(e))
            && Tileable(entries, size - PREFIX_BYTES - headerBytes)
    ensures accepted ==> forall i | 0 <= i < |entries| ::
              entries[i].name in inventory && inventory[entries[i].name] == (entries[i].dtype, entries[i].shape)
  {
    inventory := map[];
    if !HeaderLengthOk(headerBytes, size) {
      return false, inventory;
    }
    accepted, inventory := ReadEntries(entries);
    if !accepted {
      return;
    }
    accepted := CheckRanges(entries, size - PREFIX_BYTES - headerBytes);
  }

  /** How many entries hold the byte at offset `byte`. */
  function Owners(entries: seq<Entry>, byte: int): nat {
    if entries == [] then 0
    else (if entries[0].start <= byte < entries[0].end then 1 else 0) + Owners(entries[1..], byte)
  }

  lemma {:induction false} InsertOwners(e: Entry, rest: seq<Entry>, byte: int)
    ensures Owners(Insert(EntryLe, e, rest), byte) == Owners([e] + rest, byte)
  {
    if rest != [] && !EntryLe(e, rest[0]) {
      InsertOwners(e, rest[1..], byte);
    }
  }

  lemma {:induction false} SortOwners(entries: seq<Entry>, byte: int)
    ensures Owners(Sort(EntryLe, entries), byte) == Owners(entries, byte)
  {
    if entries != [] {
      SortOwners(entries[1..], byte);
      InsertOwners(entries[0], Sort(EntryLe, entries[1..]), byte);
    }
  }

  lemma {:induction false} TilingOwners(order: seq<Entry>, from: int, to: int, byte: int)
    requires forall e | e in order :: e.start <= e.end
    requires Tiles(order, from, to)
    ensures from <= to
    ensures Owners(order, byte) == if from <= byte < to then 1 else 0
  {
    if order != [] {
      TilingOwners(order[1..], order[0].end, to, byte);
    }
  }

  /** In an accepted shard every payload byte belongs to exactly one tensor, and no tensor
      reaches outside the payload. */
  lemma AcceptedBytesHaveOneOwner(entries: seq<Entry>, payload: int, byte: int)
    requires DistinctNames(entries) && forall e | e in entries :: ValidEntry(e)
    requires Tileable(entries, payload)
    ensures Owners(entries, byte) == if 0 <= byte < payload then 1 else 0
  {
    SortedTilesIff(entries, payload);
    SortOwners(entries, byte);
    forall r | r in Sort(EntryLe, entries) ensures r in entries {
      InMultiset(r, Sort(EntryLe, entries));
      InMultiset(r, entries);
    }
    TilingOwners(Sort(EntryLe, entries), 0, payload, byte);
  }
}
