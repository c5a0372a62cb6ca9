/** The NCCL row all-to-all: what each rank posts, why the posts of any two ranks match, and what
    every rank holds once all transfers are done. */
module RowAllToAll {
  import opened Arithmetic

  const SIZE_MAX: nat := 0xFFFF_FFFF_FFFF_FFFF

  /** One peer's send and receive, as posted inside the NCCL group. */
  datatype Post = Post(peer: nat, sendOffset: nat, sendBytes: nat, recvOffset: nat, recvBytes: nat)

  datatype Posted = InvalidShape | BufferTooSmall | Group(posts: seq<Post>)

  function Min(a: nat, b: nat): nat { if a < b then a else b }

  function RowCount(world: nat, rows: nat, p: nat): nat
    requires world > 0
  {
    rows / world + (if p < rows % world then 1 else 0)
  }

  function RowStart(world: nat, rows: nat, p: nat): nat
    requires world > 0
  {
    p * (rows / world) + Min(p, rows % world)
  }

  /** The k-th peer of `rank` in the posting order. */
  function PeerAt(rank: nat, k: nat): nat { if k < rank then k else k + 1 }

  /** Where `peer` stands in the posting order of `rank`. */
  function SlotOf(rank: nat, peer: nat): nat
    requires peer != rank
  {
    if peer < rank then peer else peer - 1
  }

  function MakePost(peer: nat, rowStart: nat, rowCount: nat, slot: nat, localBytes: nat, stride: nat): Post {
    Post(peer, rowStart * stride, rowCount * stride, slot * localBytes, localBytes)
  }

  function ExpectedPost(world: nat, rank: nat, rows: nat, stride: nat, k: nat): Post
    requires world > 0
  {
    var peer := PeerAt(rank, k);
    MakePost(peer, RowStart(world, rows, peer), RowCount(world, rows, peer), k, RowCount(world, rows, rank) * stride,
             stride)
  }

  ghost function ExpectedPosts(world: nat, rank: nat, rows: nat, stride: nat, count: nat): (posts: seq<Post>)
    requires world > 0
    ensures |posts| == count
  {
    if count == 0 then []
    else ExpectedPosts(world, rank, rows, stride, count - 1) + [ExpectedPost(world, rank, rows, stride, count - 1)]
  }

  method PostLoop(world: nat, rank: nat, rows: nat, stride: nat) returns (posts: seq<Post>)
    requires world >= 2 && rank < world
    ensures posts == ExpectedPosts(world, rank, rows, stride, world - 1)
  {
    var localBytes := RowCount(world, rows, rank) * stride;
    var recvIndex := 0;
    posts := [];
    for peer := 0 to world
      invariant recvIndex == (if peer <= rank then peer else peer - 1)
      invariant posts == ExpectedPosts(world, rank, rows, stride, recvIndex)
    {
      if peer != rank {
        var peerRows := RowCount(world, rows, peer);
        var peerRowStart := RowStart(world, rows, peer);
        posts := posts + [MakePost(peer, peerRowStart, peerRows, recvIndex, localBytes, stride)];
        recvIndex := recvIndex + 1;
      }
    }
  }

  lemma DivideBound(rows: nat, stride: nat)
    requires stride > 0
    ensures rows > SIZE_MAX / stride <==> rows * stride > SIZE_MAX
  {
    var q := SIZE_MAX / stride;
    assert (q + 1) * stride == q * stride + stride;
    ScaleOrderIff(q + 1, rows, stride);
    ScaleOrderIff(rows, q, stride);
    assert q * stride <= SIZE_MAX < (q + 1) * stride;
  }

  lemma LocalRowsFit(world: nat, rows: nat, p: nat)
    requires world >= 2
    ensures RowCount(world, rows, p) <= rows
  {
    ScaleOrder(2, world, rows / world);
    assert rows == (rows / world) * world + rows % world;
  }

  /** The checks, then the posting loop, of one rank. Communicators have at least two ranks. */
  method PostRows(world: nat, rank: nat, rows: nat, stride: nat, sendBytes: nat, recvBytes: nat) returns (r: Posted)
    requires world >= 2 && rank < world
    requires sendBytes <= SIZE_MAX && recvBytes <= SIZE_MAX
    ensures r == InvalidShape <==> rows < world || stride == 0 || rows * stride > SIZE_MAX
    ensures r == BufferTooSmall <==>
              && r != InvalidShape
              && (sendBytes < rows * stride || recvBytes < RowCount(world, rows, rank) * stride * (world - 1))
    ensures r.Group? ==>
              r.posts == ExpectedPosts(world, rank, rows, stride, world - 1)
  {
    if stride != 0 {
      DivideBound(rows, stride);
    }
    if rows < world || stride == 0 || rows > SIZE_MAX / stride {
      return InvalidShape;
    }
    var localRows := rows / world + (if rank < rows % world then 1 else 0);
    LocalRowsFit(world, rows, rank);
    ScaleOrder(localRows, rows, stride);
    DivideBound(localRows, stride);
    if localRows > SIZE_MAX / stride {
      assert false; // a share of the rows overflows no earlier than all of them
    }
    var localBytes := localRows * stride;
    var peerCount := world - 1;
    DivideBound(localBytes, peerCount);
    if localBytes > SIZE_MAX / peerCount || sendBytes < rows * stride || recvBytes < localBytes * peerCount {
      return BufferTooSmall;
    }
    var posts := PostLoop(world, rank, rows, stride);
    r := Group(posts);
  }

  lemma {:induction false} ExpectedPostAt(world: nat, rank: nat, rows: nat, stride: nat, count: nat, k: nat)
    requires world > 0 && k < count
    ensures ExpectedPosts(world, rank, rows, stride, count)[k] == ExpectedPost(world, rank, rows, stride, k)
  {
    if k < count - 1 {
      ExpectedPostAt(world, rank, rows, stride, count - 1, k);
    }
  }

  /** The row ranges of neighbouring ranks meet, and the last one ends at the last row. */
  lemma RangesMeet(world: nat, rows: nat, p: nat)
    requires world > 0
    ensures RowStart(world, rows, 0) == 0
    ensures RowStart(world, rows, world) == rows
    ensures RowStart(world, rows, p + 1) == RowStart(world, rows, p) + RowCount(world, rows, p)
  {
    assert rows == world * (rows / world) + rows % world;
    assert (p + 1) * (rows / world) == p * (rows / world) + rows / world;
  }

  lemma {:induction false} StartsAscend(world: nat, rows: nat, p: nat, q: nat)
    requires world > 0 && p <= q
    ensures RowStart(world, rows, p) <= RowStart(world, rows, q)
    ensures p < q ==> RowStart(world, rows, p) + RowCount(world, rows, p) <= RowStart(world, rows, q)
    decreases q
  {
    if p < q {
      RangesMeet(world, rows, q - 1);
      StartsAscend(world, rows, p, q - 1);
    }
  }

  ghost predicate Owns(world: nat, rows: nat, p: nat, row: nat)
    requires world > 0
  {
    RowStart(world, rows, p) <= row < RowStart(world, rows, p) + RowCount(world, rows, p)
  }

  lemma {:induction false} FindOwner(world: nat, rows: nat, row: nat, last: nat) returns (p: nat)
    requires world > 0 && row < RowStart(world, rows, last)
    ensures p < last && Owns(world, rows, p, row)
  {
    RangesMeet(world, rows, 0);
    if last == 0 {
      assert false;
    } else {
      RangesMeet(world, rows, last - 1);
      if RowStart(world, rows, last - 1) <= row {
        p := last - 1;
      } else {
        p := FindOwner(world, rows, row, last - 1);
      }
    }
  }

  /** The ranges partition the rows, and their sizes differ by at most one. */
  lemma RowsPartitioned(world: nat, rows: nat, row: nat)
    requires world > 0
    ensures row < rows <==> exists p: nat :: p < world && Owns(world, rows, p, row)
    ensures forall p: nat, q: nat |
              p < world && q < world && Owns(world, rows, p, row) && Owns(world, rows, q, row) :: p == q
    ensures forall p: nat, q: nat | p < world && q < world :: RowCount(world, rows, p) <= RowCount(world, rows, q) + 1
  {
    RangesMeet(world, rows, 0);
    if row < rows {
      var p := FindOwner(world, rows, row, world);
    }
    forall p: nat | p < world && Owns(world, rows, p, row) ensures row < rows {
      StartsAscend(world, rows, p, world);
    }
    forall p: nat, q: nat | p < world && q < world && Owns(world, rows, p, row) && Owns(world, rows, q, row)
      ensures p == q
    {
      if p < q {
        StartsAscend(world, rows, p, q);
      } else if q < p {
        StartsAscend(world, rows, q, p);
      }
    }
  }

  /** The ranks in front take the extra rows: a share never grows with the rank. */
  lemma SharesNeverGrow(world: nat, rows: nat, p: nat, q: nat)
    requires world > 0 && p <= q
    ensures RowCount(world, rows, q) <= RowCount(world, rows, p)
  {}

  lemma SlotFits(size: nat, k: nat, count: nat)
    requires k < count
    ensures k * size + size <= size * count
  {
    ScaleOrder(k + 1, count, size);
    assert (k + 1) * size == k * size + size;
    assert count * size == size * count;
  }

  /** What `a` posts to send to `b` is exactly what `b` posts to receive from `a`, and both slices
      stay inside their buffers. */
  lemma PostsMatch(world: nat, rows: nat, stride: nat, a: nat, b: nat)
    requires world >= 2 && a < world && b < world && a != b
    ensures var send := ExpectedPost(world, a, rows, stride, SlotOf(a, b));
            var recv := ExpectedPost(world, b, rows, stride, SlotOf(b, a));
            && send.peer == b && recv.peer == a
            && send.sendBytes == recv.recvBytes
            && send.sendOffset + send.sendBytes <= rows * stride
            && recv.recvOffset + recv.recvBytes <= RowCount(world, rows, b) * stride * (world - 1)
  {
    RangesMeet(world, rows, b);
    StartsAscend(world, rows, b, world);
    ScaleOrder(RowStart(world, rows, b) + RowCount(world, rows, b), rows, stride);
    assert (RowStart(world, rows, b) + RowCount(world, rows, b)) * stride
        == RowStart(world, rows, b) * stride + RowCount(world, rows, b) * stride;
    SlotFits(RowCount(world, rows, b) * stride, SlotOf(b, a), world - 1);
  }

  lemma SliceFits(world: nat, rows: nat, stride: nat, d: nat)
    requires world >= 2 && d < world
    ensures RowStart(world, rows, d) * stride + RowCount(world, rows, d) * stride <= rows * stride
  {
    var s := if d == 0 then 1 else 0;
    PostsMatch(world, rows, stride, s, d);
    assert PeerAt(s, SlotOf(s, d)) == d;
  }

  /** The bytes rank `d` should get from a sender: its own row range of that buffer. */
  function Slice<Byte>(world: nat, rows: nat, stride: nat, send: seq<Byte>, d: nat): seq<Byte>
    requires world >= 2 && d < world && |send| >= rows * stride
  {
    SliceFits(world, rows, stride, d);
    send[RowStart(world, rows, d) * stride..RowStart(world, rows, d) * stride + RowCount(world, rows, d) * stride]
  }

  ghost predicate ValidSends<Byte>(world: nat, rows: nat, stride: nat, sends: seq<seq<Byte>>) {
    |sends| == world && forall s | 0 <= s < world :: |sends[s]| >= rows * stride
  }

  /** What `d` should end up with: its slice of every other rank's buffer, in rank order. */
  function OwnSlices<Byte>(world: nat, rows: nat, stride: nat, sends: seq<seq<Byte>>, d: nat): seq<seq<Byte>>
    requires world >= 2 && d < world && ValidSends(world, rows, stride, sends)
  {
    seq(world - 1, k requires 0 <= k < world - 1 => Slice(world, rows, stride, sends[PeerAt(d, k)], d))
  }

  function Flatten<Byte>(parts: seq<seq<Byte>>): seq<Byte> {
    if parts == [] then [] else Flatten(parts[..|parts| - 1]) + parts[|parts| - 1]
  }

  /** Every rank posted its group. */
  ghost predicate AllPosted(world: nat, rows: nat, stride: nat, groups: seq<seq<Post>>) {
    && world >= 2 && |groups| == world
    && forall r | 0 <= r < world :: groups[r] == ExpectedPosts(world, r, rows, stride, world - 1)
  }

  /** Overwrite part of a buffer; a write outside it is lost. */
  function Write<Byte>(buffer: seq<Byte>, offset: nat, bytes: seq<Byte>): (after: seq<Byte>)
    ensures |after| == |buffer|
  {
    if offset + |bytes| <= |buffer| then buffer[..offset] + bytes + buffer[offset + |bytes|..] else buffer
  }

  /** NCCL's part: the receive that `d` posted for its k-th peer takes the bytes of the send that
      this peer posted for `d`. */
  function Received<Byte>(groups: seq<seq<Post>>, sends: seq<seq<Byte>>, d: nat, k: nat): seq<Byte>
    requires d < |groups| == |sends| && k < |groups[d]|
  {
    var peer := groups[d][k].peer;
    if peer >= |groups| || peer == d || SlotOf(peer, d) >= |groups[peer]| then []
    else
      var post := groups[peer][SlotOf(peer, d)];
      if post.sendOffset + post.sendBytes > |sends[peer]| then []
      else sends[peer][post.sendOffset..post.sendOffset + post.sendBytes]
  }

  function Inbox<Byte>(groups: seq<seq<Post>>, sends: seq<seq<Byte>>, d: nat): seq<seq<Byte>>
    requires d < |groups| == |sends|
  {
    seq(|groups[d]|, k requires 0 <= k < |groups[d]| => Received(groups, sends, d, k))
  }

  /** A receive buffer after the messages have been written at the posted offsets. */
  function AfterReceives<Byte>(posts: seq<Post>, messages: seq<seq<Byte>>, buffer: seq<Byte>): seq<Byte>
    requires |posts| == |messages|
    decreases |posts|
  {
    if posts == [] then buffer
    else
      var last := |posts| - 1;
      Write(AfterReceives(posts[..last], messages[..last], buffer), posts[last].recvOffset, messages[last])
  }

  lemma WriteBehind<Byte>(front: seq<Byte>, bytes: seq<Byte>, buffer: seq<Byte>)
    requires |front| + |bytes| <= |buffer|
    ensures Write(front + buffer[|front|..], |front|, bytes) == front + bytes + buffer[|front + bytes|..]
  {
    var before := front + buffer[|front|..];
    assert before[..|front|] == front && before[|front| + |bytes|..] == buffer[|front| + |bytes|..];
  }

  /** Messages written where the earlier ones end leave their concatenation. */
  lemma {:induction false} SlotsConcatenate<Byte>(posts: seq<Post>, messages: seq<seq<Byte>>, buffer: seq<Byte>)
    requires |posts| == |messages|
    requires forall k | 0 <= k < |posts| :: posts[k].recvOffset == |Flatten(messages[..k])|
    requires |Flatten(messages)| <= |buffer|
    ensures AfterReceives(posts, messages, buffer) == Flatten(messages) + buffer[|Flatten(messages)|..]
    decreases |posts|
  {
    hide Write;
    if posts != [] {
      var last := |posts| - 1;
      forall k | 0 <= k < last ensures posts[..last][k].recvOffset == |Flatten(messages[..last][..k])| {
        assert messages[..last][..k] == messages[..k];
      }
      SlotsConcatenate(posts[..last], messages[..last], buffer);
      WriteBehind(Flatten(messages[..last]), messages[last], buffer);
    }
  }

  lemma OneMoreTime(n: nat, size: nat)
    ensures (n + 1) * size == n * size + size
  {}

  lemma {:induction false} FlattenLength<Byte>(parts: seq<seq<Byte>>, size: nat)
    requires forall p | p in parts :: |p| == size
    ensures |Flatten(parts)| == |parts| * size
  {
    if parts != [] {
      FlattenLength(parts[..|parts| - 1], size);
      OneMoreTime(|parts| - 1, size);
    }
  }

  lemma ReceivedIsSlice<Byte>(world: nat, rows: nat, stride: nat, groups: seq<seq<Post>>, sends: seq<seq<Byte>>,
                            d: nat, k: nat)
    requires AllPosted(world, rows, stride, groups) && d < world && k < world - 1
    requires ValidSends(world, rows, stride, sends)
    ensures Received(groups, sends, d, k) == Slice(world, rows, stride, sends[PeerAt(d, k)], d)
  {
    var peer := PeerAt(d, k);
    SliceFits(world, rows, stride, d);
    assert SlotOf(d, peer) == k && PeerAt(peer, SlotOf(peer, d)) == d;
    ExpectedPostAt(world, d, rows, stride, world - 1, k);
    ExpectedPostAt(world, peer, rows, stride, world - 1, SlotOf(peer, d));
  }

  lemma RecvOffsetAt(world: nat, rows: nat, stride: nat, d: nat, k: nat)
    requires world >= 2 && d < world && k < world - 1
    ensures ExpectedPosts(world, d, rows, stride, world - 1)[k].recvOffset == k * (RowCount(world, rows, d) * stride)
  {
    ExpectedPostAt(world, d, rows, stride, world - 1, k);
  }

  /** Equal messages in consecutive slots leave their concatenation. */
  lemma EvenSlotsConcatenate<Byte>(posts: seq<Post>, messages: seq<seq<Byte>>, size: nat, buffer: seq<Byte>)
    requires |posts| == |messages| && |messages| * size <= |buffer|
    requires forall k | 0 <= k < |posts| :: posts[k].recvOffset == k * size
    requires forall m | m in messages :: |m| == size
    ensures |Flatten(messages)| <= |buffer|
    ensures AfterReceives(posts, messages, buffer) == Flatten(messages) + buffer[|Flatten(messages)|..]
  {
    FlattenLength(messages, size);
    forall k | 0 <= k < |posts| ensures posts[k].recvOffset == |Flatten(messages[..k])| {
      FlattenLength(messages[..k], size);
    }
    SlotsConcatenate(posts, messages, buffer);
  }

  lemma SliceLength<Byte>(world: nat, rows: nat, stride: nat, send: seq<Byte>, d: nat)
    requires world >= 2 && d < world && |send| >= rows * stride
    ensures |Slice(world, rows, stride, send, d)| == RowCount(world, rows, d) * stride
  {
    SliceFits(world, rows, stride, d);
  }

  lemma OwnSlicesEven<Byte>(world: nat, rows: nat, stride: nat, sends: seq<seq<Byte>>, d: nat)
    requires world >= 2 && d < world && ValidSends(world, rows, stride, sends)
    ensures forall m | m in OwnSlices(world, rows, stride, sends, d) :: |m| == RowCount(world, rows, d) * stride
  {
    forall m | m in OwnSlices(world, rows, stride, sends, d) ensures |m| == RowCount(world, rows, d) * stride {
      var k :| 0 <= k < world - 1 && m == Slice(world, rows, stride, sends[PeerAt(d, k)], d);
      SliceLength(world, rows, stride, sends[PeerAt(d, k)], d);
    }
  }

  lemma InboxIsOwnSlices<Byte>(world: nat, rows: nat, stride: nat, groups: seq<seq<Post>>, sends: seq<seq<Byte>>,
                               d: nat)
    requires AllPosted(world, rows, stride, groups) && d < world && ValidSends(world, rows, stride, sends)
    ensures Inbox(groups, sends, d) == OwnSlices(world, rows, stride, sends, d)
  {
    forall k | 0 <= k < world - 1
      ensures Inbox(groups, sends, d)[k] == OwnSlices(world, rows, stride, sends, d)[k]
    {
      ReceivedIsSlice(world, rows, stride, groups, sends, d, k);
    }
  }

  /** After the group completes, every rank holds its own row range of every other rank, in rank
      order, and nothing past those slots has changed. */
  lemma EveryRankGathers<Byte>(world: nat, rows: nat, stride: nat, groups: seq<seq<Post>>, sends: seq<seq<Byte>>,
                               d: nat, buffer: seq<Byte>)
    requires AllPosted(world, rows, stride, groups) && d < world && ValidSends(world, rows, stride, sends)
    requires |buffer| >= (world - 1) * (RowCount(world, rows, d) * stride)
    ensures var own := Flatten(OwnSlices(world, rows, stride, sends, d));
            && |own| <= |buffer|
            && AfterReceives(groups[d], Inbox(groups, sends, d), buffer) == own + buffer[|own|..]
  {
    InboxIsOwnSlices(world, rows, stride, groups, sends, d);
    OwnSlicesEven(world, rows, stride, sends, d);
    forall k | 0 <= k < world - 1 ensures groups[d][k].recvOffset == k * (RowCount(world, rows, d) * stride) {
      RecvOffsetAt(world, rows, stride, d, k);
    }
    EvenSlotsConcatenate(groups[d], OwnSlices(world, rows, stride, sends, d), RowCount(world, rows, d) * stride,
                         buffer);
  }

  /** Byte `offset` of block `block` in a buffer of blocks of `size` bytes each. */
  function At(block: nat, size: nat, offset: nat): nat {
    block * size + offset
  }

  lemma {:induction false} FlattenAt<Byte>(parts: seq<seq<Byte>>, size: nat, k: nat, i: nat)
    requires (forall p | p in parts :: |p| == size) && k < |parts| && i < size
    ensures At(k, size, i) < |Flatten(parts)| && Flatten(parts)[At(k, size, i)] == parts[k][i]
  {
    var last := |parts| - 1;
    FlattenLength(parts[..last], size);
    OneMoreTime(last, size);
    if k < last {
      FlattenAt(parts[..last], size, k, i);
    }
  }

  lemma OffsetInRow(row: nat, stride: nat, start: nat, count: nat, j: nat)
    requires start <= row < start + count && j < stride
    ensures start * stride <= row * stride + j < start * stride + count * stride
    ensures row * stride + j - start * stride == (row - start) * stride + j
  {
    OneMoreTime(row, stride);
    ScaleOrder(start, row, stride);
    ScaleOrder(row + 1, start + count, stride);
    assert (start + count) * stride == start * stride + count * stride;
    assert (row - start) * stride == row * stride - start * stride;
  }

  lemma SliceAt<Byte>(world: nat, rows: nat, stride: nat, send: seq<Byte>, d: nat, from: nat, size: nat, at: nat)
    requires world >= 2 && d < world && |send| >= rows * stride
    requires from == RowStart(world, rows, d) * stride && size == RowCount(world, rows, d) * stride
    requires from <= at < from + size
    ensures at < |send| && at - from < |Slice(world, rows, stride, send, d)|
    ensures Slice(world, rows, stride, send, d)[at - from] == send[at]
  {
    hide RowStart, RowCount;
    SliceFits(world, rows, stride, d);
  }

  lemma ByteArrives<Byte>(world: nat, rows: nat, stride: nat, groups: seq<seq<Post>>, sends: seq<seq<Byte>>, d: nat,
                          buffer: seq<Byte>, size: nat, k: nat, i: nat)
    requires AllPosted(world, rows, stride, groups) && ValidSends(world, rows, stride, sends) && d < world
    requires size == RowCount(world, rows, d) * stride && |buffer| >= (world - 1) * size
    requires k < world - 1 && i < size
    ensures var after := AfterReceives(groups[d], Inbox(groups, sends, d), buffer);
            && At(k, size, i) < |after| && i < |Slice(world, rows, stride, sends[PeerAt(d, k)], d)|
            && after[At(k, size, i)] == Slice(world, rows, stride, sends[PeerAt(d, k)], d)[i]
  {
    hide AfterReceives, Inbox, Slice, ExpectedPosts, RowCount, Flatten;
    EveryRankGathers(world, rows, stride, groups, sends, d, buffer);
    OwnSlicesEven(world, rows, stride, sends, d);
    FlattenAt(OwnSlices(world, rows, stride, sends, d), size, k, i);
    SliceLength(world, rows, stride, sends[PeerAt(d, k)], d);
  }

  /** Byte by byte: each row of rank `from` reaches its owner `d`, behind the rows of the ranks before `from` and the
      owner's earlier rows. */
  lemma RowArrives<Byte>(world: nat, rows: nat, stride: nat, groups: seq<seq<Post>>, sends: seq<seq<Byte>>, d: nat,
                         buffer: seq<Byte>, from: nat, row: nat, j: nat)
    requires AllPosted(world, rows, stride, groups) && ValidSends(world, rows, stride, sends)
    requires d < world && from < world && from != d && Owns(world, rows, d, row) && j < stride
    requires |buffer| >= (world - 1) * (RowCount(world, rows, d) * stride)
    ensures var after := AfterReceives(groups[d], Inbox(groups, sends, d), buffer);
            var before := if from < d then from else from - 1;
            var place := At(before, RowCount(world, rows, d) * stride, At(row - RowStart(world, rows, d), stride, j));
            && place < |after| && At(row, stride, j) < |sends[from]|
            && after[place] == sends[from][At(row, stride, j)]
  {
    hide AfterReceives, Inbox, Slice, AllPosted, RowStart, RowCount;
    var start, count := RowStart(world, rows, d), RowCount(world, rows, d);
    OffsetInRow(row, stride, start, count, j);
    SliceAt(world, rows, stride, sends[from], d, start * stride, count * stride, row * stride + j);
    ByteArrives(world, rows, stride, groups, sends, d, buffer, count * stride, SlotOf(d, from),
                (row - start) * stride + j);
  }
}
