/**
 Laying out nodes in erase blocks, writing files, and reading an image back block by block (mkfs.jffs2.c).
 */
module JffsImages {
  import opened Shift
  import opened Bits
  import opened Format
  import opened JffsNodes
  import opened Compressors

  const MIN_DATA_LEN := 128
  const MAX_SYMLINK := 254
  const MAX_FILE_SIZE := 0xffffffff

  /** An erase block: its bytes, and the nodes in it. */
  datatype Block = Block(bytes: seq<byte>, nodes: seq<Placed>)

  /** How an image is laid out: byte order, erase block size, clean markers, and the checksum. */
  datatype Layout = Layout(o: Order, ebs: nat, marked: bool, cmSize: nat, crc: Crc)

  /** No node but the largest symbolic link is longer: a clean marker and it fit one block. */
  const LARGEST := INODE_SIZE + MAX_SYMLINK

  ghost predicate GoodLayout(L: Layout)
  {
    && L.ebs % 4 == 0 && L.ebs < 0x80000000 && MARKER_SIZE <= L.cmSize < L.ebs && Overhead(L) + LARGEST <= L.ebs
    && L.crc([]) == 0
  }

  /** What the clean marker takes of each block. */
  function Overhead(L: Layout): nat
  {
    if L.marked then Pad4(L.cmSize) else 0
  }

  function Marker(L: Layout): (n: Node)
    requires GoodLayout(L)
    ensures GoodNode(n) && n.CleanMarker? && GoodSums(L.o, L.crc, n) && TotLen(n) == L.cmSize
  {
    CleanMarker(L.cmSize, L.crc(Header(L.o, CleanMarker(L.cmSize, 0))))
  }

  function Concat(blocks: seq<Block>): seq<byte>
  {
    if blocks == [] then [] else Concat(blocks[..|blocks| - 1]) + blocks[|blocks| - 1].bytes
  }

  /** The nodes of a block but for clean markers. */
  function Contents(xs: seq<Placed>): seq<Node>
  {
    if xs == [] then []
    else Contents(xs[..|xs| - 1]) + if xs[|xs| - 1].node.CleanMarker? then [] else [xs[|xs| - 1].node]
  }

  function AllContents(blocks: seq<Block>): seq<Node>
  {
    if blocks == [] then [] else AllContents(blocks[..|blocks| - 1]) + Contents(blocks[|blocks| - 1].nodes)
  }

  /** A block holds its nodes and padding, and begins with a clean marker if there are any. */
  ghost predicate GoodBlock(L: Layout, b: Block)
    requires GoodLayout(L)
  {
    && Tiled(L.o, b.bytes, b.nodes, 0)
    && (forall i :: 0 <= i < |b.nodes| ==> GoodNode(b.nodes[i].node) && GoodSums(L.o, L.crc, b.nodes[i].node))
    && (L.marked ==> b.nodes != [] && b.nodes[0] == Placed(0, Marker(L)))
  }

  /** Good blocks, all of the full size but perhaps the last. */
  ghost predicate Laid(L: Layout, blocks: seq<Block>)
    requires GoodLayout(L)
  {
    && (forall i :: 0 <= i < |blocks| ==> GoodBlock(L, blocks[i]) && 0 < |blocks[i].bytes| <= L.ebs)
    && forall i :: 0 <= i < |blocks| - 1 ==> |blocks[i].bytes| == L.ebs
  }

  /** How much of the current block is used. */
  function Used(L: Layout, blocks: seq<Block>): (r: nat)
    requires L.ebs > 0
    ensures r < L.ebs
  {
    if blocks == [] then 0 else InBlock(|blocks[|blocks| - 1].bytes|, L.ebs)
  }

  /** Where block k starts. */
  function BlockStart(k: nat, ebs: nat): nat
  {
    k * ebs
  }

  lemma StartNext(k: nat, ebs: nat)
    ensures BlockStart(k + 1, ebs) == BlockStart(k, ebs) + ebs && BlockStart(0, ebs) == 0
  {
  }

  lemma InBlockOf(k: nat, ebs: nat, r: nat)
    requires r < ebs
    ensures InBlock(BlockStart(k, ebs) + r, ebs) == r
  {
    DivModUnique(k, ebs, r);
  }

  lemma Divided(n: nat, ebs: nat) returns (k: nat)
    requires ebs > 0
    ensures n == BlockStart(k, ebs) + InBlock(n, ebs)
  {
    k := n / ebs;
  }

  /** The offset of n in its block. */
  function InBlock(n: nat, ebs: nat): (r: nat)
    requires ebs > 0
    ensures r < ebs
  {
    n % ebs
  }

  /** The blocks with s appended to the current one, or to a new one if it is full. */
  function Grow(L: Layout, blocks: seq<Block>, s: seq<byte>, ns: seq<Node>): (r: seq<Block>)
    requires L.ebs > 0
  {
    if s == [] then blocks
    else if Used(L, blocks) == 0 then blocks + [Block(s, PlacedAt(ns, 0))]
    else
      var b := blocks[|blocks| - 1];
      blocks[..|blocks| - 1] + [Block(b.bytes + s, b.nodes + PlacedAt(ns, |b.bytes|))]
  }

  /** At most one node, at place pos. */
  function PlacedAt(ns: seq<Node>, pos: nat): seq<Placed>
  {
    if ns == [] then [] else [Placed(pos, ns[0])]
  }

  lemma ConcatSnoc(blocks: seq<Block>, b: Block)
    ensures Concat(blocks + [b]) == Concat(blocks) + b.bytes
    ensures AllContents(blocks + [b]) == AllContents(blocks) + Contents(b.nodes)
  {
    assert (blocks + [b])[..|blocks|] == blocks;
  }

  lemma LastOf(blocks: seq<Block>)
    requires blocks != []
    ensures blocks == blocks[..|blocks| - 1] + [blocks[|blocks| - 1]]
  {
  }

  lemma ContentsSnoc(xs: seq<Placed>, x: Placed)
    ensures Contents(xs + [x]) == Contents(xs) + if x.node.CleanMarker? then [] else [x.node]
  {
    assert (xs + [x])[..|xs|] == xs;
  }

  /** What is new in a log. */
  function Logged(ns: seq<Node>): seq<Node>
  {
    if ns == [] || ns[0].CleanMarker? then [] else [ns[0]]
  }

  lemma ContentsGrow(xs: seq<Placed>, ns: seq<Node>, pos: nat)
    ensures Contents(xs + PlacedAt(ns, pos)) == Contents(xs) + Logged(ns)
  {
    if ns == [] {
      assert xs + [] == xs;
    } else {
      ContentsSnoc(xs, Placed(pos, ns[0]));
    }
  }

  lemma GrowConcat(L: Layout, blocks: seq<Block>, s: seq<byte>, ns: seq<Node>)
    requires L.ebs > 0 && (s == [] ==> ns == [])
    ensures Concat(Grow(L, blocks, s, ns)) == Concat(blocks) + s
    ensures AllContents(Grow(L, blocks, s, ns)) == AllContents(blocks) + Logged(ns)
  {
    hide Concat, AllContents, Contents, PlacedAt, InBlock;
    if s == [] {
    } else if Used(L, blocks) == 0 {
      ConcatSnoc(blocks, Block(s, PlacedAt(ns, 0)));
      NoContents();
      ContentsGrow([], ns, 0);
      assert [] + PlacedAt(ns, 0) == PlacedAt(ns, 0);
    } else {
      var init, b := blocks[..|blocks| - 1], blocks[|blocks| - 1];
      var b1 := Block(b.bytes + s, b.nodes + PlacedAt(ns, |b.bytes|));
      LastOf(blocks);
      ConcatSnoc(init, b);
      ConcatSnoc(init, b1);
      ContentsGrow(b.nodes, ns, |b.bytes|);
      assert Concat(init) + (b.bytes + s) == Concat(init) + b.bytes + s;
      assert AllContents(init) + (Contents(b.nodes) + Logged(ns)) == AllContents(init) + Contents(b.nodes) + Logged(ns);
    }
  }

  lemma NoContents()
    ensures Contents([]) == []
  {
  }

  /** s may follow: it fits, it is padding or a padded node, and a new block begins with the marker. */
  ghost predicate MayFollow(L: Layout, blocks: seq<Block>, s: seq<byte>, ns: seq<Node>)
    requires GoodLayout(L)
  {
    && Used(L, blocks) + |s| <= L.ebs && |ns| <= 1
    && Tiled(L.o, s, PlacedAt(ns, Used(L, blocks)), Used(L, blocks))
    && (ns != [] ==> s != [] && GoodNode(ns[0]) && GoodSums(L.o, L.crc, ns[0]))
    && (L.marked && Used(L, blocks) == 0 && s != [] ==> ns == [Marker(L)])
  }

  lemma GrowBlock(L: Layout, b: Block, s: seq<byte>, ns: seq<Node>)
    requires GoodLayout(L) && GoodBlock(L, b) && |b.bytes| % 4 == 0 && |ns| <= 1
    requires Tiled(L.o, s, PlacedAt(ns, |b.bytes|), |b.bytes|)
    requires ns != [] ==> GoodNode(ns[0]) && GoodSums(L.o, L.crc, ns[0])
    ensures GoodBlock(L, Block(b.bytes + s, b.nodes + PlacedAt(ns, |b.bytes|)))
  {
    hide Tiled, GoodNode, GoodSums, Marker;
    TiledAppend(L.o, b.bytes, b.nodes, 0, s, PlacedAt(ns, |b.bytes|));
  }

  lemma Remainder(n: nat, ebs: nat)
    requires 0 < n <= ebs
    ensures InBlock(n, ebs) == if n == ebs then 0 else n
  {
  }

  lemma GrowLaid(L: Layout, blocks: seq<Block>, s: seq<byte>, ns: seq<Node>)
    requires GoodLayout(L) && Laid(L, blocks) && MayFollow(L, blocks, s, ns) && Used(L, blocks) % 4 == 0
    ensures Laid(L, Grow(L, blocks, s, ns))
    ensures Used(L, Grow(L, blocks, s, ns)) == if Used(L, blocks) + |s| == L.ebs then 0 else Used(L, blocks) + |s|
  {
    hide Tiled, GoodNode, GoodSums, Marker, GoodBlock;
    if s != [] {
      if Used(L, blocks) == 0 {
        NewBlock(L, s, ns);
        if blocks != [] {
          Remainder(|blocks[|blocks| - 1].bytes|, L.ebs);
        }
        Remainder(|s|, L.ebs);
      } else {
        var b := blocks[|blocks| - 1];
        Remainder(|b.bytes|, L.ebs);
        GrowBlock(L, b, s, ns);
        Remainder(|b.bytes + s|, L.ebs);
      }
    }
  }

  lemma NewBlock(L: Layout, s: seq<byte>, ns: seq<Node>)
    requires GoodLayout(L) && |ns| <= 1 && Tiled(L.o, s, PlacedAt(ns, 0), 0)
    requires ns != [] ==> GoodNode(ns[0]) && GoodSums(L.o, L.crc, ns[0])
    requires L.marked ==> ns == [Marker(L)]
    ensures GoodBlock(L, Block(s, PlacedAt(ns, 0)))
  {
    hide Tiled, GoodNode, GoodSums, Marker;
  }

  lemma {:induction false} ConcatLength(L: Layout, blocks: seq<Block>)
    requires GoodLayout(L) && Laid(L, blocks)
    ensures blocks != [] ==> |Concat(blocks)| == BlockStart(|blocks| - 1, L.ebs) + |blocks[|blocks| - 1].bytes|
    ensures InBlock(|Concat(blocks)|, L.ebs) == Used(L, blocks)
    decreases |blocks|
  {
    hide GoodBlock, BlockStart, InBlock, Used;
    StartNext(0, L.ebs);
    InBlockOf(0, L.ebs, 0);
    if blocks == [] {
      assert Used(L, blocks) == 0 by {
        UsedIs(L, blocks);
      }
    } else {
      var init, last := blocks[..|blocks| - 1], blocks[|blocks| - 1];
      ConcatLength(L, init);
      if init != [] {
        assert init[|init| - 1] == blocks[|blocks| - 2];
        StartNext(|init| - 1, L.ebs);
      }
      UsedIs(L, blocks);
      Remainder(|last.bytes|, L.ebs);
      if |last.bytes| == L.ebs {
        StartNext(|init|, L.ebs);
        InBlockOf(|blocks|, L.ebs, 0);
      } else {
        InBlockOf(|init|, L.ebs, |last.bytes|);
      }
    }
  }

  lemma UsedIs(L: Layout, blocks: seq<Block>)
    requires L.ebs > 0
    ensures Used(L, blocks) == if blocks == [] then 0 else InBlock(|blocks[|blocks| - 1].bytes|, L.ebs)
  {
  }

  // ---------- where the nodes are ----------

  /** x is in s, which starts at base, on a word boundary. */
  ghost predicate Inside(o: Order, s: seq<byte>, base: nat, x: Placed)
  {
    && x.pos % 4 == 0 && base <= x.pos && GoodNode(x.node) && x.pos + TotLen(x.node) <= base + |s|
    && s[x.pos - base..x.pos - base + TotLen(x.node)] == Bytes(o, x.node)
  }

  lemma InsideLater(o: Order, s: seq<byte>, k: nat, base: nat, x: Placed)
    requires k <= |s| && Inside(o, s[k..], base + k, x)
    ensures Inside(o, s, base, x) && base + k <= x.pos
  {
    hide Bytes, GoodNode, TotLen;
    var a, n := x.pos - base, TotLen(x.node);
    SubSlice(s, k, |s| - k, a - k, a - k + n);
    assert s[k..] == s[k..|s|];
  }

  lemma InsideFirst(o: Order, s: seq<byte>, xs: seq<Placed>, base: nat)
    requires NodeFirst(o, s, xs, base) && base % 4 == 0
    ensures xs != [] && Inside(o, s, base, xs[0]) && xs[0].pos + TotLen(xs[0].node) <= base + Size(xs[0])
  {
    hide Bytes, GoodNode, TotLen;
    var k, n := Size(xs[0]), TotLen(xs[0].node);
    assert s[0..n] == s[..k][..n];
  }

  /** Every node of a block starts on a word boundary behind the one before, and ends inside the block. */
  lemma {:induction false} NodesInside(o: Order, s: seq<byte>, xs: seq<Placed>, base: nat, i: nat)
    requires Tiled(o, s, xs, base) && base % 4 == 0 && i < |xs|
    ensures Inside(o, s, base, xs[i])
    ensures i > 0 ==> xs[i - 1].pos + TotLen(xs[i - 1].node) <= xs[i].pos
    decreases |s|
  {
    hide Inside, Starts, TotLen, Size, Fill;
    if PadFirst(s) && Tiled(o, s[4..], xs, base + 4) {
      NodesInside(o, s[4..], xs, base + 4, i);
      InsideLater(o, s, 4, base, xs[i]);
    } else {
      InsideFirst(o, s, xs, base);
      if i > 0 {
        var k := Size(xs[0]);
        FirstFits(o, s, xs, base);
        Sized(xs[0]);
        NodesInside(o, s[k..], xs[1..], base + k, i - 1);
        InsideLater(o, s, k, base, xs[i]);
        if i > 1 {
          assert xs[i - 1] == xs[1..][i - 2];
        }
      }
    }
  }

  lemma FirstFits(o: Order, s: seq<byte>, xs: seq<Placed>, base: nat)
    requires NodeFirst(o, s, xs, base)
    ensures xs != [] && 0 < Size(xs[0]) <= |s|
  {
    hide Bytes, GoodNode, TotLen;
  }

  /** Block k of the image. */
  lemma {:induction false} BlockAt(L: Layout, blocks: seq<Block>, k: nat)
    requires GoodLayout(L) && Laid(L, blocks) && k < |blocks|
    ensures BlockStart(k, L.ebs) + |blocks[k].bytes| <= |Concat(blocks)|
    ensures Concat(blocks)[BlockStart(k, L.ebs)..BlockStart(k, L.ebs) + |blocks[k].bytes|] == blocks[k].bytes
    decreases |blocks|
  {
    hide GoodBlock, BlockStart, InBlock, Used;
    var init, last := blocks[..|blocks| - 1], blocks[|blocks| - 1];
    ConcatLength(L, init);
    StartNext(0, L.ebs);
    if init != [] {
      assert init[|init| - 1] == blocks[|blocks| - 2];
      StartNext(|init| - 1, L.ebs);
    }
    if k == |init| {
      assert Concat(blocks) == Concat(init) + last.bytes;
    } else {
      BlockAt(L, init, k);
      assert init[k] == blocks[k];
      assert Concat(blocks) == Concat(init) + last.bytes;
    }
  }

  /** Every node is in the image on a word boundary inside its erase block, behind the one before it. */
  lemma NodeInImage(L: Layout, blocks: seq<Block>, k: nat, i: nat)
    requires GoodLayout(L) && Laid(L, blocks) && k < |blocks| && i < |blocks[k].nodes|
    ensures var x := blocks[k].nodes[i];
            var at := BlockStart(k, L.ebs) + x.pos;
            && at % 4 == 0 && GoodNode(x.node) && GoodSums(L.o, L.crc, x.node)
            && x.pos + TotLen(x.node) <= L.ebs && at + TotLen(x.node) <= |Concat(blocks)|
            && Concat(blocks)[at..at + TotLen(x.node)] == Bytes(L.o, x.node)
    ensures i > 0 ==> blocks[k].nodes[i - 1].pos + TotLen(blocks[k].nodes[i - 1].node) <= blocks[k].nodes[i].pos
    ensures L.marked ==> blocks[k].nodes[0] == Placed(0, Marker(L))
  {
    hide Bytes, GoodNode, TotLen, GoodSums, Tiled, Concat, Marker, BlockStart;
    var b, x := blocks[k], blocks[k].nodes[i];
    NodesInside(L.o, b.bytes, b.nodes, 0, i);
    BlockAt(L, blocks, k);
    WordsInBlock(k, L.ebs, x.pos);
    SubSlice(Concat(blocks), BlockStart(k, L.ebs), |b.bytes|, x.pos, x.pos + TotLen(x.node));
  }

  lemma WordsInBlock(k: nat, ebs: nat, pos: nat)
    requires ebs % 4 == 0 && pos % 4 == 0
    ensures (BlockStart(k, ebs) + pos) % 4 == 0
  {
    var e := ebs / 4;
    assert BlockStart(k, ebs) == k * (4 * e) == 4 * (k * e);
  }

  // ---------- reading an image ----------

  /** What parse_image sees, block by block. */
  function SeenIn(blocks: seq<Block>): (r: seq<seq<Seen>>)
    ensures |r| == |blocks|
  {
    seq(|blocks|, i requires 0 <= i < |blocks| => AllSeen(blocks[i].nodes))
  }

  function MaxOver(ino: nat, seen: seq<seq<Seen>>): nat
  {
    if seen == [] then ino else MaxIno(MaxOver(ino, seen[..|seen| - 1]), seen[|seen| - 1])
  }

  lemma {:induction false} MaxInoIs(ino: nat, seen: seq<Seen>)
    ensures MaxIno(ino, seen) >= ino && forall i :: 0 <= i < |seen| ==> MaxIno(ino, seen) >= seen[i].ino
    ensures MaxIno(ino, seen) == ino || exists i :: 0 <= i < |seen| && seen[i].ino == MaxIno(ino, seen)
    decreases |seen|
  {
    if seen != [] {
      MaxInoIs(if seen[0].ino > ino then seen[0].ino else ino, seen[1..]);
      assert forall i :: 1 <= i < |seen| ==> seen[i] == seen[1..][i - 1];
    }
  }

  /** The largest number seen anywhere. */
  lemma {:induction false} MaxOverIs(ino: nat, seen: seq<seq<Seen>>)
    ensures MaxOver(ino, seen) >= ino
    ensures forall k, i :: 0 <= k < |seen| && 0 <= i < |seen[k]| ==> MaxOver(ino, seen) >= seen[k][i].ino
    ensures MaxOver(ino, seen) == ino
            || exists k, i :: 0 <= k < |seen| && 0 <= i < |seen[k]| && seen[k][i].ino == MaxOver(ino, seen)
    decreases |seen|
  {
    if seen != [] {
      var init, last := seen[..|seen| - 1], seen[|seen| - 1];
      MaxOverIs(ino, init);
      MaxInoIs(MaxOver(ino, init), last);
    }
  }

  /** After reading an image, the next inode number is behind every number in it, and no larger than it has to be. */
  lemma LargestNumber(blocks: seq<Block>, ino0: nat)
    ensures var m := MaxOver(ino0, SeenIn(blocks));
            && m >= ino0
            && (forall k, i :: 0 <= k < |blocks| && 0 <= i < |blocks[k].nodes| && blocks[k].nodes[i].node.Inode? ==>
                  blocks[k].nodes[i].node.ino <= m)
            && (m == ino0 || exists k, i :: 0 <= k < |blocks| && 0 <= i < |blocks[k].nodes|
                                            && blocks[k].nodes[i].node.Inode? && blocks[k].nodes[i].node.ino == m)
  {
    var seen := SeenIn(blocks);
    MaxOverIs(ino0, seen);
    forall k, i | 0 <= k < |blocks| && 0 <= i < |blocks[k].nodes| && blocks[k].nodes[i].node.Inode?
      ensures blocks[k].nodes[i].node.ino <= MaxOver(ino0, seen)
    {
      assert seen[k][i] == SeenOf(blocks[k].nodes[i]);
    }
    if MaxOver(ino0, seen) != ino0 {
      var k, i :| 0 <= k < |seen| && 0 <= i < |seen[k]| && seen[k][i].ino == MaxOver(ino0, seen);
      assert seen[k][i] == SeenOf(blocks[k].nodes[i]);
    }
  }

  lemma ScanStep(o: Order, s: seq<byte>, n: nat, p: nat)
    requires p < n && Scan(o, s, n, p).Some?
    ensures p + 4 <= |s|
    ensures var magic, nodetype := At16(o, s, p), At16(o, s, p + 2);
            if (magic == 0xffff && nodetype == 0xffff) || magic != MAGIC || Accurate(nodetype) == 0xffff then
              Scan(o, s, n, p) == Scan(o, s, n, p + 4)
            else
              var t := Accurate(nodetype);
              && p + 8 <= |s| && (t == INODE ==> p + 16 <= |s|) && At32(o, s, p + 4) > 0
              && Scan(o, s, n, p + Pad4(At32(o, s, p + 4))).Some?
              && Scan(o, s, n, p) == Some([Seen(p, t, At32(o, s, p + 4), if t == INODE then At32(o, s, p + 12) else 0)]
                                          + Scan(o, s, n, p + Pad4(At32(o, s, p + 4))).value)
  {
    hide At16, At32, Accurate;
  }

  lemma MaxOne(ino: nat, x: Seen, rest: seq<Seen>)
    ensures MaxIno(ino, [x] + rest) == MaxIno(if x.ino > ino then x.ino else ino, rest)
  {
    assert ([x] + rest)[1..] == rest;
  }

  /** The reading of a word does not depend on the bytes before it. */
  lemma SameWords(o: Order, s: seq<byte>, t: seq<byte>, p: nat)
    requires |s| == |t| && p <= |s| && s[p..] == t[p..]
    ensures p + 4 <= |s| ==> At16(o, s, p) == At16(o, t, p) && At16(o, s, p + 2) == At16(o, t, p + 2)
    ensures p + 8 <= |s| ==> At32(o, s, p + 4) == At32(o, t, p + 4)
    ensures p + 16 <= |s| ==> At32(o, s, p + 12) == At32(o, t, p + 12)
  {
    hide R16, R32;
    if p + 4 <= |s| {
      assert s[p..p + 2] == s[p..][..2] && s[p + 2..p + 4] == s[p..][2..4];
      assert t[p..p + 2] == t[p..][..2] && t[p + 2..p + 4] == t[p..][2..4];
    }
    if p + 8 <= |s| {
      assert s[p + 4..p + 8] == s[p..][4..8] && t[p + 4..p + 8] == t[p..][4..8];
    }
    if p + 16 <= |s| {
      assert s[p + 12..p + 16] == s[p..][12..16] && t[p + 12..p + 16] == t[p..][12..16];
    }
  }

  method PutWord(buf: array<byte>, p: nat, w: seq<byte>)
    requires |w| == 2 && p + 2 <= buf.Length
    modifies buf
    ensures buf[p + 2..] == old(buf[p + 2..])
  {
    buf[p], buf[p + 1] := w[0], w[1];
  }

  lemma Behind(t: seq<byte>, s: seq<byte>, p: nat, q: nat)
    requires |t| == |s| && p <= q && p <= |s| && t[p..] == s[p..]
    ensures q <= |s| ==> t[q..] == s[q..]
  {
    if q <= |s| {
      assert t[q..] == t[p..][q - p..] && s[q..] == s[p..][q - p..];
    }
  }

  lemma Rounded(n: nat)
    requires n > 0
    ensures Pad4(n) >= 4
  {
  }

  /**
   process_buffer: visits the nodes in the first inpSize bytes of the buffer and keeps the largest inode number;
   the type of a node is made accurate in place.
   */
  method ProcessBuffer(o: Order, buf: array<byte>, inpSize: nat, ino0: nat) returns (ino: nat, seen: seq<Seen>)
    requires inpSize <= buf.Length && Scan(o, buf[..], inpSize, 0).Some?
    modifies buf
    ensures seen == Scan(o, old(buf[..]), inpSize, 0).value && ino == MaxIno(ino0, seen)
  {
    hide At16, At32, Accurate, Pad4, W16, Scan;
    ghost var s := buf[..];
    var p := 0;
    ino, seen := ino0, [];
    ghost var all := Scan(o, s, inpSize, 0).value;
    assert [] + all == all;
    while p < inpSize
      invariant p <= |s| ==> buf[p..] == s[p..]
      invariant Scan(o, s, inpSize, p).Some? && all == seen + Scan(o, s, inpSize, p).value
      invariant MaxIno(ino0, all) == MaxIno(ino, Scan(o, s, inpSize, p).value)
      decreases inpSize - p
    {
      ScanStep(o, s, inpSize, p);
      SameWords(o, buf[..], s, p);
      var magic, nodetype := At16(o, buf[..], p), At16(o, buf[..], p + 2);
      if (magic == 0xffff && nodetype == 0xffff) || magic != MAGIC || Accurate(nodetype) == 0xffff {
        Behind(buf[..], s, p, p + 4);
        p := p + 4;
      } else {
        var exact := Accurate(nodetype);
        var totlen := At32(o, buf[..], p + 4);
        var n := if exact == INODE then At32(o, buf[..], p + 12) else 0;
        var x := Seen(p, exact, totlen, n);
        ghost var rest := Scan(o, s, inpSize, p + Pad4(totlen)).value;
        MaxOne(ino, x, rest);
        assert seen + ([x] + rest) == seen + [x] + rest;
        if n > ino {
          ino := n;
        }
        seen := seen + [x];
        Rounded(totlen);
        Behind(buf[..], s, p, p + 4);
        PutWord(buf, p + 2, W16(o, exact));
        Behind(buf[..], s, p + 4, p + Pad4(totlen));
        p := p + Pad4(totlen);
      }
    }
    ScanEnd(o, s, inpSize, p);
    assert seen + [] == seen;
  }

  /** A block read into a buffer whose rest is left from before. */
  lemma BlockScan(L: Layout, b: Block, buf: seq<byte>)
    requires GoodLayout(L) && GoodBlock(L, b) && |b.bytes| <= |buf| == L.ebs && buf[..|b.bytes|] == b.bytes
    ensures Scan(L.o, buf, |b.bytes|, 0) == Some(AllSeen(b.nodes))
  {
    hide Tiled, Scan, GoodSums, Marker;
    assert buf[0..|b.bytes|] == b.bytes;
    TiledScan(L.o, buf, |b.bytes|, 0, b.nodes);
  }

  lemma OneMore(blocks: seq<Block>, k: nat, ino: nat)
    requires k < |blocks|
    ensures SeenIn(blocks[..k]) + [AllSeen(blocks[k].nodes)] == SeenIn(blocks[..k + 1])
    ensures MaxOver(ino, SeenIn(blocks[..k + 1])) == MaxIno(MaxOver(ino, SeenIn(blocks[..k])), AllSeen(blocks[k].nodes))
  {
    var a, b := SeenIn(blocks[..k]), SeenIn(blocks[..k + 1]);
    assert b == a + [AllSeen(blocks[k].nodes)];
    assert b[..|b| - 1] == a;
  }

  /** load_next_block: as much as there is, up to an erase block; the rest of the buffer stays. */
  method LoadNextBlock(image: seq<byte>, pos: nat, buf: array<byte>) returns (n: nat)
    requires pos <= |image|
    modifies buf
    ensures n == (if |image| - pos < buf.Length then |image| - pos else buf.Length)
    ensures buf[..n] == image[pos..pos + n]
  {
    n := if |image| - pos < buf.Length then |image| - pos else buf.Length;
    forall i | 0 <= i < n {
      buf[i] := image[pos + i];
    }
  }

  /** Where parse_image is when it has read k blocks. */
  function ReadUpTo(L: Layout, blocks: seq<Block>, k: nat): nat
  {
    if k >= |blocks| then |Concat(blocks)| else BlockStart(k, L.ebs)
  }

  lemma LoadIs(L: Layout, blocks: seq<Block>, k: nat)
    requires GoodLayout(L) && Laid(L, blocks) && k <= |blocks|
    ensures var at, all := ReadUpTo(L, blocks, k), |Concat(blocks)|;
            && at <= all && (at == all <==> k == |blocks|)
            && (k < |blocks| ==>
                  var n := if all - at < L.ebs then all - at else L.ebs;
                  && GoodBlock(L, blocks[k]) && n == |blocks[k].bytes| && Concat(blocks)[at..at + n] == blocks[k].bytes
                  && at + n == ReadUpTo(L, blocks, k + 1))
  {
    hide GoodBlock, Concat, BlockStart, InBlock, Used;
    if k < |blocks| {
      BlockAt(L, blocks, k);
      ConcatLength(L, blocks);
      StartNext(k, L.ebs);
      if k + 1 < |blocks| {
        BlockAt(L, blocks, k + 1);
      }
    }
  }

  lemma NothingSeen(blocks: seq<Block>, ino: nat)
    ensures SeenIn(blocks[..0]) == [] && MaxOver(ino, []) == ino
  {
  }

  lemma StartsAt(L: Layout, blocks: seq<Block>)
    ensures ReadUpTo(L, blocks, 0) == 0
  {
    if blocks == [] {
      assert Concat(blocks) == [];
    }
  }

  /** parse_image sees the nodes of every block, and nothing else; ino becomes the largest inode number. */
  method ParseImage(L: Layout, image: seq<byte>, ino0: nat, ghost blocks: seq<Block>)
    returns (ino: nat, seen: seq<seq<Seen>>)
    requires GoodLayout(L) && Laid(L, blocks) && image == Concat(blocks)
    ensures seen == SeenIn(blocks) && ino == MaxOver(ino0, seen)
  {
    hide GoodBlock, Laid, Concat, AllSeen, Scan, MaxIno, MaxOver, ReadUpTo, SeenIn;
    var buf := new byte[L.ebs];
    ino, seen := ino0, [];
    var pos := 0;
    ghost var k := 0;
    var n := 1;
    NothingSeen(blocks, ino0);
    StartsAt(L, blocks);
    while n != 0
      invariant k <= |blocks| && (n == 0 ==> k == |blocks|)
      invariant pos == ReadUpTo(L, blocks, k)
      invariant seen == SeenIn(blocks[..k]) && ino == MaxOver(ino0, seen)
      decreases |blocks| - k, n
    {
      LoadIs(L, blocks, k);
      n := LoadNextBlock(image, pos, buf);
      if n != 0 {
        BlockScan(L, blocks[k], buf[..]);
        var more;
        ino, more := ProcessBuffer(L.o, buf, n, ino);
        OneMore(blocks, k, ino0);
        seen := seen + [more];
        pos, k := pos + n, k + 1;
      }
    }
    assert blocks[..k] == blocks;
  }

  // ---------- writing an image ----------

  /** The entry of a file in its directory. */
  datatype Entry = Entry(name: seq<byte>, pino: U32, mtime: U32, kind: byte)

  /** The directory entry with its checksums. */
  function DirentFor(L: Layout, e: Entry, version: U32, ino: U32): (n: Node)
    requires |e.name| < 256
    ensures GoodNode(n) && n.Dirent? && GoodSums(L.o, L.crc, n) && TotLen(n) == DIRENT_SIZE + |e.name|
    ensures n.pino == e.pino && n.version == version && n.ino == ino && n.name == e.name && n.kind == e.kind
  {
    var data := L.crc(e.name);
    var n0 := Dirent(e.pino, version, ino, e.mtime, e.kind, e.name, Sums(0, 0, data));
    var hdr := L.crc(Header(L.o, n0));
    var n1 := Dirent(e.pino, version, ino, e.mtime, e.kind, e.name, Sums(hdr, 0, data));
    assert Header(L.o, n1) == Header(L.o, n0);
    var n2 := Dirent(e.pino, version, ino, e.mtime, e.kind, e.name,
                     Sums(hdr, L.crc(Header(L.o, n1) + Fields(L.o, n1)), data));
    assert Header(L.o, n2) == Header(L.o, n0) && Fields(L.o, n2) == Fields(L.o, n1);
    n2
  }

  predicate GoodAttrs(a: Attrs)
  {
    |a.owner| == 8 && |a.times| == 12
  }

  /** An inode node with its checksums. */
  function InodeFor(L: Layout, ino: U32, version: U32, attrs: Attrs, offset: U32, compr: byte, dsize: U32,
                    data: seq<byte>): (n: Node)
    requires GoodAttrs(attrs) && INODE_SIZE + |data| < 0x80000000
    ensures GoodNode(n) && n.Inode? && GoodSums(L.o, L.crc, n) && TotLen(n) == INODE_SIZE + |data|
    ensures n.ino == ino && n.version == version && n.attrs == attrs && n.offset == offset
    ensures n.compr == compr && n.dsize == dsize && n.data == data
  {
    var crc := L.crc(data);
    var n0 := Inode(ino, version, attrs, offset, compr, dsize, data, Sums(0, 0, crc));
    var hdr := L.crc(Header(L.o, n0));
    var n1 := Inode(ino, version, attrs, offset, compr, dsize, data, Sums(hdr, 0, crc));
    assert Header(L.o, n1) == Header(L.o, n0);
    var n2 := Inode(ino, version, attrs, offset, compr, dsize, data,
                    Sums(hdr, L.crc(Header(L.o, n1) + Fields(L.o, n1)), crc));
    assert Header(L.o, n2) == Header(L.o, n0) && Fields(L.o, n2) == Fields(L.o, n1);
    n2
  }

  // ---------- the data of a file ----------

  /** The node's data unpacks to this piece. */
  ghost predicate Unpacks(list: seq<Compressor>, compr: byte, data: seq<byte>, piece: seq<byte>)
  {
    if compr == COMPR_NONE then data == piece
    else exists c :: c in list && c.compr == compr && c.decompress(data, |piece|) == piece
  }

  /** Node i of a file: its number, its version, and its piece of the content, packed. */
  ghost predicate DataNode(list: seq<Compressor>, n: Node, ino: U32, version: nat, attrs: Attrs, content: seq<byte>)
  {
    && n.Inode? && n.ino == ino && n.version == version && n.attrs == attrs && n.offset + n.dsize <= |content|
    && Unpacks(list, n.compr, n.data, content[n.offset..n.offset + n.dsize])
  }

  /** Where the pieces of these nodes end. */
  function EndOf(nodes: seq<Node>): nat
  {
    if nodes == [] || !nodes[|nodes| - 1].Inode? then 0
    else nodes[|nodes| - 1].offset + nodes[|nodes| - 1].dsize
  }

  /** Nodes with versions 1..n whose pieces tile the content from its start, without gap and overlap. */
  ghost predicate FileNodes(list: seq<Compressor>, nodes: seq<Node>, ino: U32, attrs: Attrs, content: seq<byte>)
  {
    forall i :: 0 <= i < |nodes| ==>
      DataNode(list, nodes[i], ino, i + 1, attrs, content) && nodes[i].offset == EndOf(nodes[..i])
  }

  lemma FileNodesSnoc(list: seq<Compressor>, nodes: seq<Node>, n: Node, ino: U32, attrs: Attrs, content: seq<byte>)
    requires FileNodes(list, nodes, ino, attrs, content)
    requires DataNode(list, n, ino, |nodes| + 1, attrs, content) && n.offset == EndOf(nodes)
    ensures FileNodes(list, nodes + [n], ino, attrs, content) && EndOf(nodes + [n]) == EndOf(nodes) + n.dsize
  {
    hide Unpacks, EndOf;
    var l1 := nodes + [n];
    forall i | 0 <= i < |l1|
      ensures DataNode(list, l1[i], ino, i + 1, attrs, content) && l1[i].offset == EndOf(l1[..i])
    {
      if i < |nodes| {
        assert l1[..i] == nodes[..i];
      } else {
        assert l1[..i] == nodes;
      }
    }
    EndSnoc(nodes, n);
  }

  lemma EndSnoc(nodes: seq<Node>, n: Node)
    requires n.Inode?
    ensures EndOf(nodes + [n]) == n.offset + n.dsize
  {
  }

  /** Every compressor has its own number. */
  ghost predicate Distinct(list: seq<Compressor>)
  {
    forall c, d :: c in list && d in list && c.compr == d.compr ==> c.decompress == d.decompress
  }

  /** What a reader makes of a node's data. */
  ghost function Unpacked(list: seq<Compressor>, n: Node): seq<byte>
    requires n.Inode?
  {
    if n.compr == COMPR_NONE then n.data
    else if exists c :: c in list && c.compr == n.compr then
      var c :| c in list && c.compr == n.compr;
      c.decompress(n.data, n.dsize)
    else []
  }

  ghost function ReadBack(list: seq<Compressor>, nodes: seq<Node>): seq<byte>
    requires forall n :: n in nodes ==> n.Inode?
  {
    if nodes == [] then []
    else ReadBack(list, nodes[..|nodes| - 1]) + Unpacked(list, nodes[|nodes| - 1])
  }

  lemma UnpackedIs(list: seq<Compressor>, n: Node, piece: seq<byte>)
    requires Distinct(list) && n.Inode? && Unpacks(list, n.compr, n.data, piece) && |piece| == n.dsize
    ensures Unpacked(list, n) == piece
  {
  }

  /** Unpacking the nodes of a file in the order of their versions gives its content back. */
  lemma {:induction false} FileRoundTrip(list: seq<Compressor>, nodes: seq<Node>, ino: U32, attrs: Attrs,
                                         content: seq<byte>)
    requires Distinct(list) && FileNodes(list, nodes, ino, attrs, content)
    ensures (forall n :: n in nodes ==> n.Inode?) && EndOf(nodes) <= |content|
    ensures ReadBack(list, nodes) == content[..EndOf(nodes)]
    decreases |nodes|
  {
    hide Unpacks, Unpacked, Distinct;
    if nodes != [] {
      var init, n := nodes[..|nodes| - 1], nodes[|nodes| - 1];
      forall i | 0 <= i < |init|
        ensures init[..i] == nodes[..i] && init[i] == nodes[i]
      {
      }
      FileRoundTrip(list, init, ino, attrs, content);
      UnpackedIs(list, n, content[n.offset..n.offset + n.dsize]);
      assert content[..EndOf(init)] + content[n.offset..n.offset + n.dsize] == content[..n.offset + n.dsize];
    }
  }

  // ---------- padding ----------

  /** The padding to a multiple of m. */
  function Missing(n: nat, m: nat): (k: nat)
    requires m > 0
    ensures k < m
  {
    if InBlock(n, m) == 0 then 0 else m - InBlock(n, m)
  }

  lemma MissingIs(n: nat, m: nat, j: nat)
    requires m > 0 && j <= Missing(n, m)
    ensures InBlock(n + j, m) == if j == Missing(n, m) then 0 else InBlock(n, m) + j
  {
    var q, r := n / m, n % m;
    assert n == q * m + r;
    if r + j == m {
      assert n + j == (q + 1) * m;
      DivModUnique(q + 1, m, 0);
    } else if r == 0 {
      DivModUnique(q, m, 0);
    } else {
      DivModUnique(q, m, r + j);
    }
  }

  lemma FillFill(a: nat, b: nat)
    ensures Fill(a) + Fill(b) == Fill(a + b)
  {
  }

  lemma PadIs(s: seq<byte>, at: nat)
    requires at % 4 == 0
    ensures s + Fill(Missing(at + |s|, 4)) == Padded(s)
  {
    MissingWord(at, |s|);
  }

  lemma MissingWord(at: nat, n: nat)
    requires at % 4 == 0
    ensures Missing(at + n, 4) == Pad4(n) - n
  {
    var q, r := n / 4, n % 4;
    assert (at + n) % 4 == r;
    assert Pad4(n) == if r == 0 then 4 * q else 4 * q + 4;
  }

  // ---------- what may be written next ----------

  lemma FollowIs(L: Layout, blocks: seq<Block>, s: seq<byte>, ns: seq<Node>)
    requires GoodLayout(L) && MayFollow(L, blocks, s, ns)
    ensures s == [] ==> ns == []
  {
    hide Tiled, GoodSums, GoodNode;
  }

  lemma FillFollows(L: Layout, blocks: seq<Block>, k: nat)
    requires GoodLayout(L) && Used(L, blocks) + k <= L.ebs && (L.marked && k > 0 ==> Used(L, blocks) > 0)
    ensures MayFollow(L, blocks, Fill(k), [])
  {
    hide Tiled, Used;
    TiledFill(L.o, k, Used(L, blocks));
  }

  lemma NodeFollows(L: Layout, blocks: seq<Block>, n: Node)
    requires GoodLayout(L) && GoodNode(n) && GoodSums(L.o, L.crc, n) && Used(L, blocks) + TotLen(n) <= L.ebs
    requires Used(L, blocks) % 4 == 0 && (L.marked && Used(L, blocks) == 0 ==> n == Marker(L))
    ensures MayFollow(L, blocks, Padded(Bytes(L.o, n)), [n])
  {
    hide Tiled, Used, Bytes, GoodSums, GoodNode, Marker;
    Something(n);
    TiledOne(L.o, n, Used(L, blocks));
  }

  lemma WordOf(n: nat, ebs: nat)
    requires ebs > 0 && ebs % 4 == 0 && InBlock(n, ebs) % 4 == 0
    ensures n % 4 == 0
  {
    hide BlockStart, InBlock;
    var k := Divided(n, ebs);
    WordsInBlock(k, ebs, InBlock(n, ebs));
  }

  lemma PadOf(n: nat)
    ensures n <= Pad4(n)
  {
  }

  lemma PayloadOfMarker(n: Node)
    requires GoodNode(n) && n.CleanMarker?
    ensures n.totlen >= MARKER_SIZE && Payload(n) == Fill(n.totlen - MARKER_SIZE)
  {
  }

  lemma PieceIs(content: seq<byte>, offset: nat, len: nat, k: nat)
    requires k <= len && offset + len <= |content|
    ensures content[offset..offset + len][..k] == content[offset..offset + k]
    ensures content[offset..offset + len][k..] == content[offset + k..offset + len]
  {
  }

  lemma LogGrows(log: seq<Node>, nodes: seq<Node>, k: nat, n: Node)
    requires k <= |nodes|
    ensures log + (nodes + [n])[k..] == log + nodes[k..] + [n]
  {
    assert (nodes + [n])[k..] == nodes[k..] + [n];
  }

  /** The blocks with k bytes of padding, over as many blocks as it takes. */
  function FillUp(L: Layout, blocks: seq<Block>, k: nat): seq<Block>
    requires L.ebs > 0
    decreases k
  {
    if k == 0 then blocks
    else
      var step := if k < L.ebs - Used(L, blocks) then k else L.ebs - Used(L, blocks);
      FillUp(L, Grow(L, blocks, Fill(step), []), k - step)
  }

  lemma {:induction false} FillUpIs(L: Layout, blocks: seq<Block>, k: nat)
    requires GoodLayout(L) && !L.marked && Laid(L, blocks) && Used(L, blocks) % 4 == 0
    ensures Laid(L, FillUp(L, blocks, k)) && Concat(FillUp(L, blocks, k)) == Concat(blocks) + Fill(k)
    ensures AllContents(FillUp(L, blocks, k)) == AllContents(blocks)
    decreases k
  {
    hide Laid, Concat, AllContents, Used, MayFollow, Grow;
    if k == 0 {
      assert Concat(blocks) + Fill(0) == Concat(blocks);
    } else {
      var step := if k < L.ebs - Used(L, blocks) then k else L.ebs - Used(L, blocks);
      var more := Grow(L, blocks, Fill(step), []);
      FillFollows(L, blocks, step);
      GrowConcat(L, blocks, Fill(step), []);
      GrowLaid(L, blocks, Fill(step), []);
      assert AllContents(blocks) + [] == AllContents(blocks);
      if step == k {
        assert FillUp(L, more, 0) == more;
      } else {
        FillUpIs(L, more, k - step);
        FillFill(step, k - step);
        assert Concat(blocks) + Fill(step) + Fill(k - step) == Concat(blocks) + (Fill(step) + Fill(k - step));
      }
    }
  }

  lemma ChosenUnpacks(reg: Registry, data: seq<byte>, room: nat, r: Choice)
    requires 0 < r.slen <= |data| && (r.compr == COMPR_NONE ==> r.slen == room && r.page == data[..room])
    requires r.compr != COMPR_NONE ==> exists k :: 0 <= k < |reg.list| && reg.Chosen(k, data, room, r)
    ensures Unpacks(reg.list, r.compr, r.page, data[..r.slen])
  {
    if r.compr != COMPR_NONE {
      var k :| 0 <= k < |reg.list| && reg.Chosen(k, data, room, r);
      assert reg.list[k] in reg.list;
    }
  }

  class Image {
    const L: Layout
    var out: seq<byte>
    var outOfs: nat
    var ino: U32
    /** The version of the next directory entry. */
    var version: U32
    ghost var blocks: seq<Block>

    /** What has been written is laid out in good blocks. */
    ghost predicate Valid()
      reads this
    {
      GoodLayout(L) && outOfs == |out| && out == Concat(blocks) && Laid(L, blocks)
    }

    ghost predicate Aligned()
      reads this
    {
      Valid() && Used(L, blocks) % 4 == 0
    }

    /** The nodes written so far, in order. */
    ghost function Log(): seq<Node>
      reads this
    {
      AllContents(blocks)
    }

    constructor (L: Layout, ino: U32)
      requires GoodLayout(L)
      ensures this.L == L && Aligned() && Log() == [] && out == [] && version == 0
               && this.ino == if ino == 0 then 1 else ino
    {
      this.L := L;
      out, outOfs, version, blocks := [], 0, 0, [];
      this.ino := if ino == 0 then 1 else ino;
    }

    method FullWrite(buf: seq<byte>)
      modifies `out, `outOfs
      ensures out == old(out) + buf && outOfs == old(outOfs) + |buf|
    {
      out, outOfs := out + buf, outOfs + |buf|;
    }

    method Pad(req: nat)
      modifies `out, `outOfs
      ensures out == old(out) + Fill(req) && outOfs == old(outOfs) + req
    {
      ghost var out0 := out;
      var left := req;
      assert out0 + Fill(0) == out0;
      while left > 0
        invariant 0 <= left <= req && out == out0 + Fill(req - left) && outOfs == old(outOfs) + (req - left)
      {
        var k := if left > 16 then 16 else left;
        FillFill(req - left, k);
        assert out0 + Fill(req - left) + Fill(k) == out0 + (Fill(req - left) + Fill(k));
        FullWrite(Fill(k));
        left := left - k;
      }
    }

    method PadWord()
      modifies `out, `outOfs
      ensures out == old(out) + Fill(Missing(old(outOfs), 4)) && outOfs == old(outOfs) + Missing(old(outOfs), 4)
    {
      if InBlock(outOfs, 4) != 0 {
        FullWrite(Fill(4 - InBlock(outOfs, 4)));
      } else {
        assert Fill(0) == [];
      }
    }

    /** padblock as a loop over the file. */
    method PadToBlock()
      requires L.ebs > 0
      modifies `out, `outOfs
      ensures out == old(out) + Fill(Missing(old(outOfs), L.ebs)) && outOfs == old(outOfs) + Missing(old(outOfs), L.ebs)
    {
      ghost var out0, n, all := out, outOfs, Missing(outOfs, L.ebs);
      ghost var j := 0;
      assert out0 + Fill(0) == out0;
      MissingIs(n, L.ebs, 0);
      while InBlock(outOfs, L.ebs) != 0
        invariant j <= all && out == out0 + Fill(j) && outOfs == n + j
        invariant InBlock(outOfs, L.ebs) == if j == all then 0 else InBlock(n, L.ebs) + j
        decreases all - j
      {
        var left := L.ebs - InBlock(outOfs, L.ebs);
        var k := if left < 16 then left else 16;
        FillFill(j, k);
        assert out0 + Fill(j) + Fill(k) == out0 + (Fill(j) + Fill(k));
        assert InBlock(n, L.ebs) + all == L.ebs;
        FullWrite(Fill(k));
        j := j + k;
        MissingIs(n, L.ebs, j);
      }
    }

    /** Notes what has been written. */
    ghost method Grown(s: seq<byte>, ns: seq<Node>)
      requires GoodLayout(L) && Laid(L, blocks) && out == Concat(blocks) + s && outOfs == |out|
      requires MayFollow(L, blocks, s, ns) && Used(L, blocks) % 4 == 0
      modifies `blocks
      ensures Valid() && Log() == old(Log()) + Logged(ns)
      ensures Used(L, blocks) == if old(Used(L, blocks)) + |s| == L.ebs then 0 else old(Used(L, blocks)) + |s|
    {
      hide Laid, MayFollow, Concat, AllContents, Used;
      FollowIs(L, blocks, s, ns);
      GrowConcat(L, blocks, s, ns);
      GrowLaid(L, blocks, s, ns);
      blocks := Grow(L, blocks, s, ns);
    }

    /** padblock. */
    method PadBlock()
      requires Aligned()
      modifies `out, `outOfs, `blocks
      ensures Aligned() && Log() == old(Log()) && Used(L, blocks) == 0 && InBlock(outOfs, L.ebs) == 0
      ensures old(outOfs) <= outOfs
    {
      hide Laid, Concat, AllContents, Used, MayFollow;
      ConcatLength(L, blocks);
      ghost var k := Missing(outOfs, L.ebs);
      MissingIs(outOfs, L.ebs, k);
      MissingIs(outOfs, L.ebs, 0);
      FillFollows(L, blocks, k);
      PadToBlock();
      Grown(Fill(k), []);
      assert Log() + [] == Log();
    }

    /** The clean marker at the start of a block. */
    method PutMarker()
      requires Aligned() && L.marked && Used(L, blocks) == 0
      modifies `out, `outOfs, `blocks
      ensures Aligned() && Log() == old(Log()) && Used(L, blocks) == Overhead(L) && old(outOfs) < outOfs
    {
      hide Laid, Concat, AllContents, Used, MayFollow, Bytes, Struct, GoodSums, Pad4;
      var n := Marker(L);
      PutBytes(n);
    }

    /** The structure, what follows it, and the padding to a word. */
    method Emit(n: Node)
      requires GoodNode(n) && outOfs % 4 == 0
      modifies `out, `outOfs
      ensures out == old(out) + Padded(Bytes(L.o, n)) && outOfs == old(outOfs) + Pad4(TotLen(n))
    {
      hide Struct, Payload, GoodNode, TotLen, Fill;
      ghost var out0 := out;
      FullWrite(Struct(L.o, n));
      if n.CleanMarker? {
        PayloadOfMarker(n);
        Pad(n.totlen - MARKER_SIZE);
      } else {
        FullWrite(Payload(n));
      }
      assert out == out0 + Bytes(L.o, n);
      PadIs(Bytes(L.o, n), old(outOfs));
      PadWord();
    }

    /** A node, noted. */
    method PutBytes(n: Node)
      requires Aligned() && GoodNode(n) && GoodSums(L.o, L.crc, n) && Used(L, blocks) + TotLen(n) <= L.ebs
      requires L.marked && Used(L, blocks) == 0 ==> n == Marker(L)
      modifies `out, `outOfs, `blocks
      ensures Aligned() && Log() == old(Log()) + Logged([n]) && old(outOfs) < outOfs
      ensures Used(L, blocks) == if old(Used(L, blocks)) + Pad4(TotLen(n)) == L.ebs then 0
               else old(Used(L, blocks)) + Pad4(TotLen(n))
    {
      hide Laid, Concat, AllContents, Used, MayFollow, Struct, Payload, Fill, InBlock, GoodSums, GoodNode, TotLen,
           Logged, Marker;
      ConcatLength(L, blocks);
      WordOf(outOfs, L.ebs);
      NodeFollows(L, blocks, n);
      Something(n);
      Emit(n);
      Grown(Padded(Bytes(L.o, n)), [n]);
    }

    /** pad_block_if_less_than: afterwards the request fits the current block, behind its clean marker. */
    method PadBlockIfLessThan(req: nat)
      requires Aligned() && 0 < req <= LARGEST
      modifies `out, `outOfs, `blocks
      ensures Aligned() && Log() == old(Log()) && Used(L, blocks) + req <= L.ebs && (L.marked ==> Used(L, blocks) > 0)
    {
      hide Laid, Concat, AllContents, Used, Pad4;
      PadOf(L.cmSize);
      ConcatLength(L, blocks);
      if L.marked && InBlock(outOfs, L.ebs) == 0 {
        PutMarker();
        ConcatLength(L, blocks);
      }
      if InBlock(outOfs, L.ebs) + req > L.ebs {
        PadBlock();
        ConcatLength(L, blocks);
      }
      if L.marked && InBlock(outOfs, L.ebs) == 0 {
        PutMarker();
      }
    }

    /** A node where there is room for it. */
    method PutNode(n: Node)
      requires Aligned() && GoodNode(n) && GoodSums(L.o, L.crc, n) && !n.CleanMarker?
      requires Used(L, blocks) + TotLen(n) <= L.ebs && (L.marked ==> Used(L, blocks) > 0)
      modifies `out, `outOfs, `blocks
      ensures Aligned() && Log() == old(Log()) + [n]
    {
      hide Laid, Concat, AllContents, Used, GoodNode, GoodSums, TotLen;
      PutBytes(n);
    }

    /** write_dirent. */
    method WriteDirent(e: Entry, number: U32)
      requires Aligned() && |e.name| < 256
      modifies `out, `outOfs, `blocks, `version
      ensures Aligned() && Log() == old(Log()) + [DirentFor(L, e, old(version), number)]
      ensures version == (old(version) + 1) % 0x100000000
    {
      hide Laid, Concat, AllContents, Used, GoodNode, GoodSums;
      var n := DirentFor(L, e, version, number);
      version := (version + 1) % 0x100000000;
      PadBlockIfLessThan(DIRENT_SIZE + |e.name|);
      PutNode(n);
    }

    /** write_pipe, write_special_file and the end of write_symlink: a directory entry and one node. */
    method WriteSingle(e: Entry, attrs: Attrs, data: seq<byte>)
      requires Aligned() && |e.name| < 256 && GoodAttrs(attrs) && |data| <= MAX_SYMLINK && ino < 0xffffffff
      modifies `out, `outOfs, `blocks, `version, `ino
      ensures Aligned() && ino == old(ino) + 1
      ensures Log() == old(Log()) + [DirentFor(L, e, old(version), ino),
               InodeFor(L, ino, 1, attrs, 0, COMPR_NONE, |data|, data)]
    {
      hide Laid, Concat, AllContents, Used, GoodNode, GoodSums;
      ino := ino + 1;
      WriteDirent(e, ino);
      var n := InodeFor(L, ino, 1, attrs, 0, COMPR_NONE, |data|, data);
      PadBlockIfLessThan(INODE_SIZE + |data|);
      PutNode(n);
      assert old(Log()) + [DirentFor(L, e, old(version), ino)] + [n] == old(Log())
          + [DirentFor(L, e, old(version), ino), n];
    }

    /** write_symlink: a link that is too long is cut off. */
    method WriteSymlink(e: Entry, attrs: Attrs, link: seq<byte>)
      requires Aligned() && |e.name| < 256 && GoodAttrs(attrs) && ino < 0xffffffff
      modifies `out, `outOfs, `blocks, `version, `ino
      ensures Aligned() && ino == old(ino) + 1
      ensures var data := if |link| > MAX_SYMLINK then link[..MAX_SYMLINK] else link;
              Log() == old(Log()) + [DirentFor(L, e, old(version), ino),
                                     InodeFor(L, ino, 1, attrs, 0, COMPR_NONE, |data|, data)]
    {
      hide Valid, Log, GoodAttrs;
      var len := |link|;
      if len > MAX_SYMLINK {
        len := MAX_SYMLINK;
      }
      assert |link| <= MAX_SYMLINK ==> link[..len] == link;
      WriteSingle(e, attrs, link[..len]);
    }

    /** One turn of the inner loop of write_regular_file: a node for as many of the bytes as the block has room for. */
    method WriteNode(reg: Registry, tbuf: seq<byte>, attrs: Attrs, ver: U32, offset: U32)
      returns (dsize: nat, ghost n: Node)
      requires Aligned() && reg.Valid() && GoodAttrs(attrs) && 0 < |tbuf| < 0xffffffff
      modifies `out, `outOfs, `blocks, reg`noneBlocks, reg`noneSize, reg.list
      ensures Aligned() && reg.Valid() && reg.list == old(reg.list) && reg.mode == old(reg.mode)
      ensures 0 < dsize <= |tbuf| && Log() == old(Log()) + [n]
      ensures n.Inode? && n.ino == ino && n.version == ver && n.attrs == attrs && n.offset == offset && n.dsize == dsize
      ensures Unpacks(reg.list, n.compr, n.data, tbuf[..dsize])
    {
      hide Laid, Concat, AllContents, Used, GoodNode, GoodSums, GoodAttrs, TotLen, Unpacks, Registry.Valid;
      PadBlockIfLessThan(INODE_SIZE + MIN_DATA_LEN);
      ConcatLength(L, blocks);
      var space := L.ebs - InBlock(outOfs, L.ebs) - INODE_SIZE;
      if space > |tbuf| {
        space := |tbuf|;
      }
      var r := reg.Compress(tbuf, space);
      ChosenUnpacks(reg, tbuf, space, r);
      var node := InodeFor(L, ino, ver, attrs, offset, r.compr, r.slen, r.page);
      PutNode(node);
      dsize, n := r.slen, node;
    }

    /** The inner loop of write_regular_file, for the bytes read. */
    method WriteChunk(reg: Registry, chunk: seq<byte>, attrs: Attrs, ghost content: seq<byte>, ghost nodes0: seq<Node>,
                      ver0: U32, offset0: U32)
      returns (ver: U32, offset: U32, ghost nodes: seq<Node>)
      requires Aligned() && reg.Valid() && GoodAttrs(attrs)
      requires |content| < 0xffffffff && offset0 + |chunk| <= |content| && content[offset0..offset0 + |chunk|] == chunk
      requires FileNodes(reg.list, nodes0, ino, attrs, content) && EndOf(nodes0) == offset0
      requires |nodes0| == ver0 <= offset0
      modifies `out, `outOfs, `blocks, reg`noneBlocks, reg`noneSize, reg.list
      ensures Aligned() && reg.Valid() && reg.list == old(reg.list) && reg.mode == old(reg.mode)
      ensures nodes0 <= nodes && Log() == old(Log()) + nodes[|nodes0|..]
      ensures FileNodes(reg.list, nodes, ino, attrs, content) && EndOf(nodes) == offset == offset0 + |chunk|
      ensures |nodes| == ver <= offset && (chunk != [] ==> nodes != [])
    {
      hide Laid, AllContents, Used, FileNodes, EndOf, GoodAttrs, Unpacks, Registry.Valid, Valid, Log;
      ver, offset, nodes := ver0, offset0, nodes0;
      var tbuf := chunk;
      assert Log() + [] == Log();
      while |tbuf| > 0
        invariant Aligned() && reg.Valid() && reg.list == old(reg.list) && reg.mode == old(reg.mode)
        invariant offset0 <= offset && offset + |tbuf| == offset0 + |chunk| && tbuf == content[offset..offset + |tbuf|]
        invariant nodes0 <= nodes && Log() == old(Log()) + nodes[|nodes0|..]
        invariant FileNodes(reg.list, nodes, ino, attrs, content) && EndOf(nodes) == offset && |nodes| == ver <= offset
        invariant offset > offset0 ==> nodes != []
        decreases |tbuf|
      {
        ghost var log := Log();
        var dsize;
        ghost var n;
        dsize, n := WriteNode(reg, tbuf, attrs, ver + 1, offset);
        PieceIs(content, offset, |tbuf|, dsize);
        FileNodesSnoc(reg.list, nodes, n, ino, attrs, content);
        LogGrows(old(Log()), nodes, |nodes0|, n);
        ver, nodes := ver + 1, nodes + [n];
        offset, tbuf := offset + dsize, tbuf[dsize..];
      }
    }

    /** The nodes of the file's content, a page at a time. */
    method WriteContent(reg: Registry, attrs: Attrs, content: seq<byte>, pageSize: nat) returns (ghost nodes: seq<Node>)
      requires Aligned() && reg.Valid() && GoodAttrs(attrs) && pageSize > 0 && |content| < MAX_FILE_SIZE
      modifies `out, `outOfs, `blocks, reg`noneBlocks, reg`noneSize, reg.list
      ensures Aligned() && reg.Valid() && reg.list == old(reg.list) && reg.mode == old(reg.mode)
      ensures nodes != [] && Log() == old(Log()) + nodes
      ensures FileNodes(reg.list, nodes, ino, attrs, content) && EndOf(nodes) == |content|
    {
      hide Valid, Log, Laid, Concat, AllContents, Used, GoodNode, GoodSums, FileNodes, EndOf, Registry.Valid, GoodAttrs;
      ghost var log := Log();
      var ver: U32, offset: U32 := 0, 0;
      nodes := [];
      NoNodes(reg.list, ino, attrs, content);
      assert log + [] == log;
      while offset < |content|
        invariant Aligned() && reg.Valid() && reg.list == old(reg.list) && reg.mode == old(reg.mode)
        invariant offset <= |content| && Log() == log + nodes && (offset > 0 ==> nodes != [])
        invariant FileNodes(reg.list, nodes, ino, attrs, content) && EndOf(nodes) == offset && |nodes| == ver <= offset
        decreases |content| - offset
      {
        var len := if |content| - offset < pageSize then |content| - offset else pageSize;
        ghost var nodes1 := nodes;
        ver, offset, nodes := WriteChunk(reg, content[offset..offset + len], attrs, content, nodes, ver, offset);
        assert log + nodes1 + nodes[|nodes1|..] == log + nodes;
      }
      if ver == 0 {
        PadBlockIfLessThan(INODE_SIZE);
        var n := InodeFor(L, ino, 1, attrs, 0, COMPR_NONE, 0, []);
        PutNode(n);
        EmptyNode(reg.list, n, ino, attrs, content);
        nodes := [n];
      }
    }

    /**
     write_regular_file: a directory entry, and nodes of versions 1..n that tile the content; one empty node for an
     empty file, and nothing for a file that is too large.
     */
    method WriteRegularFile(reg: Registry, e: Entry, attrs0: Attrs, content: seq<byte>, pageSize: nat)
      returns (ghost nodes: seq<Node>)
      requires Aligned() && reg.Valid() && |e.name| < 256 && GoodAttrs(attrs0) && ino < 0xffffffff && pageSize > 0
      modifies `out, `outOfs, `blocks, `version, `ino, reg`noneBlocks, reg`noneSize, reg.list
      ensures Aligned() && reg.Valid() && reg.list == old(reg.list) && reg.mode == old(reg.mode)
      ensures |content| >= MAX_FILE_SIZE ==> Log() == old(Log()) && ino == old(ino) && out == old(out)
      ensures |content| < MAX_FILE_SIZE ==>
        && ino == old(ino) + 1 && nodes != [] && Log() == old(Log()) + [DirentFor(L, e, old(version), ino)] + nodes
        && FileNodes(reg.list, nodes, ino, attrs0.(isize := |content|), content) && EndOf(nodes) == |content|
    {
      hide Valid, Log, Laid, Concat, AllContents, Used, GoodNode, GoodSums, FileNodes, EndOf, Registry.Valid, GoodAttrs;
      nodes := [];
      if |content| >= MAX_FILE_SIZE {
        return;
      }
      var attrs := SizeIs(attrs0, |content|);
      ino := ino + 1;
      StillAligned();
      WriteDirent(e, ino);
      nodes := WriteContent(reg, attrs, content, pageSize);
    }

    /** The inode number is no part of the layout. */
    twostate lemma StillAligned()
      requires old(Aligned()) && out == old(out) && outOfs == old(outOfs) && blocks == old(blocks)
      ensures Aligned() && Log() == old(Log())
    {
    }

    /** Whole blocks that hold a clean marker only, up to the size. */
    method PadBlocks(padFsSize: nat)
      requires Aligned() && L.marked && InBlock(outOfs, L.ebs) == 0
      modifies `out, `outOfs, `blocks
      ensures Aligned() && Log() == old(Log()) && padFsSize <= outOfs && InBlock(outOfs, L.ebs) == 0
    {
      hide Laid, Concat, AllContents, Used, InBlock;
      while outOfs < padFsSize
        invariant Aligned() && Log() == old(Log()) && InBlock(outOfs, L.ebs) == 0
        decreases padFsSize - outOfs
      {
        ConcatLength(L, blocks);
        ghost var before := outOfs;
        PutMarker();
        assert before < outOfs;
        PadBlock();
      }
    }

    /** Padding up to the size, wherever that is. */
    method PadPlain(padFsSize: nat)
      requires Aligned() && !L.marked
      modifies `out, `outOfs, `blocks
      ensures Valid() && Log() == old(Log()) && outOfs == if old(outOfs) < padFsSize then padFsSize else old(outOfs)
    {
      hide Laid, Concat, AllContents, Used;
      ghost var k, j := if outOfs < padFsSize then padFsSize - outOfs else 0, 0;
      ghost var out0 := out;
      assert out0 + Fill(0) == out0;
      while outOfs < padFsSize
        invariant 0 <= j <= k && out == out0 + Fill(j) && outOfs == old(outOfs) + j && blocks == old(blocks)
        decreases k - j
      {
        var n := if padFsSize - outOfs < 16 then padFsSize - outOfs else 16;
        FillFill(j, n);
        assert out0 + Fill(j) + Fill(n) == out0 + (Fill(j) + Fill(n));
        FullWrite(Fill(n));
        j := j + n;
      }
      FillUpIs(L, blocks, k);
      blocks := FillUp(L, blocks, k);
    }

    /** The end of create_target_filesystem: padding to the block, or to a size with or without clean markers. */
    method PadImage(padFsSize: int)
      requires Aligned() && padFsSize >= -1
      modifies `out, `outOfs, `blocks
      ensures Valid() && Log() == old(Log()) && padFsSize <= outOfs
      ensures padFsSize == -1 || (padFsSize > 0 && L.marked) ==> InBlock(outOfs, L.ebs) == 0
    {
      hide Laid, Concat, AllContents, Used, InBlock;
      if padFsSize == -1 {
        PadBlock();
      } else if padFsSize != 0 && L.marked {
        PadBlock();
        PadBlocks(padFsSize);
      } else if !L.marked {
        PadPlain(padFsSize);
      }
    }
  }

  function SizeIs(a: Attrs, size: U32): (r: Attrs)
    ensures r == a.(isize := size) && (GoodAttrs(a) ==> GoodAttrs(r))
  {
    a.(isize := size)
  }

  lemma NoNodes(list: seq<Compressor>, ino: U32, attrs: Attrs, content: seq<byte>)
    ensures FileNodes(list, [], ino, attrs, content) && EndOf([]) == 0
  {
  }

  lemma EmptyNode(list: seq<Compressor>, n: Node, ino: U32, attrs: Attrs, content: seq<byte>)
    requires n.Inode? && n.ino == ino && n.version == 1 && n.attrs == attrs && n.offset == 0 == n.dsize == n.compr
    requires n.data == [] == content
    ensures FileNodes(list, [n], ino, attrs, content) && EndOf([n]) == 0
  {
    assert content[0..0] == [];
    assert [n][..0] == [];
  }

  // ---------- writing an image, then reading it ----------

  /** What a reader sees of the nodes of a log, but for their places. */
  function Sights(log: seq<Node>): (r: seq<Seen>)
    ensures |r| == |log|
  {
    seq(|log|, i requires 0 <= i < |log| => SeenOf(Placed(0, log[i])))
  }

  /** What was seen but for clean markers and places. */
  function Proper(seen: seq<Seen>): seq<Seen>
  {
    if seen == [] then []
    else
      var x := seen[|seen| - 1];
      Proper(seen[..|seen| - 1]) + if x.nodetype == CLEANMARKER then [] else [x.(pos := 0)]
  }

  function AllProper(seen: seq<seq<Seen>>): seq<Seen>
  {
    if seen == [] then [] else AllProper(seen[..|seen| - 1]) + Proper(seen[|seen| - 1])
  }

  lemma SightsAppend(a: seq<Node>, b: seq<Node>)
    ensures Sights(a + b) == Sights(a) + Sights(b)
  {
  }

  lemma {:induction false} ProperIs(xs: seq<Placed>)
    ensures Proper(AllSeen(xs)) == Sights(Contents(xs))
  {
    hide TotLen;
    if xs != [] {
      var init, x := xs[..|xs| - 1], xs[|xs| - 1];
      ProperIs(init);
      assert AllSeen(xs)[..|xs| - 1] == AllSeen(init) && AllSeen(xs)[|xs| - 1] == SeenOf(x);
      SightsAppend(Contents(init), if x.node.CleanMarker? then [] else [x.node]);
    }
  }

  lemma {:induction false} AllProperIs(blocks: seq<Block>)
    ensures AllProper(SeenIn(blocks)) == Sights(AllContents(blocks))
  {
    hide Contents, Proper, AllSeen;
    if blocks != [] {
      var init, b := blocks[..|blocks| - 1], blocks[|blocks| - 1];
      AllProperIs(init);
      ProperIs(b.nodes);
      assert SeenIn(blocks)[..|blocks| - 1] == SeenIn(init) && SeenIn(blocks)[|blocks| - 1] == AllSeen(b.nodes);
      SightsAppend(AllContents(init), Contents(b.nodes));
    }
  }

  lemma {:induction false} MaxInoAppend(ino: nat, a: seq<Seen>, b: seq<Seen>)
    ensures MaxIno(ino, a + b) == MaxIno(MaxIno(ino, a), b)
    decreases |a|
  {
    if a == [] {
      assert a + b == b;
    } else {
      assert (a + b)[1..] == a[1..] + b;
      MaxInoAppend(if a[0].ino > ino then a[0].ino else ino, a[1..], b);
    }
  }

  /** Clean markers have no number. */
  lemma {:induction false} MaxOfBlock(ino: nat, xs: seq<Placed>)
    ensures MaxIno(ino, AllSeen(xs)) == MaxIno(ino, Sights(Contents(xs)))
  {
    hide TotLen;
    if xs != [] {
      var init, x := xs[..|xs| - 1], xs[|xs| - 1];
      MaxOfBlock(ino, init);
      assert AllSeen(xs) == AllSeen(init) + [SeenOf(x)];
      MaxInoAppend(ino, AllSeen(init), [SeenOf(x)]);
      var last := if x.node.CleanMarker? then [] else [x.node];
      SightsAppend(Contents(init), last);
      MaxInoAppend(ino, Sights(Contents(init)), Sights(last));
    }
  }

  lemma {:induction false} MaxOfLog(ino: nat, blocks: seq<Block>)
    ensures MaxOver(ino, SeenIn(blocks)) == MaxIno(ino, Sights(AllContents(blocks)))
  {
    hide Contents, MaxIno, AllSeen, Sights;
    if blocks == [] {
      assert SeenIn(blocks) == [] && Sights(AllContents(blocks)) == [];
      NoMax(ino);
    } else {
      var init, b := blocks[..|blocks| - 1], blocks[|blocks| - 1];
      MaxOfLog(ino, init);
      assert SeenIn(blocks)[..|blocks| - 1] == SeenIn(init) && SeenIn(blocks)[|blocks| - 1] == AllSeen(b.nodes);
      MaxOfBlock(MaxOver(ino, SeenIn(init)), b.nodes);
      SightsAppend(AllContents(init), Contents(b.nodes));
      MaxInoAppend(ino, Sights(AllContents(init)), Sights(Contents(b.nodes)));
    }
  }

  lemma NoMax(ino: nat)
    ensures MaxIno(ino, []) == ino
  {
  }

  /** The largest inode number of a log, from a first number on. */
  lemma LargestInLog(log: seq<Node>, ino0: nat)
    ensures var m := MaxIno(ino0, Sights(log));
            && m >= ino0 && (forall n :: n in log && n.Inode? ==> n.ino <= m)
            && (m == ino0 || exists n :: n in log && n.Inode? && n.ino == m)
  {
    hide MaxIno;
    var seen, m := Sights(log), MaxIno(ino0, Sights(log));
    MaxInoIs(ino0, seen);
    forall n | n in log && n.Inode?
      ensures n.ino <= m
    {
      var i :| 0 <= i < |log| && log[i] == n;
      assert seen[i].ino == n.ino;
    }
    if m != ino0 {
      var i :| 0 <= i < |seen| && seen[i].ino == m;
      assert log[i] in log && log[i].Inode? && log[i].ino == m;
    }
  }

  /**
   parse_image over what any sequence of the writers has written, padded or not: it sees the nodes of the log in order,
   clean markers aside, and ends with the largest inode number among them.
   */
  method Reread(image: Image, ino0: U32) returns (ino: nat, seen: seq<seq<Seen>>)
    requires image.Valid()
    ensures AllProper(seen) == Sights(image.Log())
    ensures ino >= ino0 && forall n :: n in image.Log() && n.Inode? ==> n.ino <= ino
    ensures ino == ino0 || exists n :: n in image.Log() && n.Inode? && n.ino == ino
  {
    hide Laid, Concat, AllContents, Sights, SeenIn, MaxIno, MaxOver;
    ino, seen := ParseImage(image.L, image.out, ino0, image.blocks);
    AllProperIs(image.blocks);
    MaxOfLog(ino0, image.blocks);
    LargestInLog(image.Log(), ino0);
  }
}
