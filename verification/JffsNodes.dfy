/**
 The nodes of a JFFS2 image as mkfs.jffs2 writes them, and what process_buffer makes of a block of them
 (mkfs.jffs2.c).
 */
module JffsNodes {
  import opened Bits
  import opened Format

  const MAGIC := 0x1985
  const DIRENT := 0xe001
  const INODE := 0xe002
  const CLEANMARKER := 0x2003
  const MARKER_SIZE := 12
  const DIRENT_SIZE := 40
  const INODE_SIZE := 68

  type U32 = x: nat | x < 0x100000000

  /** target_endian. */
  datatype Order = Little | Big

  // ---------- words ----------

  function W16(o: Order, v: nat): (r: seq<byte>)
    requires v < 0x10000
    ensures |r| == 2
  {
    if o.Little? then [v % 256, v / 256] else [v / 256, v % 256]
  }

  function W32(o: Order, v: U32): (r: seq<byte>)
    ensures |r| == 4
  {
    if o.Little? then W16(o, v % 0x10000) + W16(o, v / 0x10000) else W16(o, v / 0x10000) + W16(o, v % 0x10000)
  }

  function R16(o: Order, s: seq<byte>): (v: nat)
    requires |s| == 2
    ensures v < 0x10000
  {
    var a: nat, b: nat := s[0], s[1];
    if o.Little? then a + 256 * b else 256 * a + b
  }

  function R32(o: Order, s: seq<byte>): U32
    requires |s| == 4
  {
    if o.Little? then R16(o, s[..2]) + 0x10000 * R16(o, s[2..]) else 0x10000 * R16(o, s[..2]) + R16(o, s[2..])
  }

  lemma Read16(o: Order, v: nat)
    requires v < 0x10000
    ensures R16(o, W16(o, v)) == v
  {
  }

  lemma Read32(o: Order, v: U32)
    ensures R32(o, W32(o, v)) == v
  {
    hide W16, R16;
    Read16(o, v % 0x10000);
    Read16(o, v / 0x10000);
    var s := W32(o, v);
    if o.Little? {
      assert s[..2] == W16(o, v % 0x10000) && s[2..] == W16(o, v / 0x10000);
    } else {
      assert s[..2] == W16(o, v / 0x10000) && s[2..] == W16(o, v % 0x10000);
    }
  }

  // ---------- nodes ----------

  /** The checksums of a node: of its header, of the node and of what follows it. */
  datatype Sums = Sums(hdr: U32, node: U32, data: U32)

  /** What the file system says about a file. attrs: mode, uid and gid; times: atime, mtime and ctime. */
  datatype Attrs = Attrs(owner: seq<byte>, isize: U32, times: seq<byte>)

  datatype Node =
    | CleanMarker(totlen: nat, crc: U32)
    | Dirent(pino: U32, version: U32, ino: U32, mctime: U32, kind: byte, name: seq<byte>, sums: Sums)
    | Inode(ino: U32, version: U32, attrs: Attrs, offset: U32, compr: byte, dsize: U32, data: seq<byte>, sums: Sums)

  /** The size of the node without the padding. */
  function TotLen(n: Node): nat
  {
    match n
    case CleanMarker(totlen, _) => totlen
    case Dirent(_, _, _, _, _, name, _) => DIRENT_SIZE + |name|
    case Inode(_, _, _, _, _, _, data, _) => INODE_SIZE + |data|
  }

  function NodeType(n: Node): (t: nat)
    ensures t < 0x10000
  {
    match n
    case CleanMarker(_, _) => CLEANMARKER
    case Dirent(_, _, _, _, _, _, _) => DIRENT
    case Inode(_, _, _, _, _, _, _, _) => INODE
  }

  /** The node can be written: its sizes fit its fields. */
  predicate GoodNode(n: Node)
  {
    && TotLen(n) < 0x80000000
    && match n
       case CleanMarker(totlen, _) => totlen >= MARKER_SIZE
       case Dirent(_, _, _, _, _, name, _) => |name| < 256
       case Inode(_, _, attrs, _, _, _, _, _) => |attrs.owner| == 8 && |attrs.times| == 12
  }

  function Fill(n: nat): (r: seq<byte>)
    ensures |r| == n && forall i :: 0 <= i < n ==> r[i] == 0xff
  {
    seq(n, _ => 0xff)
  }

  /** Magic, type and length: the same for every node. */
  function Header(o: Order, n: Node): (r: seq<byte>)
    requires GoodNode(n)
    ensures |r| == 8
  {
    W16(o, MAGIC) + W16(o, NodeType(n)) + W32(o, TotLen(n))
  }

  /** Behind the header as far as the checksum of the node reaches. */
  function Fields(o: Order, n: Node): (r: seq<byte>)
    requires GoodNode(n)
    ensures |r| == match n case CleanMarker(_, _) => 0 case Dirent(_, _, _, _, _, _, _) => 24 case Inode(_, _, _, _,
             _, _, _, _) => 52
  {
    match n
    case CleanMarker(_, _) => []
    case Dirent(pino, version, ino, mctime, kind, name, sums) =>
      W32(o, sums.hdr) + W32(o, pino) + W32(o, version) + W32(o, ino) + W32(o, mctime) + [|name|, kind, 0, 0]
    case Inode(ino, version, attrs, offset, compr, dsize, data, sums) =>
      W32(o, sums.hdr) + W32(o, ino) + (W32(o, version) + attrs.owner + W32(o, attrs.isize) + attrs.times
      + W32(o, offset) + W32(o, |data|) + W32(o, dsize) + [compr, 0, 0, 0])
  }

  /** The checksums at the end of the structure. */
  function Tail(o: Order, n: Node): (r: seq<byte>)
    ensures |r| == if n.CleanMarker? then 4 else 8
  {
    match n
    case CleanMarker(_, crc) => W32(o, crc)
    case Dirent(_, _, _, _, _, _, sums) => W32(o, sums.node) + W32(o, sums.data)
    case Inode(_, _, _, _, _, _, _, sums) => W32(o, sums.data) + W32(o, sums.node)
  }

  /** What follows the structure. */
  function Payload(n: Node): (r: seq<byte>)
    requires GoodNode(n)
    ensures |r| == TotLen(n) - if n.CleanMarker? then MARKER_SIZE else if n.Dirent? then DIRENT_SIZE else INODE_SIZE
  {
    match n
    case CleanMarker(totlen, _) => Fill(totlen - MARKER_SIZE)
    case Dirent(_, _, _, _, _, name, _) => name
    case Inode(_, _, _, _, _, _, data, _) => data
  }

  /** The structure that is written first. */
  function Struct(o: Order, n: Node): (r: seq<byte>)
    requires GoodNode(n)
    ensures |r| + |Payload(n)| == TotLen(n)
  {
    Header(o, n) + Fields(o, n) + Tail(o, n)
  }

  function Bytes(o: Order, n: Node): (r: seq<byte>)
    requires GoodNode(n)
    ensures |r| == TotLen(n)
  {
    Struct(o, n) + Payload(n)
  }

  /** A checksum function; crc32 of util/crc32.h with 0 as its first argument. */
  type Crc = seq<byte> -> U32

  /** Every checksum of the node covers the bytes that it has to. */
  ghost predicate GoodSums(o: Order, crc: Crc, n: Node)
    requires GoodNode(n)
  {
    match n
    case CleanMarker(_, c) => c == crc(Header(o, n))
    case Dirent(_, _, _, _, _, name, sums) =>
      sums == Sums(crc(Header(o, n)), crc(Header(o, n) + Fields(o, n)), crc(name))
    case Inode(_, _, _, _, _, _, data, sums) =>
      sums == Sums(crc(Header(o, n)), crc(Header(o, n) + Fields(o, n)), crc(data))
  }

  /** PAD. */
  function Pad4(n: nat): (r: nat)
    ensures n <= r < n + 4 && r % 4 == 0
  {
    (n + 3) / 4 * 4
  }

  function Padded(s: seq<byte>): (r: seq<byte>)
    ensures |r| == Pad4(|s|) && s <= r
  {
    s + Fill(Pad4(|s|) - |s|)
  }

  // ---------- what process_buffer sees ----------

  /** A node seen: where, of which type and length, and for which inode. */
  datatype Seen = Seen(pos: nat, nodetype: nat, totlen: nat, ino: nat)

  function At16(o: Order, s: seq<byte>, p: nat): (v: nat)
    requires p + 2 <= |s|
    ensures v < 0x10000
  {
    R16(o, s[p..p + 2])
  }

  function At32(o: Order, s: seq<byte>, p: nat): U32
    requires p + 4 <= |s|
  {
    R32(o, s[p..p + 4])
  }

  /** The type with JFFS2_NODE_ACCURATE set. */
  function Accurate(t: nat): (r: nat)
    requires t < 0x10000
    ensures r < 0x10000
  {
    if t / 0x2000 % 2 == 1 then t else t + 0x2000
  }

  /**
   The nodes that process_buffer visits from p on in a buffer of which n bytes have been read; None if it would
   look behind the end of the buffer or not go on.
   */
  function Scan(o: Order, s: seq<byte>, n: nat, p: nat): Option<seq<Seen>>
    decreases n - p
  {
    if p >= n then Some([])
    else if p + 4 > |s| then None
    else
      var magic, nodetype := At16(o, s, p), At16(o, s, p + 2);
      if magic == 0xffff && nodetype == 0xffff then Scan(o, s, n, p + 4)
      else if magic != MAGIC then Scan(o, s, n, p + 4)
      else
        var t := Accurate(nodetype);
        if t == 0xffff then Scan(o, s, n, p + 4)
        else if p + 8 > |s| || (t == INODE && p + 16 > |s|) then None
        else
          var totlen := At32(o, s, p + 4);
          if totlen == 0 then None
          else
            match Scan(o, s, n, p + Pad4(totlen))
            case None => None
            case Some(rest) => Some([Seen(p, t, totlen, if t == INODE then At32(o, s, p + 12) else 0)] + rest)
  }

  /** The largest inode number seen. */
  function MaxIno(ino: nat, seen: seq<Seen>): nat
    decreases |seen|
  {
    if seen == [] then ino else MaxIno(if seen[0].ino > ino then seen[0].ino else ino, seen[1..])
  }

  // ---------- a block of nodes ----------

  datatype Placed = Placed(pos: nat, node: Node)

  function SeenOf(x: Placed): Seen
  {
    Seen(x.pos, NodeType(x.node), TotLen(x.node), if x.node.Inode? then x.node.ino else 0)
  }

  function AllSeen(xs: seq<Placed>): (r: seq<Seen>)
    ensures |r| == |xs|
  {
    seq(|xs|, i requires 0 <= i < |xs| => SeenOf(xs[i]))
  }

  /**
   From place base on: words of padding, and the nodes xs in order, each padded to a word; a rest of a word is padding.
   */
  ghost predicate Tiled(o: Order, s: seq<byte>, xs: seq<Placed>, base: nat)
    decreases |s|
  {
    if |s| < 4 then xs == [] && s == Fill(|s|)
    else
      || (PadFirst(s) && Tiled(o, s[4..], xs, base + 4))
      || (NodeFirst(o, s, xs, base) && Tiled(o, s[Size(xs[0])..], xs[1..], base + Size(xs[0])))
  }

  predicate PadFirst(s: seq<byte>)
  {
    |s| >= 4 && s[..4] == Fill(4)
  }

  /** What a node takes up. */
  function Size(x: Placed): (k: nat)
  {
    Pad4(TotLen(x.node))
  }

  ghost predicate NodeFirst(o: Order, s: seq<byte>, xs: seq<Placed>, base: nat)
  {
    xs != [] && Starts(o, s, xs[0], base)
  }

  ghost predicate Starts(o: Order, s: seq<byte>, x: Placed, base: nat)
  {
    x.pos == base && GoodNode(x.node) && 0 < Size(x) <= |s| && s[..Size(x)] == Padded(Bytes(o, x.node))
  }

  lemma MorePadding(s: seq<byte>, t: seq<byte>)
    requires PadFirst(s)
    ensures PadFirst(s + t) && (s + t)[4..] == s[4..] + t
  {
    assert (s + t)[..4] == s[..4];
  }

  lemma MoreNodes(o: Order, s: seq<byte>, xs: seq<Placed>, base: nat, t: seq<byte>, ys: seq<Placed>)
    requires NodeFirst(o, s, xs, base)
    ensures xs != [] && NodeFirst(o, s + t, xs + ys, base) && 0 < Size(xs[0]) <= |s|
    ensures (s + t)[Size(xs[0])..] == s[Size(xs[0])..] + t && (xs + ys)[1..] == xs[1..] + ys && (xs + ys)[0] == xs[0]
  {
    hide Padded, Bytes, GoodNode, Size;
    var k := Size(xs[0]);
    assert (s + t)[..k] == s[..k];
  }

  lemma PadOn(o: Order, s: seq<byte>, xs: seq<Placed>, base: nat)
    requires PadFirst(s) && Tiled(o, s[4..], xs, base + 4)
    ensures Tiled(o, s, xs, base)
  {
    hide Starts, Size, Fill;
  }

  lemma NodeOn(o: Order, s: seq<byte>, xs: seq<Placed>, base: nat)
    requires NodeFirst(o, s, xs, base) && 4 <= |s| && 0 < Size(xs[0]) <= |s|
    requires Tiled(o, s[Size(xs[0])..], xs[1..], base + Size(xs[0]))
    ensures Tiled(o, s, xs, base)
  {
    hide Starts, Size, Fill;
  }

  lemma TiledCases(o: Order, s: seq<byte>, xs: seq<Placed>, base: nat)
    requires Tiled(o, s, xs, base)
    ensures |s| < 4 ==> xs == []
    ensures |s| >= 4 ==>
      || (PadFirst(s) && Tiled(o, s[4..], xs, base + 4))
      || (NodeFirst(o, s, xs, base) && xs != [] && 0 < Size(xs[0]) <= |s|
          && Tiled(o, s[Size(xs[0])..], xs[1..], base + Size(xs[0])))
  {
    hide Bytes, GoodNode, Padded, Size, Fill;
  }

  lemma {:induction false} TiledAppend(o: Order, s: seq<byte>, xs: seq<Placed>, base: nat, t: seq<byte>,
                                       ys: seq<Placed>)
    requires Tiled(o, s, xs, base) && Tiled(o, t, ys, base + |s|) && |s| % 4 == 0
    ensures Tiled(o, s + t, xs + ys, base)
    decreases |s|
  {
    hide Tiled, PadFirst, NodeFirst, Size;
    TiledCases(o, s, xs, base);
    if |s| < 4 {
      assert s + t == t && xs + ys == ys;
    } else if PadFirst(s) && Tiled(o, s[4..], xs, base + 4) {
      MorePadding(s, t);
      TiledAppend(o, s[4..], xs, base + 4, t, ys);
      PadOn(o, s + t, xs + ys, base);
    } else {
      MoreNodes(o, s, xs, base, t, ys);
      var k := Size(xs[0]);
      Sized(xs[0]);
      TiledAppend(o, s[k..], xs[1..], base + k, t, ys);
      NodeOn(o, s + t, xs + ys, base);
    }
  }

  lemma Sized(x: Placed)
    ensures Size(x) % 4 == 0
  {
  }

  lemma TiledOne(o: Order, n: Node, base: nat)
    requires GoodNode(n)
    ensures Tiled(o, Padded(Bytes(o, n)), [Placed(base, n)], base)
  {
    hide Bytes, GoodNode;
    var s, k := Padded(Bytes(o, n)), Pad4(TotLen(n));
    Something(n);
    assert s[..k] == s && s[k..] == [];
    assert [Placed(base, n)][1..] == [];
    assert Fill(0) == [];
    assert Tiled(o, [], [], base + k);
  }

  lemma Something(n: Node)
    requires GoodNode(n)
    ensures TotLen(n) >= MARKER_SIZE
  {
  }

  lemma {:induction false} TiledFill(o: Order, n: nat, base: nat)
    ensures Tiled(o, Fill(n), [], base)
    decreases n
  {
    if n >= 4 {
      TiledFill(o, n - 4, base + 4);
      assert Fill(n)[..4] == Fill(4) && Fill(n)[4..] == Fill(n - 4);
      assert PadFirst(Fill(n));
    }
  }

  // ---------- process_buffer visits exactly the nodes written ----------

  lemma SubSlice(s: seq<byte>, p: nat, k: nat, a: nat, b: nat)
    requires p + k <= |s| && a <= b <= k
    ensures s[p..p + k][a..b] == s[p + a..p + b]
  {
    var u, v := s[p..p + k][a..b], s[p + a..p + b];
    forall i | 0 <= i < |u|
      ensures u[i] == v[i]
    {
    }
    assert u == v;
  }

  lemma PaddingIs(o: Order, s: seq<byte>, p: nat)
    requires p + 4 <= |s| && s[p..p + 4] == Fill(4)
    ensures At16(o, s, p) == 0xffff && At16(o, s, p + 2) == 0xffff
  {
    assert s[p..p + 2] == s[p..p + 4][..2] && s[p + 2..p + 4] == s[p..p + 4][2..];
  }

  /** The fields of a node that process_buffer reads. */
  lemma HeaderIs(o: Order, s: seq<byte>, p: nat, n: Node)
    requires GoodNode(n) && p + 8 <= |s| && s[p..p + 8] == Header(o, n)
    ensures At16(o, s, p) == MAGIC && At16(o, s, p + 2) == NodeType(n) && At32(o, s, p + 4) == TotLen(n)
  {
    hide W16, W32, R16, R32, TotLen, GoodNode;
    Small(n);
    var h := Header(o, n);
    SubSlice(s, p, 8, 0, 2);
    SubSlice(s, p, 8, 2, 4);
    SubSlice(s, p, 8, 4, 8);
    assert h[0..2] == W16(o, MAGIC);
    assert h[2..4] == W16(o, NodeType(n));
    assert h[4..8] == W32(o, TotLen(n));
    Read16(o, MAGIC);
    Read16(o, NodeType(n));
    Read32(o, TotLen(n));
  }

  lemma Small(n: Node)
    requires GoodNode(n)
    ensures TotLen(n) < 0x80000000
  {
  }

  lemma InodeNumber(o: Order, s: seq<byte>, p: nat, n: Node)
    requires GoodNode(n) && n.Inode? && p + TotLen(n) <= |s| && s[p..p + TotLen(n)] == Bytes(o, n)
    ensures p + 16 <= |s| && At32(o, s, p + 12) == n.ino
  {
    hide W32, R32, Header, Tail;
    var f := Fields(o, n);
    assert f[4..8] == W32(o, n.ino);
    assert Bytes(o, n)[12..16] == Struct(o, n)[12..16] == f[4..8];
    SubSlice(s, p, TotLen(n), 12, 16);
    Read32(o, n.ino);
  }

  lemma AccurateIs(n: Node)
    ensures Accurate(NodeType(n)) == NodeType(n) && NodeType(n) != 0xffff && (NodeType(n) == INODE <==> n.Inode?)
  {
  }

  lemma ScanPadding(o: Order, s: seq<byte>, n: nat, p: nat)
    requires p + 4 <= |s| && p < n && s[p..p + 4] == Fill(4)
    ensures Scan(o, s, n, p) == Scan(o, s, n, p + 4)
  {
    hide At16, At32, Accurate;
    PaddingIs(o, s, p);
  }

  /** A byte of padding begins no node, whatever follows it. */
  lemma ScanPartial(o: Order, s: seq<byte>, n: nat, p: nat)
    requires p < n <= p + 4 <= |s| && s[p] == 0xff
    ensures Scan(o, s, n, p) == Some([])
  {
    hide At32, Accurate;
    assert s[p..p + 2] == [s[p], s[p + 1]];
    assert At16(o, s, p) != MAGIC;
    assert Scan(o, s, n, p + 4) == Some([]);
  }

  lemma ScanNode(o: Order, s: seq<byte>, m: nat, p: nat, n: Node)
    requires GoodNode(n) && p < m && p + Pad4(TotLen(n)) <= |s| && s[p..p + Pad4(TotLen(n))] == Padded(Bytes(o, n))
    requires Scan(o, s, m, p + Pad4(TotLen(n))).Some?
    ensures Scan(o, s, m, p) == Some([SeenOf(Placed(p, n))] + Scan(o, s, m, p + Pad4(TotLen(n))).value)
  {
    hide At16, At32, Accurate, GoodNode, Bytes, Header, TotLen, NodeType, Padded, Pad4;
    NodeAt(o, s, p, n);
    HeaderIs(o, s, p, n);
    AccurateIs(n);
    Something(n);
    if n.Inode? {
      InodeNumber(o, s, p, n);
    }
  }

  lemma NodeAt(o: Order, s: seq<byte>, p: nat, n: Node)
    requires GoodNode(n) && p + Pad4(TotLen(n)) <= |s| && s[p..p + Pad4(TotLen(n))] == Padded(Bytes(o, n))
    ensures p + TotLen(n) <= |s| && s[p..p + TotLen(n)] == Bytes(o, n) && TotLen(n) >= 12 && s[p..p + 8] == Header(o, n)
  {
    hide Header, Fields, Tail, Payload, W16, W32;
    Something(n);
    var k := Pad4(TotLen(n));
    assert s[p..p + TotLen(n)] == s[p..p + k][..TotLen(n)];
    assert s[p..p + 8] == s[p..p + TotLen(n)][..8];
    assert Bytes(o, n)[..8] == Struct(o, n)[..8];
  }

  lemma TailPad(o: Order, s: seq<byte>, n: nat, p: nat, xs: seq<Placed>)
    requires p <= n <= |s| && PadFirst(s[p..n]) && Tiled(o, s[p..n][4..], xs, p + 4)
    ensures p + 4 <= n && s[p..p + 4] == Fill(4) && Tiled(o, s[p + 4..n], xs, p + 4)
  {
    hide Tiled, Fill;
    SubSlice(s, p, n - p, 0, 4);
    SubSlice(s, p, n - p, 4, n - p);
    var rest := s[p..n];
    assert rest[..4] == rest[0..4] && rest[4..] == rest[4..n - p];
  }

  lemma TailNode(o: Order, s: seq<byte>, n: nat, p: nat, xs: seq<Placed>)
    requires p <= n <= |s| && NodeFirst(o, s[p..n], xs, p)
    requires 0 < Size(xs[0]) <= n - p && Tiled(o, s[p..n][Size(xs[0])..], xs[1..], p + Size(xs[0]))
    ensures var k := Size(xs[0]);
            && p + k <= n && k % 4 == 0 && xs[0].pos == p && GoodNode(xs[0].node)
            && s[p..p + k] == Padded(Bytes(o, xs[0].node)) && Tiled(o, s[p + k..n], xs[1..], p + k)
  {
    hide Tiled, Padded, Bytes, GoodNode, Fill;
    var k := Size(xs[0]);
    Sized(xs[0]);
    SubSlice(s, p, n - p, 0, k);
    SubSlice(s, p, n - p, k, n - p);
    var rest := s[p..n];
    assert rest[..k] == rest[0..k] && rest[k..] == rest[k..n - p];
  }

  lemma SeenFirst(xs: seq<Placed>)
    requires xs != []
    ensures AllSeen(xs) == [SeenOf(xs[0])] + AllSeen(xs[1..])
  {
    hide SeenOf;
  }

  lemma SizeOf(x: Placed)
    ensures Size(x) == Pad4(TotLen(x.node))
  {
  }

  /** A scan of a block visits the nodes in it, all of them and nothing else. */
  lemma {:induction false} TiledScan(o: Order, s: seq<byte>, n: nat, p: nat, xs: seq<Placed>)
    requires p <= n <= |s| && |s| % 4 == 0 == p % 4 && Tiled(o, s[p..n], xs, p)
    ensures Scan(o, s, n, p) == Some(AllSeen(xs))
    decreases n - p
  {
    hide Scan, Bytes, Padded, GoodNode, SeenOf, PadFirst, Starts, Size, Pad4, TotLen;
    var rest := s[p..n];
    if |rest| < 4 {
      if p == n {
        ScanEnd(o, s, n, p);
      } else {
        assert rest[0] == 0xff;
        ScanPartial(o, s, n, p);
      }
      assert AllSeen(xs) == [];
    } else if PadFirst(rest) && Tiled(o, rest[4..], xs, p + 4) {
      TailPad(o, s, n, p, xs);
      TiledScan(o, s, n, p + 4, xs);
      ScanPadding(o, s, n, p);
    } else {
      StartsFits(o, rest, xs[0], p);
      TailNode(o, s, n, p, xs);
      var k := Size(xs[0]);
      SizeOf(xs[0]);
      TiledScan(o, s, n, p + k, xs[1..]);
      ScanNode(o, s, n, p, xs[0].node);
      SeenFirst(xs);
    }
  }

  lemma StartsFits(o: Order, s: seq<byte>, x: Placed, base: nat)
    requires Starts(o, s, x, base)
    ensures 0 < Size(x) <= |s| && x == Placed(base, x.node)
  {
    hide Bytes, GoodNode, Padded;
  }

  lemma ScanEnd(o: Order, s: seq<byte>, n: nat, p: nat)
    requires p >= n
    ensures Scan(o, s, n, p) == Some([])
  {
  }
}
