/** The compressors of mkfs.jffs2 and the choice among them (compr.c). */
module Compressors {
  import opened Bits
  import opened Format
  import Rtime

  /** What a compressor has packed: how much of the source, and into what. */
  datatype Packed = Packed(slen: nat, data: seq<byte>)

  type Packer = (seq<byte>, nat) -> Option<Packed>
  type Unpacker = (seq<byte>, nat) -> seq<byte>

  const COMPR_NONE := 0
  const COMPR_RTIME := 2
  const RTIME_PRIORITY := 50

  datatype Mode = NoCompression | ByPriority | BySize

  /** struct jffs2_compressor. */
  class Compressor {
    const name: string
    const compr: byte
    const compress: Option<Packer>
    const decompress: Unpacker
    var priority: int
    var disabled: bool
    var statComprBlocks: nat
    var statComprOrigSize: nat
    var statComprNewSize: nat

    constructor (name: string, compr: byte, compress: Option<Packer>, decompress: Unpacker, priority: int)
      ensures this.name == name && this.compr == compr && this.compress == compress && this.decompress == decompress
      ensures this.priority == priority && !disabled
    {
      this.name, this.compr, this.compress, this.decompress, this.priority := name, compr, compress, decompress,
          priority;
      disabled := false;
      statComprBlocks, statComprOrigSize, statComprNewSize := 0, 0, 0;
    }

    /** Neither decompress-only nor disabled. */
    predicate Enabled()
      reads this
    {
      compress.Some? && !disabled
    }
  }

  /** What every compressor owes: it packs some of the source into the room, and unpacks what it has packed. */
  ghost predicate Sound(c: Compressor)
  {
    c.compr != COMPR_NONE && (c.compress.Some? ==> Inverse(c.compress.value, c.decompress))
  }

  ghost predicate Inverse(pack: Packer, unpack: Unpacker)
  {
    forall data: seq<byte>, room: nat :: pack(data, room).Some? ==> Fits(data, room, pack(data, room).value, unpack)
  }

  ghost predicate Fits(data: seq<byte>, room: nat, p: Packed, unpack: Unpacker)
  {
    0 < p.slen <= |data| && 0 < |p.data| <= room && unpack(p.data, p.slen) == data[..p.slen]
  }

  // ---------- rtime as one of them ----------

  /** jffs2_rtime_compress as a function: nothing is gained on fewer than 2 bytes of room. */
  function RtimePack(data: seq<byte>, room: nat): Option<Packed>
  {
    if room < 2 || |data| > 32767 then None
    else
      var p := Rtime.Pack(data, 0, Rtime.Nowhere(), 0, room);
      if |p.0| >= p.1 then None else Some(Packed(p.1, p.0))
  }

  function RtimeUnpack(data: seq<byte>, destlen: nat): seq<byte>
  {
    var r := Rtime.Unpack(data, 0, Rtime.EMPTY, destlen);
    if r.Some? then r.value else []
  }

  lemma RtimeIsSound()
    ensures Inverse(RtimePack, RtimeUnpack)
  {
    forall data: seq<byte>, room: nat | RtimePack(data, room).Some?
      ensures Fits(data, room, RtimePack(data, room).value, RtimeUnpack)
    {
      Rtime.RoundTrip(data, room);
      Rtime.PackSome(data, room);
    }
  }

  // ---------- the list ----------

  /** Of falling priority, and each only once. */
  ghost predicate Sorted(list: seq<Compressor>)
    reads list
  {
    && (forall i, j :: 0 <= i < j < |list| ==> list[i].priority >= list[j].priority)
    && forall i, j :: 0 <= i < j < |list| ==> list[i] != list[j]
  }

  /** Where c goes: behind all of at least its priority, before all of less. */
  ghost predicate Place(list: seq<Compressor>, priority: int, k: nat)
    requires k <= |list|
    reads list
  {
    && (forall i :: 0 <= i < k ==> list[i].priority >= priority)
    && forall i :: k <= i < |list| ==> list[i].priority < priority
  }

  lemma InsertKeeps(list: seq<Compressor>, c: Compressor, k: nat)
    requires Sorted(list) && k <= |list| && Place(list, c.priority, k) && c !in list
    ensures Sorted(list[..k] + [c] + list[k..])
  {
    var l1 := list[..k] + [c] + list[k..];
    forall i, j | 0 <= i < j < |l1|
      ensures l1[i].priority >= l1[j].priority && l1[i] != l1[j]
    {
      assert i != k ==> l1[i] == list[if i < k then i else i - 1];
      assert j != k ==> l1[j] == list[if j < k then j else j - 1];
    }
  }

  lemma RemoveKeeps(list: seq<Compressor>, k: nat)
    requires Sorted(list) && k < |list|
    ensures Sorted(list[..k] + list[k + 1..]) && list[k] !in list[..k] + list[k + 1..]
  {
    var l1 := list[..k] + list[k + 1..];
    forall i | 0 <= i < |l1|
      ensures l1[i] == list[if i < k then i else i + 1] && l1[i] != list[k]
    {
    }
    forall i, j | 0 <= i < j < |l1|
      ensures l1[i].priority >= l1[j].priority && l1[i] != l1[j]
    {
      assert l1[i] == list[if i < k then i else i + 1] && l1[j] == list[if j < k then j else j + 1];
    }
  }

  lemma Members(others: seq<Compressor>, c: Compressor, k: nat, list: seq<Compressor>, j: nat)
    requires j < |list| && others == list[..j] + list[j + 1..] && c == list[j] && k <= |others|
    ensures forall d :: d in others[..k] + [c] + others[k..] ==> d in list
  {
  }

  /** The choice of jffs2_compress: what was chosen, how much of the source is in it, and the bytes to store. */
  datatype Choice = Choice(compr: byte, slen: nat, page: seq<byte>)

  /** c packs the data into the room with this result. */
  predicate Packs(c: Compressor, data: seq<byte>, room: nat, p: Packed)
    reads c
  {
    c.Enabled() && c.compress.value(data, room) == Some(p)
  }

  predicate Fails(c: Compressor, data: seq<byte>, room: nat)
    reads c
  {
    !c.Enabled() || c.compress.value(data, room).None?
  }

  /** The length of what c makes of the data; 0 if it fails. */
  function ResultLength(c: Compressor, data: seq<byte>, room: nat): nat
    reads c
  {
    if Fails(c, data, room) then 0 else |c.compress.value(data, room).value.data|
  }

  class Registry {
    /** jffs2_compressor_list. */
    var list: seq<Compressor>
    var mode: Mode
    var noneBlocks: nat
    var noneSize: nat

    ghost predicate Valid()
      reads this, list
    {
      Sorted(list) && forall c :: c in list ==> Sound(c)
    }

    constructor ()
      ensures Valid() && list == [] && mode == ByPriority
    {
      list, mode, noneBlocks, noneSize := [], ByPriority, 0, 0;
    }

    /** The first place whose compressor has less priority. */
    method FindPlace(priority: int) returns (k: nat)
      requires Sorted(list)
      ensures k <= |list| && Place(list, priority, k)
    {
      k := 0;
      while k < |list| && list[k].priority >= priority
        invariant k <= |list| && forall i :: 0 <= i < k ==> list[i].priority >= priority
      {
        k := k + 1;
      }
    }

    /** Puts c where it belongs; the end of jffs2_register_compressor and of jffs2_set_compressor_priority. */
    method Insert(c: Compressor) returns (ghost k: nat)
      requires Sorted(list) && c !in list
      modifies this`list
      ensures Sorted(list) && k <= |old(list)| && Place(old(list), c.priority, k)
      ensures list == old(list)[..k] + [c] + old(list)[k..]
    {
      var j := FindPlace(c.priority);
      InsertKeeps(list, c, j);
      list := list[..j] + [c] + list[j..];
      k := j;
    }

    /** jffs2_register_compressor. */
    method Register(c: Compressor) returns (ghost k: nat)
      requires Valid() && Sound(c) && c !in list
      modifies this`list
      ensures Valid() && k <= |old(list)| && Place(old(list), c.priority, k)
      ensures list == old(list)[..k] + [c] + old(list)[k..]
    {
      k := Insert(c);
    }

    /** The first compressor of that name. */
    method Find(name: string) returns (k: nat)
      ensures k <= |list| && (forall i :: 0 <= i < k ==> list[i].name != name) && (k < |list| ==> list[k].name == name)
    {
      k := 0;
      while k < |list| && list[k].name != name
        invariant k <= |list| && forall i :: 0 <= i < k ==> list[i].name != name
      {
        k := k + 1;
      }
    }

    /** jffs2_compressor_Xable: switches the first compressor of that name, and no other. */
    method SetDisabled(name: string, disabled: bool) returns (ret: nat, ghost i: nat)
      requires Valid()
      modifies list
      ensures Valid() && i <= |list| && forall j :: 0 <= j < i ==> list[j].name != name
      ensures ret == (if i < |list| then 0 else 1)
      ensures (ret == 0 ==> list[i].name == name && list[i].disabled == disabled)
      ensures forall c :: c in list ==> c.priority == old(c.priority)
      ensures forall c :: c in list && (i == |list| || c != list[i]) ==> c.disabled == old(c.disabled)
    {
      var k := Find(name);
      i, ret := k, 1;
      if k < |list| {
        list[k].disabled := disabled;
        ret := 0;
      }
    }

    /** The compressor at place j gets this priority and moves to where it now belongs. */
    method Reinsert(j: nat, priority: int) returns (ghost k: nat)
      requires Valid() && j < |list|
      modifies this`list, {list[j]}
      ensures Valid() && old(list)[j].priority == priority && old(list)[j].disabled == old(list[j].disabled)
      ensures var others := old(list)[..j] + old(list)[j + 1..];
              k <= |others| && Place(others, priority, k) && list == others[..k] + [old(list)[j]] + others[k..]
    {
      hide Sound;
      var comp := list[j];
      ghost var others := list[..j] + list[j + 1..];
      RemoveKeeps(list, j);
      comp.priority := priority;
      list := list[..j] + list[j + 1..];
      assert Sorted(others);
      k := Insert(comp);
      Members(others, comp, k, old(list), j);
    }

    /**
     jffs2_set_compressor_priority: the first compressor of that name moves to where it now belongs; the others keep
     their order and are not touched.
     */
    method SetPriority(name: string, priority: int) returns (ret: nat, ghost i: nat, ghost k: nat)
      requires Valid()
      modifies this`list, list
      ensures Valid() && i <= |old(list)| && forall j :: 0 <= j < i ==> old(list)[j].name != name
      ensures ret == (if i < |old(list)| then 0 else 1) && (ret == 1 ==> list == old(list))
      ensures ret == 0 ==>
        var c, others := old(list)[i], old(list)[..i] + old(list)[i + 1..];
        && c.name == name && c.priority == priority && k <= |others| && Place(others, priority, k)
        && list == others[..k] + [c] + others[k..]
      ensures forall c :: c in old(list) ==> c.disabled == old(c.disabled)
      ensures forall c :: c in old(list) && (i == |old(list)| || c != old(list)[i]) ==> c.priority == old(c.priority)
    {
      hide Sound, Sorted, Place, Valid;
      var j := Find(name);
      i, k := j, 0;
      if j == |list| {
        ret := 1;
        return;
      }
      ret := 0;
      k := Reinsert(j, priority);
    }

    /** No compressor before place i packs. */
    ghost predicate NonePack(data: seq<byte>, room: nat, i: nat)
      requires i <= |list|
      reads this, list
    {
      forall j :: 0 <= j < i ==> Fails(list[j], data, room)
    }

    /** The first compressor of the list that succeeds. */
    method FirstThatPacks(data: seq<byte>, room: nat) returns (k: nat, p: Packed)
      requires Valid()
      modifies list
      ensures Valid() && k <= |list| && NonePack(data, room, k) && (k < |list| ==> Packs(list[k], data, room, p))
      ensures forall c :: c in list ==> c.priority == old(c.priority) && c.disabled == old(c.disabled)
    {
      hide Sound;
      k, p := 0, Packed(0, []);
      while k < |list|
        invariant k <= |list| && NonePack(data, room, k)
        invariant forall c :: c in list ==> c.priority == old(c.priority) && c.disabled == old(c.disabled)
        invariant Valid()
      {
        var c := list[k];
        assert c in list;
        if c.Enabled() {
          var r := c.compress.value(data, room);
          if r.Some? {
            p := r.value;
            Count(c, p);
            return;
          }
        }
        k := k + 1;
      }
    }

    /** Of those before place i that pack the one at k has the shortest result, and it is the first such. */
    ghost predicate Best(data: seq<byte>, room: nat, i: nat, k: nat, p: Packed)
      requires i <= |list|
      reads this, list
    {
      && k < i && Packs(list[k], data, room, p)
      && (forall j :: 0 <= j < k ==> Fails(list[j], data, room) || ResultLength(list[j], data, room) > |p.data|)
      && forall j :: k < j < i ==> Fails(list[j], data, room) || ResultLength(list[j], data, room) >= |p.data|
    }

    /** The compressor with the shortest result. */
    method BestThatPacks(data: seq<byte>, room: nat) returns (k: nat, p: Packed)
      requires Valid()
      modifies list
      ensures Valid() && k <= |list|
      ensures if k < |list| then Best(data, room, |list|, k, p) else NonePack(data, room, |list|)
      ensures forall c :: c in list ==> c.priority == old(c.priority) && c.disabled == old(c.disabled)
    {
      var bestDlen := 0;
      k, p := |list|, Packed(0, []);
      var i := 0;
      while i < |list|
        invariant i <= |list| && if bestDlen == 0 then k == |list| && NonePack(data, room, i)
                 else bestDlen == |p.data| && Best(data, room, i, k, p)
        invariant forall c :: c in list ==> c.priority == old(c.priority) && c.disabled == old(c.disabled)
      {
        var c := list[i];
        assert c in list;
        if c.Enabled() {
          var r := c.compress.value(data, room);
          if r.Some? {
            assert Sound(c) && Fits(data, room, r.value, c.decompress);
            if bestDlen == 0 || bestDlen > |r.value.data| {
              k, bestDlen, p := i, |r.value.data|, r.value;
            }
          }
        }
        i := i + 1;
      }
      if bestDlen != 0 {
        Count(list[k], p);
      }
    }

    /** The statistics of a compressor that was used. */
    method Count(c: Compressor, p: Packed)
      modifies c`statComprBlocks, c`statComprOrigSize, c`statComprNewSize
    {
      c.statComprBlocks := c.statComprBlocks + 1;
      c.statComprOrigSize := c.statComprOrigSize + p.slen;
      c.statComprNewSize := c.statComprNewSize + |p.data|;
    }

    /**
     jffs2_compress: packs some of the data into the room. The result always fits and unpacks to what was
     taken; data that no compressor can pack is stored as it is, as much as there is room for.
     */
    method Compress(data: seq<byte>, room: nat) returns (r: Choice)
      requires Valid() && 0 < room <= |data|
      modifies this`noneBlocks, this`noneSize, list
      ensures Valid() && list == old(list) && mode == old(mode)
      ensures 0 < r.slen <= |data| && 0 < |r.page| <= room
      ensures r.compr == COMPR_NONE ==> r.page == data[..room] && r.slen == room
      ensures r.compr != COMPR_NONE ==> exists k :: 0 <= k < |list| && Chosen(k, data, room, r)
      ensures r.compr == COMPR_NONE ==> mode.NoCompression? || NonePack(data, room, |list|)
      ensures forall c :: c in list ==> c.priority == old(c.priority) && c.disabled == old(c.disabled)
    {
      var k, p := |list|, Packed(0, []);
      match mode {
        case NoCompression =>
        case ByPriority => k, p := FirstThatPacks(data, room);
        case BySize => k, p := BestThatPacks(data, room);
      }
      if k == |list| {
        noneBlocks := noneBlocks + 1;
        noneSize := noneSize + room;
        return Choice(COMPR_NONE, room, data[..room]);
      }
      assert Sound(list[k]) && Fits(data, room, p, list[k].decompress);
      r := Choice(list[k].compr, p.slen, p.data);
      assert Chosen(k, data, room, r);
    }

    /**
     The compressor at place k was rightly chosen: its result unpacks, and it is the first, or the best, that packs.
     */
    ghost predicate Chosen(k: int, data: seq<byte>, room: nat, r: Choice)
      requires 0 <= k < |list|
      reads this, list
    {
      var p := Packed(r.slen, r.page);
      && Packs(list[k], data, room, p) && r.compr == list[k].compr && r.slen <= |data|
      && list[k].decompress(r.page, r.slen) == data[..r.slen]
      && (mode.ByPriority? ==> NonePack(data, room, k))
      && (mode.BySize? ==> Best(data, room, |list|, k, p))
    }
  }

  /** jffs2_rtime_init: rtime is a sound compressor, and is registered with its priority. */
  method RtimeInit(reg: Registry) returns (c: Compressor, ghost k: nat)
    requires reg.Valid()
    modifies reg`list
    ensures reg.Valid() && fresh(c) && c.compr == COMPR_RTIME && c.priority == RTIME_PRIORITY && c.Enabled()
    ensures c.compress == Some(RtimePack) && c.decompress == RtimeUnpack
    ensures k <= |old(reg.list)| && Place(old(reg.list), RTIME_PRIORITY, k)
    ensures reg.list == old(reg.list)[..k] + [c] + old(reg.list)[k..]
  {
    c := new Compressor("rtime", COMPR_RTIME, Some(RtimePack), RtimeUnpack, RTIME_PRIORITY);
    RtimeIsSound();
    k := reg.Register(c);
  }
}
