/** The captured bytes of src/devkit/data/CapturedMemoryBlock.cpp: up to eight bytes are kept in the block,
    more are kept in a buffer that several blocks may share and that counts them. */
module SharedMemory {
  import opened Basics
  import opened MatchingBits

  const INLINE_SIZE := 8

  /** What a block holds: small contents itself, or a pointer to a buffer (an address). */
  datatype Block = Block(size: nat, inline: seq<Byte>, buffer: int)

  datatype Buffer = Buffer(references: nat, hash: bv32, bytes: seq<Byte>)

  predicate IsAllocated(b: Block) {
    b.size > INLINE_SIZE
  }

  ghost predicate PointsAt(b: Block, p: int) {
    IsAllocated(b) && b.buffer == p
  }

  ghost function Pointing(blocks: map<int, Block>, p: int): set<int> {
    set id | id in blocks && PointsAt(blocks[id], p)
  }

  lemma PointingWithout(blocks: map<int, Block>, id: int, p: int)
    ensures |Pointing(blocks - {id}, p)| == |Pointing(blocks, p)| - One(id in blocks && PointsAt(blocks[id], p))
  {
    assert Pointing(blocks - {id}, p) == Pointing(blocks, p) - {id};
  }

  lemma PointingWith(blocks: map<int, Block>, id: int, b: Block, p: int)
    ensures |Pointing(blocks[id := b], p)|
         == |Pointing(blocks, p)| - One(id in blocks && PointsAt(blocks[id], p)) + One(PointsAt(b, p))
  {
    PointingWithout(blocks, id, p);
    var rest := blocks - {id};
    assert Pointing(blocks[id := b], p) == if PointsAt(b, p) then Pointing(rest, p) + {id} else Pointing(rest, p);
  }

  ghost predicate BlockOk(b: Block, buffers: map<int, Buffer>) {
    if IsAllocated(b) then b.buffer in buffers && |buffers[b.buffer].bytes| == b.size else |b.inline| == INLINE_SIZE
  }

  /** Each pointed-to buffer is there, with as many bytes as the block says, and each buffer counts the
      blocks that point at it, at least one. */
  ghost predicate Counted(blocks: map<int, Block>, buffers: map<int, Buffer>) {
    && (forall id :: id in blocks ==> BlockOk(blocks[id], buffers))
    && (forall p :: p in buffers ==> buffers[p].references == |Pointing(blocks, p)| && buffers[p].references > 0)
  }

  function Bytes(b: Block, buffers: map<int, Buffer>): seq<Byte> {
    if IsAllocated(b) then (if b.buffer in buffers then buffers[b.buffer].bytes else [])
    else if b.size <= |b.inline| then b.inline[..b.size] else []
  }

  /** One reference more. */
  function Retain(buffers: map<int, Buffer>, p: int): map<int, Buffer>
    requires p in buffers
  {
    buffers[p := buffers[p].(references := buffers[p].references + 1)]
  }

  /** One reference less; the buffer is freed with the last one. */
  function Release(buffers: map<int, Buffer>, p: int): map<int, Buffer>
    requires p in buffers && buffers[p].references > 0
  {
    if buffers[p].references == 1 then buffers - {p}
    else buffers[p := buffers[p].(references := buffers[p].references - 1)]
  }

  lemma NobodyPoints(blocks: map<int, Block>, buffers: map<int, Buffer>, p: int)
    requires Counted(blocks, buffers) && p !in buffers
    ensures Pointing(blocks, p) == {}
  {
    forall id ensures id !in Pointing(blocks, p) {
      assert id in blocks ==> BlockOk(blocks[id], buffers);
    }
  }

  /** A buffer with one reference has no second block pointing at it. */
  lemma SoleOwner(blocks: map<int, Block>, buffers: map<int, Buffer>, id: int, j: int)
    requires Counted(blocks, buffers) && id in blocks && j in blocks && j != id
    requires IsAllocated(blocks[id]) && PointsAt(blocks[j], blocks[id].buffer)
    ensures buffers[blocks[id].buffer].references > 1
  {
    PointingWithout(blocks, id, blocks[id].buffer);
    assert j in Pointing(blocks - {id}, blocks[id].buffer);
  }

  // ----- Steps on the counts

  lemma AddInline(blocks: map<int, Block>, buffers: map<int, Buffer>, id: int, b: Block)
    requires Counted(blocks, buffers) && id !in blocks && !IsAllocated(b) && BlockOk(b, buffers)
    ensures Counted(blocks[id := b], buffers)
  {
    forall p ensures |Pointing(blocks[id := b], p)| == |Pointing(blocks, p)| {
      PointingWith(blocks, id, b, p);
    }
  }

  lemma AddOwner(blocks: map<int, Block>, buffers: map<int, Buffer>, id: int, b: Block, a: Buffer)
    requires Counted(blocks, buffers) && id !in blocks && IsAllocated(b) && b.buffer !in buffers
    requires a.references == 1 && |a.bytes| == b.size
    ensures Counted(blocks[id := b], buffers[b.buffer := a])
  {
    var after := buffers[b.buffer := a];
    forall p | p in after ensures after[p].references == |Pointing(blocks[id := b], p)| {
      PointingWith(blocks, id, b, p);
      if p == b.buffer {
        NobodyPoints(blocks, buffers, p);
      }
    }
  }

  lemma AddSharer(blocks: map<int, Block>, buffers: map<int, Buffer>, id: int, b: Block)
    requires Counted(blocks, buffers) && id !in blocks && IsAllocated(b) && BlockOk(b, buffers)
    ensures Counted(blocks[id := b], Retain(buffers, b.buffer))
  {
    forall p | p in buffers ensures Retain(buffers, b.buffer)[p].references == |Pointing(blocks[id := b], p)| {
      PointingWith(blocks, id, b, p);
    }
  }

  lemma RemoveBlock(blocks: map<int, Block>, buffers: map<int, Buffer>, id: int)
    requires Counted(blocks, buffers) && id in blocks
    ensures IsAllocated(blocks[id]) ==> blocks[id].buffer in buffers && buffers[blocks[id].buffer].references > 0
    ensures Counted(blocks - {id}, if IsAllocated(blocks[id]) then Release(buffers, blocks[id].buffer) else buffers)
  {
    var b := blocks[id];
    var after := if IsAllocated(b) then Release(buffers, b.buffer) else buffers;
    forall p | p in after ensures after[p].references == |Pointing(blocks - {id}, p)| && after[p].references > 0 {
      PointingWithout(blocks, id, p);
    }
    forall j | j in blocks - {id} ensures BlockOk(blocks[j], after) {
      if IsAllocated(b) && PointsAt(blocks[j], b.buffer) {
        SoleOwner(blocks, buffers, id, j);
      }
    }
  }

  /** Taking a reference to another buffer before giving up the own one keeps the counts, whether or not
      the two are the same. */
  lemma Repoint(blocks: map<int, Block>, buffers: map<int, Buffer>, id: int, p: int)
    requires Counted(blocks, buffers) && id in blocks && IsAllocated(blocks[id])
    requires p in buffers && |buffers[p].bytes| == blocks[id].size
    ensures blocks[id].buffer in buffers && buffers[blocks[id].buffer].references > 0
    ensures Counted(blocks[id := blocks[id].(buffer := p)], Release(Retain(buffers, p), blocks[id].buffer))
  {
    var b := blocks[id].(buffer := p);
    var after := Release(Retain(buffers, p), blocks[id].buffer);
    forall q | q in after ensures after[q].references == |Pointing(blocks[id := b], q)| && after[q].references > 0 {
      PointingWith(blocks, id, b, q);
    }
    var blocksAfter := blocks[id := b];
    forall j | j in blocksAfter ensures BlockOk(blocksAfter[j], after) {
      if j != id && PointsAt(blocks[j], blocks[id].buffer) {
        SoleOwner(blocks, buffers, id, j);
      }
    }
  }

  /** All blocks but one are as they were and show the bytes they showed before. */
  ghost predicate Unseen(blocks: map<int, Block>, buffers: map<int, Buffer>, blocksAfter: map<int, Block>,
                         buffersAfter: map<int, Buffer>, except: int) {
    forall j :: j in blocks && j != except ==>
                  && j in blocksAfter && blocksAfter[j] == blocks[j]
                  && Bytes(blocksAfter[j], buffersAfter) == Bytes(blocks[j], buffers)
  }

  /** Another block with a buffer of the same size, the given hash and the same bytes. */
  ghost predicate Alike(blocks: map<int, Block>, buffers: map<int, Buffer>, id: int, other: int, hash: bv32) {
    && id in blocks && other in blocks && other != id && blocks[other].size == blocks[id].size
    && blocks[other].buffer in buffers && blocks[id].buffer in buffers
    && buffers[blocks[other].buffer].hash == hash
    && buffers[blocks[other].buffer].bytes == buffers[blocks[id].buffer].bytes
  }

  /** All captured blocks and the buffers that are allocated for them. */
  class CapturedMemory {
    var blocks: map<int, Block>
    var buffers: map<int, Buffer>

    ghost predicate Valid()
      reads this
    {
      Counted(blocks, buffers)
    }

    constructor ()
      ensures Valid() && blocks == map[] && buffers == map[]
    {
      blocks, buffers := map[], map[];
    }

    /** Makes a block; `p` is where its buffer was allocated, if it needs one, and `contents` is what lies there. */
    method Construct(id: int, size: nat, p: int, contents: seq<Byte>)
      requires Valid() && id !in blocks && p !in buffers
      requires |contents| == if size > 8 then size else 8
      modifies this
      ensures Valid() && blocks.Keys == old(blocks).Keys + {id}
      ensures Bytes(blocks[id], buffers) == contents[..size] && blocks[id].size == size
      ensures size > 8 ==> blocks[id].buffer == p && p in buffers && buffers[p].references == 1
      ensures size > 8 ==> forall j :: j in blocks && PointsAt(blocks[j], p) ==> j == id
      ensures buffers == if size > 8 then old(buffers)[p := buffers[p]] else old(buffers)
      ensures Unseen(old(blocks), old(buffers), blocks, buffers, id)
    {
      if size > INLINE_SIZE {
        var a := Buffer(1, 0, contents);
        AddOwner(blocks, buffers, id, Block(size, [], p), a);
        buffers := buffers[p := a];
        blocks := blocks[id := Block(size, [], p)];
      } else {
        AddInline(blocks, buffers, id, Block(size, contents, 0));
        blocks := blocks[id := Block(size, contents, 0)];
      }
    }

    /** Writes the bytes of a block through its pointer: a buffer that is shared changes for all who share
        it, one with a single reference for this block alone. */
    method Fill(id: int, contents: seq<Byte>)
      requires Valid() && id in blocks && |contents| == blocks[id].size
      modifies this
      ensures Valid() && blocks.Keys == old(blocks).Keys && Bytes(blocks[id], buffers) == contents
      ensures forall j :: j in blocks && j != id ==>
                            Bytes(blocks[j], buffers)
                            == if IsAllocated(blocks[id]) && PointsAt(blocks[j], blocks[id].buffer) then contents
                            else Bytes(old(blocks)[j], old(buffers))
      ensures IsAllocated(old(blocks)[id]) && old(buffers)[old(blocks)[id].buffer].references == 1 ==>
                Unseen(old(blocks), old(buffers), blocks, buffers, id)
    {
      var b := blocks[id];
      if IsAllocated(b) {
        forall j | j in blocks && j != id && PointsAt(blocks[j], b.buffer) ensures buffers[b.buffer].references > 1 {
          SoleOwner(blocks, buffers, id, j);
        }
        buffers := buffers[b.buffer := buffers[b.buffer].(bytes := contents)];
      } else {
        var written := b.(inline := contents + b.inline[b.size..]);
        forall p ensures |Pointing(blocks[id := written], p)| == |Pointing(blocks, p)| {
          PointingWith(blocks, id, written, p);
        }
        blocks := blocks[id := written];
      }
    }

    /** The copy shares the buffer of the original. */
    method Copy(id: int, other: int)
      requires Valid() && id !in blocks && other in blocks
      modifies this
      ensures Valid() && blocks.Keys == old(blocks).Keys + {id}
      ensures Bytes(blocks[id], buffers) == Bytes(old(blocks)[other], old(buffers))
      ensures IsAllocated(blocks[other]) ==> blocks[id].buffer == blocks[other].buffer
      ensures Unseen(old(blocks), old(buffers), blocks, buffers, id)
    {
      var b := blocks[other];
      if IsAllocated(b) {
        AddSharer(blocks, buffers, id, b);
        buffers := Retain(buffers, b.buffer);
      } else {
        AddInline(blocks, buffers, id, b);
      }
      blocks := blocks[id := b];
    }

    /** The new block takes the buffer over; the old one is left with nothing. */
    method Move(id: int, other: int)
      requires Valid() && id !in blocks && other in blocks
      modifies this
      ensures Valid() && blocks.Keys == old(blocks).Keys + {id}
      ensures Bytes(blocks[id], buffers) == Bytes(old(blocks)[other], old(buffers))
      ensures IsAllocated(old(blocks)[other]) ==> Bytes(blocks[other], buffers) == []
      ensures buffers == old(buffers)
      ensures forall j :: j in old(blocks) && j != other ==> blocks[j] == old(blocks)[j]
    {
      var b := blocks[other];
      if IsAllocated(b) {
        var empty := Block(0, [0, 0, 0, 0, 0, 0, 0, 0], 0);
        forall p ensures |Pointing(blocks[other := empty][id := b], p)| == |Pointing(blocks, p)| {
          PointingWith(blocks, other, empty, p);
          PointingWith(blocks[other := empty], id, b, p);
        }
        blocks := blocks[other := empty];
      }
      if !IsAllocated(b) {
        AddInline(blocks, buffers, id, b);
      }
      blocks := blocks[id := b];
    }

    /** Gives up the block and its reference; the last one frees the buffer. */
    method Destroy(id: int)
      requires Valid() && id in blocks
      modifies this
      ensures Valid() && blocks == old(blocks) - {id}
      ensures Unseen(old(blocks), old(buffers), blocks, buffers, id)
      ensures forall p :: p in old(buffers) && p !in buffers ==>
                            PointsAt(old(blocks)[id], p) && forall j :: j in blocks ==> !PointsAt(blocks[j], p)
    {
      RemoveBlock(blocks, buffers, id);
      var b := blocks[id];
      if IsAllocated(b) {
        forall j | j in blocks && j != id && PointsAt(blocks[j], b.buffer) ensures buffers[b.buffer].references > 1 {
          SoleOwner(blocks, buffers, id, j);
        }
        buffers := Release(buffers, b.buffer);
      }
      blocks := blocks - {id};
    }

    /** Points a block at another buffer with the same bytes. */
    method PointAt(id: int, p: int)
      requires Valid() && id in blocks && IsAllocated(blocks[id]) && p in buffers
      requires buffers[p].bytes == buffers[blocks[id].buffer].bytes
      modifies this
      ensures Valid() && blocks == old(blocks)[id := old(blocks)[id].(buffer := p)]
      ensures forall j :: j in blocks ==> Bytes(blocks[j], buffers) == Bytes(old(blocks)[j], old(buffers))
      ensures buffers.Keys <= old(buffers).Keys
    {
      var q := blocks[id].buffer;
      Repoint(blocks, buffers, id, p);
      forall j | j in blocks && j != id && PointsAt(blocks[j], q) ensures buffers[q].references > 1 {
        SoleOwner(blocks, buffers, id, j);
      }
      buffers := Retain(buffers, p);
      blocks := blocks[id := blocks[id].(buffer := p)];
      buffers := Release(buffers, q);
    }

    /** Looks among other blocks for one with the same size, hash and bytes and shares the buffer of the
        first one found; if there is none, remembers the hash. */
    method ShareMemory(id: int, vBlocks: seq<int>, nHash: bv32) returns (ghost found: Option<nat>)
      requires Valid() && id in blocks && forall i :: 0 <= i < |vBlocks| ==> vBlocks[i] in blocks
      modifies this
      ensures Valid() && blocks.Keys == old(blocks).Keys
      ensures forall j :: j in blocks ==> Bytes(blocks[j], buffers) == Bytes(old(blocks)[j], old(buffers))
      ensures forall j :: j in blocks && j != id ==> blocks[j] == old(blocks)[j]
      ensures buffers.Keys <= old(buffers).Keys
      ensures !IsAllocated(old(blocks)[id]) ==> found.None? && buffers == old(buffers) && blocks == old(blocks)
      ensures found.Some? ==>
                found.value < |vBlocks| && Alike(old(blocks), old(buffers), id, vBlocks[found.value], nHash)
                && blocks[id] == old(blocks)[id].(buffer := old(blocks)[vBlocks[found.value]].buffer)
      ensures IsAllocated(old(blocks)[id]) ==> forall i :: 0 <= i < (if found.Some? then found.value else |vBlocks|) ==>
                                                             !Alike(old(blocks), old(buffers), id, vBlocks[i], nHash)
      ensures found.None? && IsAllocated(old(blocks)[id]) ==>
                blocks == old(blocks)
                && buffers == old(buffers)[blocks[id].buffer := old(buffers)[blocks[id].buffer].(hash := nHash)]
    {
      found := None;
      if !IsAllocated(blocks[id]) {
        return;
      }
      for i := 0 to |vBlocks|
        invariant blocks == old(blocks) && buffers == old(buffers)
        invariant forall k :: 0 <= k < i ==> !Alike(blocks, buffers, id, vBlocks[k], nHash)
      {
        var b := blocks[vBlocks[i]];
        if b.size == blocks[id].size && vBlocks[i] != id && buffers[b.buffer].hash == nHash
           && buffers[b.buffer].bytes == buffers[blocks[id].buffer].bytes {
          PointAt(id, b.buffer);
          found := Some(i);
          return;
        }
      }
      var p := blocks[id].buffer;
      buffers := buffers[p := buffers[p].(hash := nHash)];
    }
  }
}
