/**
 * The on-disk layout of the boot file system (BFS): a flat image of
 * 512-byte blocks, one of which holds a directory table of sixteen packed
 * 32-byte nodes.  Each node names a file and gives the block range it occupies.
 *
 * The original declares the 32-bit fields in host byte order; this model fixes
 * little-endian order for them.
 */
module Bfs {

  /** One byte of the image. */
  type Byte = b: int | 0 <= b < 0x100

  /** `bfs_block_t` and the reserved fields: C `unsigned`, 32 bits wide. */
  type U32 = x: int | 0 <= x < 0x1_0000_0000

  const U32Modulus: int := 0x1_0000_0000

  /** Size of one block of the image, in bytes. */
  const BlockSize: nat := 512

  /** Size of the name field of a node; a name of this length has no terminator. */
  const NameLength: nat := 16

  /** `sizeof(bfs_node_t)`: the record is packed, so the fields add up exactly. */
  const NodeSize: nat := NameLength + 4 * 4

  /** Number of nodes in the directory table: as many as fit in one block. */
  const NodeCount: nat := BlockSize / NodeSize

  /** The 16-byte name field of a node. */
  type Name = s: seq<Byte> | |s| == NameLength witness seq(16, _ => 0)

  /** `bfs_node_t`. */
  datatype Node = Node(name: Name, blockOffset: U32, blockCount: U32, res1: U32, res2: U32)

  function Zeros(n: nat): (r: seq<Byte>)
    ensures |r| == n
    ensures forall i :: 0 <= i < n ==> r[i] == 0
  {
    seq(n, _ => 0)
  }

  /** A node as left by `memset(..., 0, ...)`. */
  const ZeroNode: Node := Node(Zeros(NameLength), 0, 0, 0, 0)

  /** The node table after `memset(nodes, 0, ...)`. */
  function ZeroTable(): (t: seq<Node>)
    ensures |t| == NodeCount && forall k :: 0 <= k < |t| ==> t[k] == ZeroNode
  {
    seq(NodeCount, _ => ZeroNode)
  }

  /** The directory table is exactly one block: sixteen nodes of 32 bytes. */
  lemma TableFillsOneBlock()
    ensures NodeSize == 32 && NodeCount == 16
    ensures NodeCount * NodeSize == BlockSize
  {
  }

  // ----- 32-bit fields, little-endian -----

  /** A field as four bytes, least significant first (its inverse is
      `DecodeU32`, by the two lemmas below). */
  function EncodeU32(x: U32): (r: seq<Byte>)
    ensures |r| == 4
  {
    [x % 0x100, (x / 0x100) % 0x100, (x / 0x1_0000) % 0x100, x / 0x100_0000]
  }

  /** Four bytes as a field: the first is the low byte, the last the high byte. */
  function DecodeU32(b: seq<Byte>): (x: U32)
    requires |b| == 4
    ensures x % 0x100 == b[0] && x / 0x100_0000 == b[3]
  {
    b[0] as int + 0x100 * b[1] as int + 0x1_0000 * b[2] as int + 0x100_0000 * b[3] as int
  }

  lemma DecodeEncodeU32(x: U32)
    ensures DecodeU32(EncodeU32(x)) == x
  {
    var b := EncodeU32(x);
    assert x / 0x100 == b[1] + 0x100 * (x / 0x1_0000);
    assert x / 0x1_0000 == b[2] as int + 0x100 * b[3] as int;
  }

  lemma EncodeDecodeU32(b: seq<Byte>)
    requires |b| == 4
    ensures EncodeU32(DecodeU32(b)) == b
  {
    var x := DecodeU32(b);
    assert x % 0x100 == b[0] && x / 0x100 == b[1] as int + 0x100 * b[2] as int + 0x1_0000 * b[3] as int;
    var y := x / 0x100;
    assert y % 0x100 == b[1] && y / 0x100 == b[2] as int + 0x100 * b[3] as int;
    assert x / 0x1_0000 == y / 0x100;
    assert x / 0x100_0000 == (y / 0x100) / 0x100;
  }

  // ----- nodes -----

  /** The packed record: name at bytes 0-15, block_offset at 16-19, block_count at 20-23,
      res1 at 24-27, res2 at 28-31. */
  function EncodeNode(n: Node): (r: seq<Byte>)
    ensures |r| == NodeSize
    ensures r[..16] == n.name
    ensures r[16..20] == EncodeU32(n.blockOffset) && r[20..24] == EncodeU32(n.blockCount)
    ensures r[24..28] == EncodeU32(n.res1) && r[28..32] == EncodeU32(n.res2)
  {
    var r := n.name + EncodeU32(n.blockOffset) + EncodeU32(n.blockCount) + EncodeU32(n.res1) + EncodeU32(n.res2);
    assert r[28..32] == EncodeU32(n.res2);
    r
  }

  function DecodeNode(b: seq<Byte>): (n: Node)
    requires |b| == NodeSize
  {
    Node(b[..16], DecodeU32(b[16..20]), DecodeU32(b[20..24]), DecodeU32(b[24..28]), DecodeU32(b[28..32]))
  }

  lemma DecodeEncodeNode(n: Node)
    ensures DecodeNode(EncodeNode(n)) == n
  {
    DecodeEncodeU32(n.blockOffset);
    DecodeEncodeU32(n.blockCount);
    DecodeEncodeU32(n.res1);
    DecodeEncodeU32(n.res2);
  }

  lemma EncodeDecodeNode(b: seq<Byte>)
    requires |b| == NodeSize
    ensures EncodeNode(DecodeNode(b)) == b
  {
    EncodeDecodeU32(b[16..20]);
    EncodeDecodeU32(b[20..24]);
    EncodeDecodeU32(b[24..28]);
    EncodeDecodeU32(b[28..32]);
    assert b == b[..16] + b[16..20] + b[20..24] + b[24..28] + b[28..32];
  }

  /** A zeroed node is 32 zero bytes. */
  lemma ZeroNodeEncoding()
    ensures EncodeNode(ZeroNode) == Zeros(NodeSize)
  {
    assert EncodeU32(0) == Zeros(4);
  }

  // ----- the directory table -----

  /** The nodes one after another, as `fwrite(nodes, BFS_BLOCK_SIZE, 1, f)` emits them. */
  function EncodeTable(t: seq<Node>): (r: seq<Byte>)
    ensures |r| == |t| * NodeSize
  {
    if t == [] then [] else EncodeNode(t[0]) + EncodeTable(t[1..])
  }

  function DecodeTable(b: seq<Byte>): (t: seq<Node>)
    requires |b| % NodeSize == 0
    ensures |t| == |b| / NodeSize
    decreases |b|
  {
    if b == [] then [] else [DecodeNode(b[..NodeSize])] + DecodeTable(b[NodeSize..])
  }

  /** Node k of the table occupies bytes [32k, 32k + 32) of its encoding. */
  lemma {:induction false} EncodeTableSlot(t: seq<Node>, k: nat)
    requires k < |t|
    ensures EncodeTable(t)[k * NodeSize..(k + 1) * NodeSize] == EncodeNode(t[k])
  {
    if k > 0 {
      EncodeTableSlot(t[1..], k - 1);
      var r := EncodeTable(t);
      assert r == EncodeNode(t[0]) + EncodeTable(t[1..]);
      assert r[k * NodeSize..(k + 1) * NodeSize]
          == EncodeTable(t[1..])[(k - 1) * NodeSize..k * NodeSize];
    }
  }

  lemma {:induction false} DecodeEncodeTable(t: seq<Node>)
    ensures DecodeTable(EncodeTable(t)) == t
  {
    if t != [] {
      var r := EncodeTable(t);
      assert r[..NodeSize] == EncodeNode(t[0]);
      assert r[NodeSize..] == EncodeTable(t[1..]);
      DecodeEncodeNode(t[0]);
      DecodeEncodeTable(t[1..]);
    }
  }

  /** A full table of sixteen nodes is exactly one block. */
  lemma TableIsOneBlock(t: seq<Node>)
    requires |t| == NodeCount
    ensures |EncodeTable(t)| == BlockSize
  {
  }
}
