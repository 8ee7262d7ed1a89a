/** Byte strings, digests and file metadata (pkg/protocol/types.go,
    pkg/protocol/constants.go), and the arithmetic of cutting a file into chunks.
    SHA-256 is a function parameter wherever it is used. */
module Protocol {
  newtype Byte = b: int | 0 <= b < 256
  type Bytes = seq<Byte>
  type Digest = seq<Byte>
  type HashFunction = Bytes -> Digest

  const MIN_CHUNK_SIZE := 256 * 1024
  const DEFAULT_CHUNK_SIZE := 512 * 1024
  const MAX_CHUNK_SIZE := 1024 * 1024

  const U32 := 0x1_0000_0000
  const I64 := 0x8000_0000_0000_0000
  const U64 := 0x1_0000_0000_0000_0000

  datatype ChunkInfo = ChunkInfo(hash: Digest, index: nat, size: nat, offset: nat)

  datatype FileMetadata = FileMetadata(
    hash: Digest, size: nat, chunkSize: nat, chunkCount: nat, chunks: seq<ChunkInfo>, fallbackURL: string)

  /** A content identifier is the chunk's digest in another coat. */
  datatype Cid = Cid(digest: Digest)

  function ChunkCIDs(chunks: seq<ChunkInfo>): (r: seq<Cid>)
    ensures |r| == |chunks| && forall i :: 0 <= i < |chunks| ==> r[i] == Cid(chunks[i].hash)
  {
    seq(|chunks|, i requires 0 <= i < |chunks| => Cid(chunks[i].hash))
  }

  /** The hypothesis under which equal digests mean equal bytes. */
  predicate NoCollision(hash: HashFunction, a: Bytes, b: Bytes) {
    hash(a) == hash(b) ==> a == b
  }

  lemma SmallMod(x: nat, m: nat)
    requires x < m
    ensures x % m == x
  {
  }

  function Min(a: int, b: int): int { if a < b then a else b }

  /** The number of chunks, as the program computes it. */
  function CeilDiv(size: nat, chunkSize: nat): nat
    requires chunkSize > 0
  {
    (size + chunkSize - 1) / chunkSize
  }

  /** Where chunk `i` starts: `i` chunk sizes into the file. */
  function Offset(i: nat, chunkSize: nat): nat {
    if i == 0 then 0 else Offset(i - 1, chunkSize) + chunkSize
  }

  lemma {:induction false} OffsetIsProduct(i: nat, chunkSize: nat)
    ensures Offset(i, chunkSize) == i * chunkSize
    decreases i
  {
    if i > 0 {
      OffsetIsProduct(i - 1, chunkSize);
      assert i * chunkSize == (i - 1) * chunkSize + chunkSize;
    }
  }

  lemma {:induction false} OffsetMonotone(i: nat, j: nat, chunkSize: nat)
    requires i < j
    ensures Offset(i, chunkSize) + chunkSize <= Offset(j, chunkSize)
    decreases j
  {
    if i < j - 1 { OffsetMonotone(i, j - 1, chunkSize); }
  }

  /** `CeilDiv` is the count of the chunks that start inside the file. */
  lemma CeilDivCounts(size: nat, chunkSize: nat, i: nat)
    requires chunkSize > 0
    ensures i < CeilDiv(size, chunkSize) <==> Offset(i, chunkSize) < size
  {
    var n := size + chunkSize - 1;
    var q := n / chunkSize;
    OffsetIsProduct(q, chunkSize);
    assert n == q * chunkSize + n % chunkSize;
    if i < q { OffsetMonotone(i, q, chunkSize); }
    if q < i { OffsetMonotone(q, i, chunkSize); }
  }

  /** `n` chunks reach the end of the file and fewer do not. */
  predicate Covers(size: nat, chunkSize: nat, n: nat) {
    size <= Offset(n, chunkSize) && (n > 0 ==> Offset(n - 1, chunkSize) < size)
  }

  /** The ceiling formula gives exactly the number of chunks that cover a file. */
  lemma CoversIffCeilDiv(size: nat, chunkSize: nat, n: nat)
    requires chunkSize > 0
    ensures Covers(size, chunkSize, n) <==> n == CeilDiv(size, chunkSize)
  {
    CeilDivCounts(size, chunkSize, n);
    if n > 0 { CeilDivCounts(size, chunkSize, n - 1); }
  }

  /** The bytes of chunk `i`: only the last one may be short. */
  function Piece(data: Bytes, chunkSize: nat, i: nat): (r: Bytes)
    requires Offset(i, chunkSize) <= |data|
  {
    data[Offset(i, chunkSize)..Min(Offset(i, chunkSize) + chunkSize, |data|)]
  }
}
