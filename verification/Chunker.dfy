/** Cutting files into chunks and putting them together again
    (pkg/storage/chunker.go). */
module ChunkerModel {
  import opened Wrappers
  import opened Protocol

  /** Entry `i` describes the bytes found `i` chunk sizes into the file. */
  predicate DescribesPiece(hash: HashFunction, data: Bytes, chunkSize: nat, c: ChunkInfo, i: nat) {
    && Offset(i, chunkSize) < |data|
    && c.offset == Offset(i, chunkSize)
    && c.hash == hash(Piece(data, chunkSize, i))
    && c.size == |Piece(data, chunkSize, i)|
  }

  /** Chunk indices and counts are 32 bits wide. */
  predicate Numbered(chunks: seq<ChunkInfo>) {
    forall i :: 0 <= i < |chunks| ==> chunks[i].index == i % U32
  }

  /** The chunks of a file tile it. */
  predicate Tiles(hash: HashFunction, data: Bytes, chunkSize: nat, chunks: seq<ChunkInfo>, n: nat)
    requires chunkSize > 0
  {
    && |chunks| == n
    && forall i :: 0 <= i < n ==> DescribesPiece(hash, data, chunkSize, chunks[i], i)
  }

  predicate Describes(m: FileMetadata, hash: HashFunction, data: Bytes) {
    && m.chunkSize > 0
    && m.hash == hash(data) && m.size == |data|
    && Covers(|data|, m.chunkSize, |m.chunks|)
    && Tiles(hash, data, m.chunkSize, m.chunks, |m.chunks|)
  }

  lemma TilesExtend(hash: HashFunction, data: Bytes, chunkSize: nat, chunks: seq<ChunkInfo>, c: ChunkInfo)
    requires chunkSize > 0 && Tiles(hash, data, chunkSize, chunks, |chunks|)
    requires DescribesPiece(hash, data, chunkSize, c, |chunks|)
    ensures Tiles(hash, data, chunkSize, chunks + [c], |chunks| + 1)
  {
  }

  lemma PieceExtends(data: Bytes, chunkSize: nat, n: nat)
    requires Offset(n, chunkSize) <= |data|
    ensures data[..Offset(n, chunkSize)] + Piece(data, chunkSize, n) == data[..Min(Offset(n + 1, chunkSize), |data|)]
  {
  }

  /** The tiling seen without the bytes. */
  predicate Shaped(chunks: seq<ChunkInfo>, size: nat, chunkSize: nat) {
    forall i :: 0 <= i < |chunks| ==>
      && chunks[i].offset == Offset(i, chunkSize) < size
      && chunks[i].size == Min(chunkSize, size - Offset(i, chunkSize))
  }

  lemma DescribedIsShaped(m: FileMetadata, hash: HashFunction, data: Bytes)
    requires Describes(m, hash, data)
    ensures Shaped(m.chunks, m.size, m.chunkSize) && Covers(m.size, m.chunkSize, |m.chunks|)
  {
  }

  function SumSizes(chunks: seq<ChunkInfo>, n: nat): nat
    requires n <= |chunks|
  {
    if n == 0 then 0 else SumSizes(chunks, n - 1) + chunks[n - 1].size
  }

  lemma {:induction false} SizesAddUp(chunks: seq<ChunkInfo>, size: nat, chunkSize: nat, n: nat)
    requires Shaped(chunks, size, chunkSize) && n <= |chunks|
    ensures SumSizes(chunks, n) == Min(Offset(n, chunkSize), size)
    decreases n
  {
    if n > 0 { SizesAddUp(chunks, size, chunkSize, n - 1); }
  }

  /** The shape of a described file: offsets follow on from one another, every
      chunk but the last is full, none is empty, and the sizes add up. */
  lemma TilingShape(m: FileMetadata, hash: HashFunction, data: Bytes)
    requires Describes(m, hash, data)
    ensures forall i :: 0 <= i < |m.chunks| ==> 0 < m.chunks[i].size <= m.chunkSize
    ensures forall i :: 0 <= i < |m.chunks| - 1 ==>
      m.chunks[i].size == m.chunkSize && m.chunks[i + 1].offset == m.chunks[i].offset + m.chunks[i].size
    ensures SumSizes(m.chunks, |m.chunks|) == m.size
  {
    DescribedIsShaped(m, hash, data);
    ShapeFollowsOn(m.chunks, m.size, m.chunkSize);
    SizesAddUp(m.chunks, m.size, m.chunkSize, |m.chunks|);
  }

  lemma ShapeFollowsOn(chunks: seq<ChunkInfo>, size: nat, chunkSize: nat)
    requires Shaped(chunks, size, chunkSize) && chunkSize > 0
    ensures forall i :: 0 <= i < |chunks| ==> 0 < chunks[i].size <= chunkSize
    ensures forall i :: 0 <= i < |chunks| - 1 ==>
      chunks[i].size == chunkSize && chunks[i + 1].offset == chunks[i].offset + chunks[i].size
  {
    forall i | 0 <= i < |chunks| - 1
      ensures chunks[i].size == chunkSize && chunks[i + 1].offset == chunks[i].offset + chunks[i].size
    {
      assert chunks[i + 1].offset == Offset(i, chunkSize) + chunkSize;
    }
  }

  /** The same numbers by formula: offsets are multiples of the chunk size and
      the count is the ceiling that the HTTP fallback relies on. */
  lemma TilingNumbers(m: FileMetadata, hash: HashFunction, data: Bytes, i: nat)
    requires Describes(m, hash, data)
    ensures i < |m.chunks| ==> m.chunks[i].offset == i * m.chunkSize
    ensures |m.chunks| == CeilDiv(m.size, m.chunkSize)
  {
    DescribedIsShaped(m, hash, data);
    OffsetIsProduct(i, m.chunkSize);
    CoversIffCeilDiv(m.size, m.chunkSize, |m.chunks|);
  }

  class Chunker {
    const chunkSize: nat

    /** The requested size, clamped to what the protocol allows. */
    constructor (requested: nat)
      ensures MIN_CHUNK_SIZE == 262_144 <= chunkSize <= MAX_CHUNK_SIZE == 1_048_576
      ensures MIN_CHUNK_SIZE <= requested <= MAX_CHUNK_SIZE ==> chunkSize == requested
      ensures requested < MIN_CHUNK_SIZE ==> chunkSize == MIN_CHUNK_SIZE
      ensures requested > MAX_CHUNK_SIZE ==> chunkSize == MAX_CHUNK_SIZE
    {
      var size := requested;
      if size < MIN_CHUNK_SIZE { size := MIN_CHUNK_SIZE; }
      if size > MAX_CHUNK_SIZE { size := MAX_CHUNK_SIZE; }
      chunkSize := size;
    }
  }

  /** Half way through a file: the chunks so far tile what has been read. */
  predicate Progress(hash: HashFunction, data: Bytes, chunkSize: nat, chunks: seq<ChunkInfo>, fileData: Bytes)
    requires chunkSize > 0
  {
    && Tiles(hash, data, chunkSize, chunks, |chunks|)
    && (|chunks| > 0 ==> Offset(|chunks| - 1, chunkSize) < |data|)
    && fileData == data[..Min(Offset(|chunks|, chunkSize), |data|)]
  }

  lemma ProgressStep(hash: HashFunction, data: Bytes, chunkSize: nat, chunks: seq<ChunkInfo>, fileData: Bytes, c: ChunkInfo)
    requires chunkSize > 0 && Progress(hash, data, chunkSize, chunks, fileData) && |fileData| < |data|
    requires var piece := data[|fileData|..Min(|fileData| + chunkSize, |data|)];
      c.offset == |fileData| && c.hash == hash(piece) && c.size == |piece|
    ensures var piece := data[|fileData|..Min(|fileData| + chunkSize, |data|)];
      Progress(hash, data, chunkSize, chunks + [c], fileData + piece)
  {
    var n := |chunks|;
    assert |fileData| == Offset(n, chunkSize);
    assert data[|fileData|..Min(|fileData| + chunkSize, |data|)] == Piece(data, chunkSize, n);
    TilesExtend(hash, data, chunkSize, chunks, c);
    PieceExtends(data, chunkSize, n);
  }

  lemma NumberedStep(chunks: seq<ChunkInfo>, c: ChunkInfo)
    requires Numbered(chunks) && c.index == |chunks| % U32
    ensures Numbered(chunks + [c]) && (c.index + 1) % U32 == (|chunks| + 1) % U32
  {
  }

  lemma ReadPastEnd(chunkSize: nat, size: nat, n: nat, at: nat)
    requires size <= Offset(n, chunkSize) && n < at
    ensures at > 0 && size <= Offset(at - 1, chunkSize)
  {
    if n < at - 1 { OffsetMonotone(n, at - 1, chunkSize); }
  }

  /** Read a file piece by piece and describe it; a read error at some piece
      yields no metadata. */
  method ChunkReader(hash: HashFunction, chunkSize: nat, data: Bytes, fallbackURL: string, failsAt: Option<nat>)
    returns (r: Result<FileMetadata, string>)
    requires chunkSize > 0 && |data| < U64
    ensures r.Err? <==> failsAt.Some? && (failsAt.value == 0 || Offset(failsAt.value - 1, chunkSize) < |data|)
    ensures r.Ok? ==> Describes(r.value, hash, data) && Numbered(r.value.chunks)
    ensures r.Ok? ==> r.value.chunkCount == |r.value.chunks| % U32
    ensures r.Ok? ==> r.value.chunkSize == chunkSize && r.value.fallbackURL == fallbackURL
  {
    var chunks: seq<ChunkInfo> := [];
    var fileData: Bytes := [];
    var totalSize, index := 0, 0;
    while true
      invariant Progress(hash, data, chunkSize, chunks, fileData) && Numbered(chunks)
      invariant totalSize == |fileData| && index == |chunks| % U32
      invariant failsAt.Some? ==> failsAt.value >= |chunks|
      decreases |data| - |fileData|
    {
      if failsAt == Some(|chunks|) {
        return Err("failed to read chunk");
      }
      if totalSize == |data| {
        break;
      }
      var piece := data[totalSize..Min(totalSize + chunkSize, |data|)];
      var chunk := ChunkInfo(hash(piece), index, |piece|, totalSize);
      ProgressStep(hash, data, chunkSize, chunks, fileData, chunk);
      NumberedStep(chunks, chunk);
      SmallMod(totalSize + |piece|, U64);
      fileData := fileData + piece;
      chunks := chunks + [chunk];
      totalSize := (totalSize + |piece|) % U64;
      index := (index + 1) % U32;
    }
    assert fileData == data;
    if failsAt.Some? { ReadPastEnd(chunkSize, |data|, |chunks|, failsAt.value); }
    return Ok(FileMetadata(hash(fileData), totalSize, chunkSize, |chunks| % U32, chunks, fallbackURL));
  }

  type BlockReader = Digest -> Result<Bytes, string>

  predicate ChunkAccepted(hash: HashFunction, c: ChunkInfo, read: BlockReader) {
    read(c.hash).Ok? && hash(read(c.hash).value) == c.hash && |read(c.hash).value| % U32 == c.size
  }

  /** The bytes a reader delivers for the first chunks, joined in order. */
  function Delivered(chunks: seq<ChunkInfo>, read: BlockReader, n: nat): Bytes
    requires n <= |chunks|
    requires forall i :: 0 <= i < n ==> read(chunks[i].hash).Ok?
  {
    if n == 0 then [] else Delivered(chunks, read, n - 1) + read(chunks[n - 1].hash).value
  }

  predicate AllAccepted(hash: HashFunction, m: FileMetadata, read: BlockReader) {
    forall i :: 0 <= i < |m.chunks| ==> ChunkAccepted(hash, m.chunks[i], read)
  }

  /** Where the disk gives up: creating the file, writing a chunk, flushing, or
      reading the file back to hash it. */
  datatype DiskFaults = DiskFaults(createFails: bool, writeFails: Option<nat>, syncFails: bool, hashFails: bool)

  predicate DiskHoldsOut(d: DiskFaults, writes: nat) {
    !d.createFails && (d.writeFails.Some? ==> d.writeFails.value >= writes) && !d.syncFails && !d.hashFails
  }

  /** Reassembly succeeds just when nothing interrupts it, the disk holds out,
      every chunk is delivered and checks out, and the whole hashes to the file's
      digest; the file then holds what was delivered, in order. */
  method ReassembleFile(hash: HashFunction, m: FileMetadata, read: BlockReader, interruptedAt: Option<nat>, disk: DiskFaults)
    returns (ok: bool, file: Bytes)
    ensures ok <==>
      && (interruptedAt == None || interruptedAt.value >= |m.chunks|)
      && DiskHoldsOut(disk, |m.chunks|)
      && AllAccepted(hash, m, read)
      && hash(Delivered(m.chunks, read, |m.chunks|)) == m.hash
    ensures ok ==> AllAccepted(hash, m, read) && file == Delivered(m.chunks, read, |m.chunks|)
    ensures ok <==>
      && (interruptedAt.Some? ==> interruptedAt.value >= |m.chunks|)
      && !disk.createFails && (disk.writeFails.Some? ==> disk.writeFails.value >= |m.chunks|) && !disk.syncFails && !disk.hashFails
      && (forall i :: 0 <= i < |m.chunks| ==> var b := read(m.chunks[i].hash);
            b.Ok? && hash(b.value) == m.chunks[i].hash && |b.value| % U32 == m.chunks[i].size)
      && hash(Delivered(m.chunks, read, |m.chunks|)) == m.hash
  {
    file := [];
    if disk.createFails { return false, file; }
    for i := 0 to |m.chunks|
      invariant forall j :: 0 <= j < i ==> ChunkAccepted(hash, m.chunks[j], read)
      invariant disk.writeFails.Some? ==> disk.writeFails.value >= i
      invariant file == Delivered(m.chunks, read, i)
      invariant interruptedAt.Some? ==> interruptedAt.value >= i
    {
      if interruptedAt == Some(i) { return false, file; }
      var data := read(m.chunks[i].hash);
      if data.Err? { return false, file; }
      if hash(data.value) != m.chunks[i].hash { return false, file; }
      if |data.value| % U32 != m.chunks[i].size { return false, file; }
      if disk.writeFails == Some(i) { return false, file; }
      file := file + data.value;
    }
    if disk.syncFails { return false, file; }
    if disk.hashFails { return false, file; }
    ok := hash(file) == m.hash;
  }

  /** A reader that hands out the chunks of the file. */
  predicate Honest(m: FileMetadata, data: Bytes, read: BlockReader) {
    forall i :: 0 <= i < |m.chunks| ==>
      Offset(i, m.chunkSize) <= |data| && read(m.chunks[i].hash) == Ok(Piece(data, m.chunkSize, i))
  }

  lemma {:induction false} DeliveredPrefix(m: FileMetadata, data: Bytes, read: BlockReader, n: nat)
    requires Honest(m, data, read) && n <= |m.chunks|
    ensures Delivered(m.chunks, read, n) == data[..Min(Offset(n, m.chunkSize), |data|)]
    decreases n
  {
    if n > 0 {
      DeliveredPrefix(m, data, read, n - 1);
      PieceExtends(data, m.chunkSize, n - 1);
    }
  }

  lemma PiecesDelivered(m: FileMetadata, hash: HashFunction, data: Bytes, read: BlockReader)
    requires Describes(m, hash, data) && Honest(m, data, read)
    ensures Delivered(m.chunks, read, |m.chunks|) == data
  {
    DeliveredPrefix(m, data, read, |m.chunks|);
    assert data[..|data|] == data;
  }

  /** Chunking and reassembling undo each other: with an honest reader every
      check of `ReassembleFile` passes and the file is the original. */
  lemma RoundTrip(m: FileMetadata, hash: HashFunction, data: Bytes, read: BlockReader)
    requires Describes(m, hash, data) && m.chunkSize < U32
    requires Honest(m, data, read)
    ensures AllAccepted(hash, m, read)
    ensures Delivered(m.chunks, read, |m.chunks|) == data
    ensures hash(Delivered(m.chunks, read, |m.chunks|)) == m.hash
  {
    PiecesDelivered(m, hash, data, read);
    forall i | 0 <= i < |m.chunks| ensures ChunkAccepted(hash, m.chunks[i], read) {
      assert DescribesPiece(hash, data, m.chunkSize, m.chunks[i], i);
      SmallMod(|Piece(data, m.chunkSize, i)|, U32);
    }
  }

  /** Any reader at all: what the chunk checks let through is the original file,
      given that no delivered block collides with the piece it stands for. */
  lemma AcceptedMeansOriginal(m: FileMetadata, hash: HashFunction, data: Bytes, read: BlockReader)
    requires Describes(m, hash, data) && AllAccepted(hash, m, read)
    requires forall i :: 0 <= i < |m.chunks| ==>
      Offset(i, m.chunkSize) <= |data| && NoCollision(hash, read(m.chunks[i].hash).value, Piece(data, m.chunkSize, i))
    ensures Delivered(m.chunks, read, |m.chunks|) == data
  {
    forall i | 0 <= i < |m.chunks| ensures read(m.chunks[i].hash) == Ok(Piece(data, m.chunkSize, i)) {
      assert ChunkAccepted(hash, m.chunks[i], read);
      assert DescribesPiece(hash, data, m.chunkSize, m.chunks[i], i);
      assert NoCollision(hash, read(m.chunks[i].hash).value, Piece(data, m.chunkSize, i));
    }
    PiecesDelivered(m, hash, data, read);
  }

  /** Seek, then read up to `size` bytes; hitting the end is not an error. */
  function ReadChunk(data: Bytes, offset: nat, size: nat): Result<Bytes, string> {
    if offset >= I64 then Err("failed to seek")
    else if offset >= |data| then Ok([])
    else Ok(data[offset..Min(offset + size, |data|)])
  }

  /** `ReadChunk` cuts exactly the piece that the metadata describes. */
  lemma ReadChunkCutsPiece(m: FileMetadata, hash: HashFunction, data: Bytes, i: nat)
    requires Describes(m, hash, data) && |data| < I64 && i < |m.chunks|
    ensures Offset(i, m.chunkSize) <= |data|
    ensures ReadChunk(data, m.chunks[i].offset, m.chunks[i].size) == Ok(Piece(data, m.chunkSize, i))
    ensures hash(Piece(data, m.chunkSize, i)) == m.chunks[i].hash
  {
  }
}
