/** One file all the way: loaded by a seeder, registered with the tracker,
    looked up by another machine and downloaded from the seeder's store
    (cmd/cli/commands.go, pkg/tracker/handler.go, pkg/client/tracker.go). */
module EndToEnd {
  import opened Wrappers
  import opened Protocol
  import C = ChunkerModel
  import D = DownloaderModel
  import S = SeederModel
  import T = TrackerStore

  /** Hexadecimal, or any other way to name a digest. */
  type Naming = Digest -> string

  /** What the command line registers for a file. */
  function RequestOf(m: FileMetadata, name: Naming): T.RegisterRequest {
    T.RegisterRequest(name(m.hash), m.size, m.chunkSize, m.chunkCount, m.chunks, m.fallbackURL)
  }

  /** The row as the tracker's handler casts it and its client hands it on. */
  function ReplyOf(row: T.FileRow, asked: Digest): FileMetadata {
    FileMetadata(asked, row.size % U64, row.chunkSize % U32, row.chunkCount % U32,
                 if row.chunks.Some? then row.chunks.value else [], row.fallbackURL)
  }

  /** From call `i` to call `k` nobody registers the name again. */
  predicate NotRegisteredAgain(ops: seq<T.Op>, h: string, i: nat, k: nat)
    requires k <= |ops|
  {
    forall j :: i < j < k && ops[j].Register? ==> ops[j].req.hash != h
  }

  lemma {:induction false} RowStays(ss: seq<T.State>, ops: seq<T.Op>, i: nat, k: nat)
    requires T.Behaviour(ss, ops) && i < k <= |ops| && ops[i].Register?
    requires NotRegisteredAgain(ops, ops[i].req.hash, i, k)
    ensures var h := ops[i].req.hash; h in ss[k].files && ss[k].files[h] == T.NewFileRow(ss[i], ops[i].req)
    decreases k
  {
    assert T.Step(ss[k - 1], ops[k - 1], ss[k]);
    if i < k - 1 { RowStays(ss, ops, i, k - 1); }
  }

  /** Registering and looking up, in any run of the store with anything in
      between, gives back the metadata. */
  lemma {:induction false} LookupGivesMetadata(m: FileMetadata, name: Naming, ss: seq<T.State>, ops: seq<T.Op>, i: nat, k: nat)
    requires m.size < U64 && m.chunkSize < U32 && m.chunkCount < U32
    requires T.Behaviour(ss, ops) && i < k < |ops| && ops[i] == T.Register(RequestOf(m, name))
    requires NotRegisteredAgain(ops, name(m.hash), i, k) && ops[k].GetFile? && ops[k].hash == name(m.hash)
    ensures ops[k].file.Some? && ReplyOf(ops[k].file.value, m.hash) == m
  {
    RowStays(ss, ops, i, k);
    T.GetFileIsLookup(ss, ops, k);
    SmallMod(m.size, U64);
    SmallMod(m.chunkSize, U32);
    SmallMod(m.chunkCount, U32);
  }

  /** Every block that arrives was asked for and comes from the store. */
  predicate ServedFrom(store: map<Cid, Bytes>, cids: seq<Cid>, events: seq<D.Event>) {
    forall i :: 0 <= i < |events| && events[i].BlockArrives? ==>
      events[i].cid in cids && events[i].cid in store && events[i].data == store[events[i].cid]
  }

  /** What is there under a chunk's identifier is the piece of the file. */
  predicate OnlyPieces(m: FileMetadata, data: Bytes, blocks: map<Cid, Bytes>) {
    forall i :: 0 <= i < |m.chunks| && Cid(m.chunks[i].hash) in blocks ==>
      Offset(i, m.chunkSize) <= |data| && blocks[Cid(m.chunks[i].hash)] == Piece(data, m.chunkSize, i)
  }

  lemma {:induction false} ServedPieces(m: FileMetadata, data: Bytes, store: map<Cid, Bytes>, p: D.PeerAttempt)
    requires S.HasPieces(m, data, store, |m.chunks|) && ServedFrom(store, ChunkCIDs(m.chunks), p.events)
    ensures OnlyPieces(m, data, D.ReceivedBlocks(m, p))
  {
    forall i | 0 <= i < |m.chunks| && Cid(m.chunks[i].hash) in D.ReceivedBlocks(m, p)
      ensures Offset(i, m.chunkSize) <= |data| && D.ReceivedBlocks(m, p)[Cid(m.chunks[i].hash)] == Piece(data, m.chunkSize, i)
    {
      D.ReceivedInStore(|m.chunks|, p.events, store, Cid(m.chunks[i].hash));
    }
  }

  /** Whether the transfer completes, from what the peers, the exchange and the
      disk do. */
  predicate Completes(m: FileMetadata, p: D.PeerAttempt) {
    && p.peers > 0 && p.connected > 0 && p.requestOk && !p.createFails
    && (p.diskFails.Some? ==> p.diskFails.value >= |m.chunks|)
    && if m.chunks == [] then p.events != [] && p.events[0] == D.ChannelClosed
       else D.Distinct(ChunkCIDs(m.chunks)) && forall c :: c in ChunkCIDs(m.chunks) ==> c in D.Arrivals(p.events)
  }

  lemma {:induction false} CompleteMatches(hash: HashFunction, m: FileMetadata, data: Bytes, blocks: map<Cid, Bytes>)
    requires C.Describes(m, hash, data) && OnlyPieces(m, data, blocks)
    requires blocks.Keys == D.SetOf(ChunkCIDs(m.chunks))
    ensures D.BlocksMatch(hash, m.chunks, blocks)
  {
    forall i | 0 <= i < |m.chunks| ensures D.BlockMatches(hash, m.chunks[i], blocks) {
      assert ChunkCIDs(m.chunks)[i] in D.SetOf(ChunkCIDs(m.chunks));
      assert C.DescribesPiece(hash, data, m.chunkSize, m.chunks[i], i);
    }
  }

  /** A transfer of a described file from a store that holds its pieces succeeds
      if and only if every block arrives in time, no two chunks are equal and the
      disk holds out. */
  lemma {:induction false} TransferFromStore(
      hash: HashFunction, m: FileMetadata, data: Bytes, store: map<Cid, Bytes>, p: D.PeerAttempt)
    requires C.Describes(m, hash, data) && S.HasPieces(m, data, store, |m.chunks|)
    requires ServedFrom(store, ChunkCIDs(m.chunks), p.events)
    ensures D.PeersSucceed(hash, m, p) <==> Completes(m, p)
  {
    var cids := ChunkCIDs(m.chunks);
    if m.chunks == [] {
      D.EmptyRequestCompletesIff(p.events);
    } else {
      D.PeersCompleteIff(cids, p.events);
      if Completes(m, p) {
        ServedPieces(m, data, store, p);
        CompleteMatches(hash, m, data, D.ReceivedBlocks(m, p));
      }
    }
  }

  /** The same for the whole download: with the tracker's metadata, from a store
      that holds the pieces, a completed transfer ends with the file. */
  lemma {:induction false} DownloadFromStore(
      hash: HashFunction, m: FileMetadata, data: Bytes, store: map<Cid, Bytes>,
      m0: FileMetadata, p: D.PeerAttempt, h: D.HttpAttempt, hashFails: bool)
    requires C.Describes(m, hash, data) && S.HasPieces(m, data, store, |m.chunks|)
    requires ServedFrom(store, ChunkCIDs(m.chunks), p.events)
    requires m0.hash == m.hash && p.reply == Some(m)
    ensures D.PeersSucceed(hash, D.Refreshed(m0, p.reply), p) <==> Completes(m, p)
    ensures Completes(m, p) ==> D.DownloadResult(hash, m0, p, h, hashFails) == if hashFails then None else Some(data)
  {
    var m1 := D.Refreshed(m0, p.reply);
    assert S.HasPieces(m1, data, store, |m1.chunks|);
    TransferFromStore(hash, m1, data, store, p);
    if Completes(m, p) {
      ServedPieces(m1, data, store, p);
      D.PeersYieldTheFile(hash, data, m0, p, h, hashFails);
    }
  }

  /** A load that succeeds for an unchanged file leaves all its pieces. */
  lemma {:induction false} LoadedStoreHasPieces(
      hash: HashFunction, m: FileMetadata, data: Bytes, later: nat -> Bytes, before: map<Cid, Bytes>, fault: Option<S.StoreFault>)
    requires C.Describes(m, hash, data) && |data| < I64
    requires forall i: nat :: i < |m.chunks| ==> later(i) == data
    requires S.StoreSound(hash, before) && S.AllClean(hash, m, data, before)
    requires forall i :: 0 <= i < |m.chunks| ==>
      Offset(i, m.chunkSize) <= |data| && S.Clean(hash, m, data, Piece(data, m.chunkSize, i))
    requires S.LoadEnd(m.chunks, later, before, fault).1
    ensures S.HasPieces(m, data, S.LoadEnd(m.chunks, later, before, fault).0, |m.chunks|)
  {
    S.LoadCompletesStore(hash, m, data, later, before);
  }

  /** Load, register, look up, download.  `m` and `store` are what
      `LoadFileFromDisk` returns and leaves for an unchanged file, whatever sound
      store it starts from; the file is registered and looked up in any run of
      the tracker's store; the peers serve from the seeder's store.  Then the
      peers' transfer succeeds exactly when it completes, and the download is that
      file. */
  lemma {:induction false} SeededFileArrives(
      hash: HashFunction, data: Bytes, m: FileMetadata, url: string, later: nat -> Bytes,
      before: map<Cid, Bytes>, fault: Option<S.StoreFault>, store: map<Cid, Bytes>,
      name: Naming, ss: seq<T.State>, ops: seq<T.Op>, i: nat, k: nat,
      m0: FileMetadata, p: D.PeerAttempt, h: D.HttpAttempt, hashFails: bool)
    // the seeder
    requires S.LoadEnds(hash, data, m, url, later, before, fault, store, true) && |data| < I64
    requires forall j: nat :: j < |m.chunks| ==> later(j) == data
    requires S.StoreSound(hash, before) && S.AllClean(hash, m, data, before)
    requires forall j :: 0 <= j < |m.chunks| ==>
      Offset(j, m.chunkSize) <= |data| && S.Clean(hash, m, data, Piece(data, m.chunkSize, j))
    // the tracker
    requires T.Behaviour(ss, ops) && i < k < |ops| && ops[i] == T.Register(RequestOf(m, name))
    requires NotRegisteredAgain(ops, name(m.hash), i, k) && ops[k].GetFile? && ops[k].hash == name(m.hash)
    // the downloader
    requires m0.hash == m.hash && (ops[k].file.Some? ==> p.reply == Some(ReplyOf(ops[k].file.value, m0.hash)))
    requires ServedFrom(store, ChunkCIDs(m.chunks), p.events)
    ensures D.PeersSucceed(hash, D.Refreshed(m0, p.reply), p) <==> Completes(m, p)
    ensures Completes(m, p) ==> D.DownloadResult(hash, m0, p, h, hashFails) == if hashFails then None else Some(data)
  {
    LookupGivesMetadata(m, name, ss, ops, i, k);
    LoadedStoreHasPieces(hash, m, data, later, before, fault);
    DownloadFromStore(hash, m, data, store, m0, p, h, hashFails);
  }

  /** And when the transfer does not complete: for a caller who knows only the
      hash, with the URL that was loaded and registered, an origin that serves the
      file in full over ranges makes the download that file all the same. */
  lemma {:induction false} SeededFileArrivesFromOrigin(
      hash: HashFunction, data: Bytes, m: FileMetadata, url: string, later: nat -> Bytes,
      before: map<Cid, Bytes>, fault: Option<S.StoreFault>, store: map<Cid, Bytes>,
      name: Naming, ss: seq<T.State>, ops: seq<T.Op>, i: nat, k: nat,
      m0: FileMetadata, p: D.PeerAttempt, h: D.HttpAttempt, hashFails: bool)
    requires S.LoadEnds(hash, data, m, url, later, before, fault, store, true) && url != "" && |data| < I64 && |m.chunks| < U32
    requires T.Behaviour(ss, ops) && i < k < |ops| && ops[i] == T.Register(RequestOf(m, name))
    requires NotRegisteredAgain(ops, name(m.hash), i, k) && ops[k].GetFile? && ops[k].hash == name(m.hash)
    requires m0.hash == m.hash && m0.size == 0 && (ops[k].file.Some? ==> p.reply == Some(ReplyOf(ops[k].file.value, m0.hash)))
    requires h.reply == None || h.reply == p.reply
    requires !D.PeersSucceed(hash, D.Told(m0.hash, m0.fallbackURL, m), p)
    requires h.head == D.Ranges && !h.createFails
    requires var c := D.Pool.Config(|data|, 512 * 1024, |m.chunks|, 4); var end := D.Pool.Run(c, D.Pool.Start(c), h.schedule);
      && end.Some? && D.Pool.Finished(end.value)
      && D.Pool.FullRun(c, D.Pool.Start(c), data, h.schedule) && D.Pool.Uncancelled(h.schedule)
    ensures D.DownloadResult(hash, m0, p, h, hashFails) == if hashFails then None else Some(data)
  {
    SmallMod(|m.chunks|, U32);
    LookupGivesMetadata(m, name, ss, ops, i, k);
    assert p.reply == Some(m) && m.(hash := m0.hash) == m;
    D.DownloadByHashSucceeds(hash, data, m0, m, p, h, hashFails);
  }
}
