/** Downloading a file (pkg/client/downloader.go): try the peers, fall back to
    HTTP, verify the result.  The network is a list of events and responses. */
module DownloaderModel {
  import opened Wrappers
  import opened Protocol
  import opened HttpFetch
  import C = ChunkerModel
  import Pool = WorkerPool

  // ------------------------------------------------------ receiving the blocks

  datatype Event = BlockArrives(cid: Cid, data: Bytes) | ChannelClosed | NoProgress | Cancelled

  /** The receive loop from a given map of received blocks: the final map and
      whether all blocks are there.  Running out of events is the overall
      timeout. */
  function Receive(count: nat, received: map<Cid, Bytes>, events: seq<Event>): (map<Cid, Bytes>, bool)
    decreases |events|
  {
    if events == [] then (received, false)
    else match events[0]
      case BlockArrives(cid, data) =>
        var r := received[cid := data];
        if |r| == count then (r, true) else Receive(count, r, events[1..])
      case ChannelClosed => (received, |received| == count)
      case _ => (received, false)
  }

  /** The blocks that arrive before anything else happens. */
  function Arrivals(events: seq<Event>): set<Cid>
    decreases |events|
  {
    if events == [] || !events[0].BlockArrives? then {} else {events[0].cid} + Arrivals(events[1..])
  }

  /** The exchange delivers only blocks that were asked for. */
  predicate OnlyRequested(cids: seq<Cid>, events: seq<Event>) {
    forall e :: e in events && e.BlockArrives? ==> e.cid in cids
  }

  predicate Distinct(cids: seq<Cid>) {
    forall i, j :: 0 <= i < j < |cids| ==> cids[i] != cids[j]
  }

  function SetOf(cids: seq<Cid>): set<Cid> { set c | c in cids }

  /** A sequence has as many distinct elements as positions exactly when nothing
      repeats. */
  lemma {:induction false} SizeOfSet(cids: seq<Cid>)
    ensures |SetOf(cids)| <= |cids|
    ensures |SetOf(cids)| == |cids| <==> Distinct(cids)
    decreases |cids|
  {
    if cids == [] {
      assert SetOf(cids) == {};
    } else {
      var n := |cids| - 1;
      var init := cids[..n];
      SizeOfSet(init);
      assert cids == init + [cids[n]];
      assert SetOf(cids) == SetOf(init) + {cids[n]};
      if cids[n] in init {
        var i :| 0 <= i < n && init[i] == cids[n];
        assert cids[i] == cids[n];
      } else {
        assert forall i :: 0 <= i < n ==> cids[i] in init;
      }
      assert Distinct(cids) ==> Distinct(init);
    }
  }

  lemma SubsetSize<T>(a: set<T>, b: set<T>)
    requires a <= b
    ensures |a| <= |b| && (|a| == |b| ==> a == b)
  {
    assert b == a + (b - a);
  }

  lemma GrowStep<T>(keys: set<T>, x: T, rest: set<T>, bound: set<T>)
    requires keys <= bound && x in bound && rest <= bound
    ensures (keys + {x}) + rest == keys + ({x} + rest)
    ensures keys + {x} <= bound
    ensures |keys + {x}| <= |keys + ({x} + rest)| <= |bound|
  {
    SubsetSize(keys + {x}, keys + ({x} + rest));
    SubsetSize(keys + ({x} + rest), bound);
  }

  predicate Within(wanted: set<Cid>, events: seq<Event>) {
    forall e :: e in events && e.BlockArrives? ==> e.cid in wanted
  }

  lemma {:induction false} ArrivalsWithin(wanted: set<Cid>, events: seq<Event>)
    requires Within(wanted, events)
    ensures Arrivals(events) <= wanted
    decreases |events|
  {
    if events != [] && events[0].BlockArrives? {
      assert events[0] in events;
      ArrivalsWithin(wanted, events[1..]);
    }
  }

  lemma ReceiveStep(count: nat, received: map<Cid, Bytes>, events: seq<Event>)
    requires events != [] && events[0].BlockArrives?
    ensures var r := received[events[0].cid := events[0].data];
      && r.Keys == received.Keys + {events[0].cid} && |r| == |r.Keys|
      && Receive(count, received, events) == (if |r| == count then (r, true) else Receive(count, r, events[1..]))
      && Arrivals(events) == {events[0].cid} + Arrivals(events[1..])
  {
  }

  lemma ReceiveStops(count: nat, received: map<Cid, Bytes>, events: seq<Event>)
    requires events == [] || !events[0].BlockArrives?
    requires |received.Keys| < count
    ensures !Receive(count, received, events).1 && Receive(count, received, events).0 == received
    ensures received.Keys + Arrivals(events) == received.Keys
  {
  }

  /** The loop completes exactly when the keys it had and the blocks that arrive
      are as many as were asked for. */
  lemma {:induction false} ReceiveCounts(wanted: set<Cid>, count: nat, received: map<Cid, Bytes>, events: seq<Event>)
    requires Within(wanted, events) && |wanted| <= count
    requires received.Keys <= wanted && |received.Keys| < count
    ensures Receive(count, received, events).1 <==> |received.Keys + Arrivals(events)| == count
    ensures Receive(count, received, events).0.Keys <= wanted
    ensures Receive(count, received, events).1 ==> |Receive(count, received, events).0.Keys| == count
    decreases |events|
  {
    if events != [] && events[0].BlockArrives? {
      assert events[0] in events;
      ReceiveStep(count, received, events);
      ArrivalsWithin(wanted, events[1..]);
      GrowStep(received.Keys, events[0].cid, Arrivals(events[1..]), wanted);
      var r := received[events[0].cid := events[0].data];
      if |r| != count { ReceiveCounts(wanted, count, r, events[1..]); }
    } else {
      ReceiveStops(count, received, events);
    }
  }

  /** When a peer download completes: every requested block arrives in time and
      no two chunks are equal.  Then the received map has exactly one block for
      every chunk. */
  lemma {:induction false} PeersCompleteIff(cids: seq<Cid>, events: seq<Event>)
    requires cids != [] && OnlyRequested(cids, events)
    ensures Receive(|cids|, map[], events).1 <==> Distinct(cids) && forall c :: c in cids ==> c in Arrivals(events)
    ensures Receive(|cids|, map[], events).1 ==> Receive(|cids|, map[], events).0.Keys == SetOf(cids)
  {
    var none: map<Cid, Bytes> := map[];
    assert none.Keys == {};
    SizeOfSet(cids);
    ReceiveCounts(SetOf(cids), |cids|, none, events);
    ArrivalsWithin(SetOf(cids), events);
    var a := Arrivals(events);
    assert none.Keys + a == a;
    SubsetSize(a, SetOf(cids));
    assert a == SetOf(cids) <==> forall c :: c in cids ==> c in a;
    var r := Receive(|cids|, none, events).0;
    if Receive(|cids|, none, events).1 {
      SubsetSize(r.Keys, SetOf(cids));
    }
  }

  /** A file with two equal chunks never finishes through the peers. */
  lemma {:induction false} EqualChunksNeverFinish(chunks: seq<ChunkInfo>, events: seq<Event>, i: nat, j: nat)
    requires i < j < |chunks| && chunks[i].hash == chunks[j].hash
    requires OnlyRequested(ChunkCIDs(chunks), events)
    ensures !Receive(|chunks|, map[], events).1
  {
    var cids := ChunkCIDs(chunks);
    assert cids[i] == cids[j];
    PeersCompleteIff(cids, events);
  }

  /** An empty request completes exactly when the exchange closes its channel. */
  lemma EmptyRequestCompletesIff(events: seq<Event>)
    requires OnlyRequested([], events)
    ensures Receive(0, map[], events).1 <==> events != [] && events[0] == ChannelClosed
  {
  }

  /** The blocks received while the loop is still running. */
  function BlocksAfter(received: map<Cid, Bytes>, events: seq<Event>): map<Cid, Bytes>
    decreases |events|
  {
    if events == [] then received
    else BlocksAfter(if events[0].BlockArrives? then received[events[0].cid := events[0].data] else received, events[1..])
  }

  /** The byte counter that goes with them. */
  function DownloadedAfter(events: seq<Event>, chunkSize: nat): int {
    (|BlocksAfter(map[], events)| % U32) * chunkSize % U64
  }

  /** As long as blocks arrive and some are missing, these are the blocks that
      the receive loop holds. */
  lemma {:induction false} LoopHoldsBlocks(count: nat, received: map<Cid, Bytes>, events: seq<Event>)
    requires forall i :: 0 <= i < |events| ==> events[i].BlockArrives?
    requires !Receive(count, received, events).1
    ensures Receive(count, received, events).0 == BlocksAfter(received, events)
    decreases |events|
  {
    if events != [] {
      assert events[0].BlockArrives?;
      LoopHoldsBlocks(count, received[events[0].cid := events[0].data], events[1..]);
    }
  }

  lemma {:induction false} BlocksAppend(received: map<Cid, Bytes>, a: seq<Event>, b: seq<Event>)
    ensures BlocksAfter(received, a + b) == BlocksAfter(BlocksAfter(received, a), b)
    decreases |a|
  {
    if a == [] {
      assert a + b == b;
    } else {
      assert (a + b)[0] == a[0] && (a + b)[1..] == a[1..] + b;
      BlocksAppend(if a[0].BlockArrives? then received[a[0].cid := a[0].data] else received, a[1..], b);
    }
  }

  lemma {:induction false} BlocksOnlyGrow(wanted: set<Cid>, received: map<Cid, Bytes>, events: seq<Event>)
    requires Within(wanted, events) && received.Keys <= wanted
    ensures received.Keys <= BlocksAfter(received, events).Keys <= wanted
    decreases |events|
  {
    if events != [] {
      assert events[0] in events;
      BlocksOnlyGrow(wanted, if events[0].BlockArrives? then received[events[0].cid := events[0].data] else received, events[1..]);
    }
  }

  /** The byte counter that the progress monitor samples never goes down, so its
      unsigned subtraction never wraps. */
  lemma {:induction false} ProgressIsMonotone(cids: seq<Cid>, earlier: seq<Event>, since: seq<Event>, chunkSize: nat)
    requires OnlyRequested(cids, earlier) && OnlyRequested(cids, since)
    requires |cids| < U32 && chunkSize < U32
    ensures 0 <= DownloadedAfter(earlier, chunkSize) <= DownloadedAfter(earlier + since, chunkSize)
    ensures DownloadedAfter(earlier + since, chunkSize) == |BlocksAfter(map[], earlier + since)| * chunkSize
  {
    var none: map<Cid, Bytes> := map[];
    assert none.Keys == {};
    BlocksAppend(none, earlier, since);
    var a := BlocksAfter(none, earlier);
    var b := BlocksAfter(a, since);
    BlocksOnlyGrow(SetOf(cids), none, earlier);
    BlocksOnlyGrow(SetOf(cids), a, since);
    SizeOfSet(cids);
    assert |a| == |a.Keys| && |b| == |b.Keys|;
    SubsetSize(a.Keys, b.Keys);
    SubsetSize(b.Keys, SetOf(cids));
    ProductFits(|a|, |b|, chunkSize);
  }

  lemma ProductFits(a: nat, b: nat, c: nat)
    requires a <= b < U32 && c < U32
    ensures a * c <= b * c
    ensures (a % U32) * c % U64 == a * c && (b % U32) * c % U64 == b * c
  {
    SmallMod(a, U32);
    SmallMod(b, U32);
    ProductMonotone(a, b, c);
    ProductMonotone(b, U32, c);
    SmallMod(a * c, U64);
    SmallMod(b * c, U64);
  }

  lemma ProductMonotone(a: nat, b: nat, c: nat)
    requires a <= b
    ensures a * c <= b * c
  {
  }

  // -------------------------------------------------------------- reassembling

  function Reader(received: map<Cid, Bytes>): C.BlockReader {
    (d: Digest) => if Cid(d) in received then Ok(received[Cid(d)]) else Err("missing block")
  }

  predicate BlocksMatch(hash: HashFunction, chunks: seq<ChunkInfo>, received: map<Cid, Bytes>) {
    forall i :: 0 <= i < |chunks| ==> BlockMatches(hash, chunks[i], received)
  }

  predicate BlockMatches(hash: HashFunction, chunk: ChunkInfo, received: map<Cid, Bytes>) {
    Cid(chunk.hash) in received && hash(received[Cid(chunk.hash)]) == chunk.hash
  }

  /** Write the blocks in chunk order into a fresh file, checking each. */
  method ReassembleFile(hash: HashFunction, file: OsFile, chunks: seq<ChunkInfo>, received: map<Cid, Bytes>, diskFails: Option<nat>)
    returns (ok: bool)
    modifies file
    ensures ok <==> BlocksMatch(hash, chunks, received) && (diskFails == None || diskFails.value >= |chunks|)
    ensures ok ==> file.content == Some(C.Delivered(chunks, Reader(received), |chunks|))
  {
    file.Create();
    var cids := ChunkCIDs(chunks);
    for i := 0 to |cids|
      invariant forall j :: 0 <= j < i ==> BlockMatches(hash, chunks[j], received)
      invariant file.content == Some(C.Delivered(chunks, Reader(received), i))
      invariant diskFails.Some? ==> diskFails.value >= i
    {
      if cids[i] !in received { return false; }
      var data := received[cids[i]];
      if hash(data) != chunks[i].hash { return false; }
      if diskFails == Some(i) { return false; }
      file.Append(data);
    }
    return true;
  }

  // --------------------------------------------------------------- finding peers

  datatype AddrInfo = AddrInfo(id: string, addrs: seq<string>)

  /** Entry `i` is the first among those of its peer with the most addresses. */
  predicate BestAt(all: seq<AddrInfo>, n: nat, i: nat)
    requires n <= |all|
  {
    && i < n
    && (forall j :: 0 <= j < n && all[j].id == all[i].id ==> |all[j].addrs| <= |all[i].addrs|)
    && (forall j :: 0 <= j < i && all[j].id == all[i].id ==> |all[j].addrs| < |all[i].addrs|)
  }

  lemma BestStep(all: seq<AddrInfo>, n: nat, i: nat)
    requires n < |all| && BestAt(all, n, i)
    ensures all[n].id != all[i].id || |all[n].addrs| <= |all[i].addrs| ==> BestAt(all, n + 1, i)
    ensures all[n].id == all[i].id && |all[n].addrs| > |all[i].addrs| ==> BestAt(all, n + 1, n)
  {
  }

  /** One entry per peer found, none invented, and each the best there is;
      `best` says where it was found. */
  method UniquePeers(all: seq<AddrInfo>) returns (unique: map<string, AddrInfo>, ghost best: map<string, nat>)
    ensures forall i :: 0 <= i < |all| ==> all[i].id in unique
    ensures best.Keys == unique.Keys
    ensures forall id :: id in unique ==> BestAt(all, |all|, best[id]) && all[best[id]] == unique[id] && unique[id].id == id
  {
    unique, best := map[], map[];
    for n := 0 to |all|
      invariant best.Keys == unique.Keys
      invariant forall i :: 0 <= i < n ==> all[i].id in unique
      invariant forall id :: id in unique ==> BestAt(all, n, best[id]) && all[best[id]] == unique[id] && unique[id].id == id
    {
      var p := all[n];
      forall id | id in unique
        ensures p.id != id || |p.addrs| <= |unique[id].addrs| ==> BestAt(all, n + 1, best[id])
        ensures p.id == id && |p.addrs| > |unique[id].addrs| ==> BestAt(all, n + 1, n)
      {
        BestStep(all, n, best[id]);
      }
      if p.id !in unique || |p.addrs| > |unique[p.id].addrs| {
        unique, best := unique[p.id := p], best[p.id := n];
      }
    }
  }

  // -------------------------------------------------------- the whole download

  /** A refresh from the tracker: everything but the hash, and the URL only if
      the tracker has one. */
  function Refreshed(m: FileMetadata, reply: Option<FileMetadata>): FileMetadata {
    match reply
    case None => m
    case Some(r) =>
      m.(size := r.size, chunkSize := r.chunkSize, chunkCount := r.chunkCount, chunks := r.chunks,
         fallbackURL := if r.fallbackURL != "" then r.fallbackURL else m.fallbackURL)
  }

  /** What the peers, the network and the disk do during the peer attempt;
      `createFails` is the directory or the file. */
  datatype PeerAttempt = PeerAttempt(
    reply: Option<FileMetadata>, peers: nat, connected: nat, requestOk: bool,
    events: seq<Event>, createFails: bool, diskFails: Option<nat>)

  datatype Head = HeadError | Ranges | NoRanges

  /** What the origin, the disk and the scheduler do during the HTTP attempt;
      `createFails` is the directory, the file or its allocation. */
  datatype HttpAttempt = HttpAttempt(
    reply: Option<FileMetadata>, head: Head, createFails: bool,
    status: int, body: seq<Read>, cancelledAt: Option<nat>, fault: Option<WriteFault>, schedule: seq<Pool.Action>)

  const PARALLEL_CONNS := 4

  function PoolConfig(m: FileMetadata): Pool.Config {
    Pool.Config(m.size, m.chunkSize, m.chunkCount, PARALLEL_CONNS)
  }

  function ReceivedBlocks(m: FileMetadata, p: PeerAttempt): map<Cid, Bytes> {
    Receive(|m.chunks|, map[], p.events).0
  }

  predicate PeersSucceed(hash: HashFunction, m: FileMetadata, p: PeerAttempt) {
    && p.peers > 0 && p.connected > 0 && p.requestOk
    && Receive(|m.chunks|, map[], p.events).1
    && !p.createFails
    && BlocksMatch(hash, m.chunks, ReceivedBlocks(m, p))
    && (p.diskFails == None || p.diskFails.value >= |m.chunks|)
  }

  function PeersContent(hash: HashFunction, m: FileMetadata, p: PeerAttempt): Bytes
    requires PeersSucceed(hash, m, p)
  {
    C.Delivered(m.chunks, Reader(ReceivedBlocks(m, p)), |m.chunks|)
  }

  /** The metadata as the HTTP attempt uses them. */
  function HttpMetadata(m: FileMetadata, h: HttpAttempt): FileMetadata {
    if m.size == 0 then Refreshed(m, h.reply) else m
  }

  function PoolEnd(m: FileMetadata, h: HttpAttempt): Option<Pool.Pool> {
    var c := PoolConfig(m);
    var r := Pool.Run(c, Pool.Start(c), h.schedule);
    if r.Some? && Pool.Finished(r.value) then r else None
  }

  predicate HttpSucceeds(m: FileMetadata, h: HttpAttempt) {
    && m.fallbackURL != "" && !h.createFails
    && match h.head
       case HeadError => false
       case NoRanges => h.status == STATUS_OK && CopyCompletes(h.body, h.cancelledAt, h.fault)
       case Ranges => m.size < I64 && PoolEnd(m, h).Some? && PoolEnd(m, h).value.errs == 0
  }

  /** What the HTTP attempt leaves in the file: it depends on the responses
      alone, not on anything the file held before. */
  function HttpContent(m: FileMetadata, h: HttpAttempt): Bytes
    requires HttpSucceeds(m, h)
  {
    if h.head.NoRanges? then AllBytes(h.body[..LastRead(h.body) + 1]) else PoolEnd(m, h).value.file
  }

  /** The file that a successful download leaves, if it succeeds; `hashFails` is
      a read error while the file is hashed in the end. */
  function DownloadResult(hash: HashFunction, m: FileMetadata, p: PeerAttempt, h: HttpAttempt, hashFails: bool): Option<Bytes> {
    var m1 := Refreshed(m, p.reply);
    var m2 := HttpMetadata(m1, h);
    if hashFails then None
    else if PeersSucceed(hash, m1, p) then
      if hash(PeersContent(hash, m1, p)) == m1.hash then Some(PeersContent(hash, m1, p)) else None
    else if HttpSucceeds(m2, h) && hash(HttpContent(m2, h)) == m2.hash then Some(HttpContent(m2, h))
    else None
  }

  /** The metadata object that the caller, the download state and the fallback
      share. */
  class Metadata {
    var hash: Digest
    var size: nat
    var chunkSize: nat
    var chunkCount: nat
    var chunks: seq<ChunkInfo>
    var fallbackURL: string

    function View(): FileMetadata
      reads this
    {
      FileMetadata(hash, size, chunkSize, chunkCount, chunks, fallbackURL)
    }

    constructor (m: FileMetadata)
      ensures View() == m
    {
      hash, size, chunkSize, chunkCount, chunks, fallbackURL := m.hash, m.size, m.chunkSize, m.chunkCount, m.chunks, m.fallbackURL;
    }

    method Refresh(reply: Option<FileMetadata>)
      modifies this`size, this`chunkSize, this`chunkCount, this`chunks, this`fallbackURL
      ensures View() == Refreshed(old(View()), reply)
      ensures reply == None ==> View() == old(View())
      ensures reply.Some? ==>
        && size == reply.value.size && chunkSize == reply.value.chunkSize
        && chunkCount == reply.value.chunkCount && chunks == reply.value.chunks
        && fallbackURL == if reply.value.fallbackURL != "" then reply.value.fallbackURL else old(fallbackURL)
    {
      if reply.Some? {
        var r := reply.value;
        size, chunkSize, chunkCount, chunks := r.size, r.chunkSize, r.chunkCount, r.chunks;
        if r.fallbackURL != "" { fallbackURL := r.fallbackURL; }
      }
    }
  }

  datatype Status = Downloading | Complete | FailedStatus

  /** `Waiting` is a run whose schedule has not come to its end. */
  datatype Outcome = Done | Error | Waiting

  class DownloadState {
    const metadata: Metadata
    var downloaded: int
    var chunksComplete: int
    var usingFallback: bool
    var status: Status

    constructor (metadata: Metadata)
      ensures this.metadata == metadata && !usingFallback && status == Downloading && downloaded == chunksComplete == 0
    {
      this.metadata := metadata;
      downloaded, chunksComplete, usingFallback, status := 0, 0, false, Downloading;
    }

    /** The receive loop, keeping the progress figures. */
    method ReceiveBlocks(events: seq<Event>) returns (received: map<Cid, Bytes>, complete: bool)
      requires downloaded == chunksComplete == 0
      modifies this`downloaded, this`chunksComplete
      ensures (received, complete) == Receive(|metadata.chunks|, map[], events)
      ensures chunksComplete == |received| % U32 && downloaded == chunksComplete * metadata.chunkSize % U64
    {
      received := map[];
      var count := |metadata.chunks|;
      var i := 0;
      while i < |events|
        invariant 0 <= i <= |events|
        invariant Receive(count, map[], events) == Receive(count, received, events[i..])
        invariant chunksComplete == |received| % U32 && downloaded == chunksComplete * metadata.chunkSize % U64
      {
        match events[i] {
          case BlockArrives(cid, data) =>
            received := received[cid := data];
            chunksComplete := |received| % U32;
            downloaded := chunksComplete * metadata.chunkSize % U64;
            if |received| == count { return received, true; }
          case ChannelClosed => return received, |received| == count;
          case _ => return received, false;
        }
        assert events[i..][1..] == events[i + 1..];
        i := i + 1;
      }
      return received, false;
    }

    method DownloadP2P(hash: HashFunction, file: OsFile, p: PeerAttempt) returns (ok: bool)
      requires downloaded == chunksComplete == 0
      modifies this`downloaded, this`chunksComplete, file
      modifies metadata`size, metadata`chunkSize, metadata`chunkCount, metadata`chunks, metadata`fallbackURL
      ensures metadata.View() == Refreshed(old(metadata.View()), p.reply)
      ensures ok <==> PeersSucceed(hash, metadata.View(), p)
      ensures ok ==> file.content == Some(PeersContent(hash, metadata.View(), p))
    {
      metadata.Refresh(p.reply);
      if p.peers == 0 { return false; }
      if p.connected == 0 { return false; }
      if !p.requestOk { return false; }
      var received, complete := ReceiveBlocks(p.events);
      if !complete { return false; }
      if p.createFails { return false; }
      ok := ReassembleFile(hash, file, metadata.chunks, received, p.diskFails);
    }

    method DownloadHTTP(file: OsFile, h: HttpAttempt) returns (o: Outcome)
      modifies file
      modifies metadata`size, metadata`chunkSize, metadata`chunkCount, metadata`chunks, metadata`fallbackURL
      ensures metadata.View() == HttpMetadata(old(metadata.View()), h)
      ensures old(metadata.size) != 0 || h.reply == None ==> metadata.View() == old(metadata.View())
      ensures old(metadata.size) == 0 && h.reply.Some? ==>
        && metadata.size == h.reply.value.size && metadata.chunkSize == h.reply.value.chunkSize
        && metadata.chunkCount == h.reply.value.chunkCount && metadata.chunks == h.reply.value.chunks
        && metadata.fallbackURL == if h.reply.value.fallbackURL != "" then h.reply.value.fallbackURL else old(metadata.fallbackURL)
      ensures o == Done <==> HttpSucceeds(metadata.View(), h)
      ensures o == Done ==> file.content == Some(HttpContent(metadata.View(), h))
      ensures o == Waiting ==> h.head == Ranges && PoolEnd(metadata.View(), h) == None
      ensures metadata.fallbackURL == "" || h.head == HeadError ==> o == Error
      ensures metadata.fallbackURL != "" && h.head == NoRanges ==>
        && o == (if h.status == 200 && !h.createFails && (exists k :: 0 <= k < |h.body| && EndsAt(h.body, h.cancelledAt, h.fault, k))
                 then Done else Error)
        && (o == Done ==> file.content == Some(AllBytes(h.body[..LastRead(h.body) + 1])))
      ensures metadata.fallbackURL != "" && h.head == Ranges ==>
        if h.createFails || metadata.size >= I64 then o == Error
        else
          var c := Pool.Config(metadata.size, metadata.chunkSize, metadata.chunkCount, 4);
          var r := Pool.Run(c, Pool.Start(c), h.schedule);
          if r.Some? && Pool.Finished(r.value)
          then o == (if r.value.errs == 0 then Done else Error) && file.content == Some(r.value.file)
          else o == Waiting
    {
      CopyCompletesIff(h.body, h.cancelledAt, h.fault);
      if metadata.size == 0 { metadata.Refresh(h.reply); }
      if metadata.fallbackURL == "" { return Error; }
      match h.head {
        case HeadError => return Error;
        case NoRanges =>
          var ok := DownloadSingleConnection(file, h.status, h.createFails, h.body, h.cancelledAt, h.fault);
          return if ok then Done else Error;
        case Ranges =>
          o := DownloadParallel(file, PoolConfig(metadata.View()), h.createFails, h.schedule);
      }
    }

    /** Peers first, HTTP if that fails, and in the end the hash of the file.  A
        download succeeds exactly when `DownloadResult` has a file, and that file
        is what is on disk; the requested hash never changes. */
    method DownloadFile(hash: HashFunction, file: OsFile, p: PeerAttempt, h: HttpAttempt, hashFails: bool) returns (o: Outcome)
      requires downloaded == chunksComplete == 0 && !usingFallback && status == Downloading
      modifies this, file, metadata
      ensures metadata.hash == old(metadata.hash)
      ensures o == Done <==> DownloadResult(hash, old(metadata.View()), p, h, hashFails).Some?
      ensures o == Done ==> file.content == DownloadResult(hash, old(metadata.View()), p, h, hashFails)
      ensures o == Done ==> hash(file.content.value) == old(metadata.hash)
      ensures usingFallback <==> !PeersSucceed(hash, Refreshed(old(metadata.View()), p.reply), p)
      ensures status == match o case Done => Complete case Error => FailedStatus case Waiting => Downloading
    {
      var ok := DownloadP2P(hash, file, p);
      if !ok {
        usingFallback := true;
        o := DownloadHTTP(file, h);
        if o == Error { status := FailedStatus; }
        if o != Done { return; }
      }
      var verified := VerifyDownload(hash, file, metadata, hashFails);
      if !verified {
        status := FailedStatus;
        return Error;
      }
      status := Complete;
      return Done;
    }
  }

  method VerifyDownload(hash: HashFunction, file: OsFile, metadata: Metadata, readFails: bool) returns (ok: bool)
    ensures ok <==> file.content.Some? && !readFails && hash(file.content.value) == metadata.hash
  {
    if file.content == None { return false; }
    if readFails { return false; }
    return hash(file.content.value) == metadata.hash;
  }

  /** Create the file, give it its size, and let the workers run the schedule. */
  method DownloadParallel(file: OsFile, c: Pool.Config, createFails: bool, schedule: seq<Pool.Action>) returns (o: Outcome)
    modifies file
    ensures createFails || c.size >= I64 ==> o == Error
    ensures !createFails && c.size < I64 ==>
      var r := Pool.Run(c, Pool.Start(c), schedule);
      if r.Some? && Pool.Finished(r.value)
      then o == (if r.value.errs == 0 then Done else Error) && file.content == Some(r.value.file)
      else o == Waiting
  {
    if createFails { return Error; }
    file.Create();
    if c.size >= I64 { return Error; }
    file.Truncate(c.size);
    var s := Pool.Start(c);
    assert file.content.value == s.file;
    var i := 0;
    while i < |schedule|
      invariant 0 <= i <= |schedule| && file.content == Some(s.file)
      invariant Pool.Run(c, s, schedule[i..]) == Pool.Run(c, Pool.Start(c), schedule)
    {
      Pool.RunOne(c, s, schedule, i);
      if !Pool.Enabled(c, s, schedule[i]) { return Waiting; }
      s := Pool.Next(c, s, schedule[i]);
      file.content := Some(s.file);
      i := i + 1;
    }
    if Pool.Finished(s) {
      return if s.errs == 0 then Done else Error;
    }
    return Waiting;
  }

  // ------------------------------------------------------------------ theorems

  /** A peer download of a described file is the file: whatever the peers sent,
      the checks leave only the original bytes, given that no block collides with
      the piece it stands for.  So the final verification passes. */
  lemma PeersYieldTheFile(hash: HashFunction, data: Bytes, m: FileMetadata, p: PeerAttempt, h: HttpAttempt, hashFails: bool)
    requires var m1 := Refreshed(m, p.reply);
      && C.Describes(m1, hash, data) && PeersSucceed(hash, m1, p)
      && forall i :: 0 <= i < |m1.chunks| ==>
           && Offset(i, m1.chunkSize) <= |data|
           && NoCollision(hash, ReceivedBlocks(m1, p)[Cid(m1.chunks[i].hash)], Piece(data, m1.chunkSize, i))
    ensures DownloadResult(hash, m, p, h, hashFails) == if hashFails then None else Some(data)
  {
    var m1 := Refreshed(m, p.reply);
    var read := Reader(ReceivedBlocks(m1, p));
    forall i | 0 <= i < |m1.chunks| ensures read(m1.chunks[i].hash) == Ok(Piece(data, m1.chunkSize, i)) {
      assert C.DescribesPiece(hash, data, m1.chunkSize, m1.chunks[i], i);
      assert NoCollision(hash, ReceivedBlocks(m1, p)[Cid(m1.chunks[i].hash)], Piece(data, m1.chunkSize, i));
    }
    C.PiecesDelivered(m1, hash, data, read);
  }

  /** When the peers fail, for whatever reason and whatever they left in the
      file, an origin that honours ranges and holds the requested file makes the
      download succeed with exactly that file, for every schedule that ends
      without error. */
  lemma HonestFallbackYieldsTheFile(hash: HashFunction, origin: Bytes, m: FileMetadata, p: PeerAttempt, h: HttpAttempt, hashFails: bool)
    requires !PeersSucceed(hash, Refreshed(m, p.reply), p)
    requires var m2 := HttpMetadata(Refreshed(m, p.reply), h); var c := PoolConfig(m2);
      && h.head == Ranges && m2.size == |origin| && hash(origin) == m.hash
      && c.Valid() && HttpSucceeds(m2, h)
      && Pool.HonestRun(c, Pool.Start(c), origin, h.schedule)
    ensures DownloadResult(hash, m, p, h, hashFails) == if hashFails then None else Some(origin)
  {
    var m2 := HttpMetadata(Refreshed(m, p.reply), h);
    Pool.NilMeansOriginBytes(PoolConfig(m2), origin, h.schedule);
  }

  /** A ranged fallback that succeeds, with success as a conclusion: the peers
      fail, there is an origin, the file can be created, and the schedule comes to
      its end with every answer full, every write taken and nothing cancelled. */
  lemma {:induction false} RangedFallbackSucceeds(hash: HashFunction, origin: Bytes, m: FileMetadata, p: PeerAttempt, h: HttpAttempt, hashFails: bool)
    requires !PeersSucceed(hash, Refreshed(m, p.reply), p)
    requires var m2 := HttpMetadata(Refreshed(m, p.reply), h); var c := PoolConfig(m2); var r := Pool.Run(c, Pool.Start(c), h.schedule);
      && m2.fallbackURL != "" && m2.size == |origin| && hash(origin) == m.hash && c.Valid()
      && h.head == Ranges && !h.createFails
      && r.Some? && Pool.Finished(r.value)
      && Pool.FullRun(c, Pool.Start(c), origin, h.schedule) && Pool.Uncancelled(h.schedule)
    ensures DownloadResult(hash, m, p, h, hashFails) == if hashFails then None else Some(origin)
  {
    var m2 := HttpMetadata(Refreshed(m, p.reply), h);
    Pool.FullServiceSucceeds(PoolConfig(m2), origin, h.schedule);
  }

  /** What a tracker's answer `r` makes of metadata that are only a hash. */
  function Told(hash: Digest, url: string, r: FileMetadata): FileMetadata {
    FileMetadata(hash, r.size, r.chunkSize, r.chunkCount, r.chunks, if r.fallbackURL != "" then r.fallbackURL else url)
  }

  /** The download by hash: the caller knows the hash and perhaps a URL, the
      tracker describes the file, in the peer attempt or only in the HTTP attempt,
      the peers fail, and the origin serves in full over ranges.  The download is
      the file. */
  lemma {:induction false} DownloadByHashSucceeds(
      hash: HashFunction, origin: Bytes, m0: FileMetadata, r: FileMetadata, p: PeerAttempt, h: HttpAttempt, hashFails: bool)
    requires m0.size == 0 && m0.hash == hash(origin) && (r.fallbackURL != "" || m0.fallbackURL != "")
    requires C.Describes(r.(hash := m0.hash), hash, origin) && r.chunkCount == |r.chunks|
    requires r.chunkSize < U32 && r.chunkCount < U32 && r.size < I64
    requires (p.reply == Some(r) && (h.reply == None || h.reply == Some(r))) || (p.reply == None && h.reply == Some(r))
    requires !PeersSucceed(hash, if p.reply == None then m0 else Told(m0.hash, m0.fallbackURL, r), p)
    requires h.head == Ranges && !h.createFails
    requires var c := Pool.Config(r.size, r.chunkSize, r.chunkCount, 4); var end := Pool.Run(c, Pool.Start(c), h.schedule);
      && end.Some? && Pool.Finished(end.value)
      && Pool.FullRun(c, Pool.Start(c), origin, h.schedule) && Pool.Uncancelled(h.schedule)
    ensures DownloadResult(hash, m0, p, h, hashFails) == if hashFails then None else Some(origin)
  {
    var m2 := HttpMetadata(Refreshed(m0, p.reply), h);
    assert m2 == Told(m0.hash, m0.fallbackURL, r);
    C.DescribedIsShaped(r.(hash := m0.hash), hash, origin);
    RangedFallbackSucceeds(hash, origin, m0, p, h, hashFails);
  }

  /** Such an HTTP attempt exists for every described file. */
  lemma {:induction false} FullRangedService(hash: HashFunction, origin: Bytes, r: FileMetadata)
    requires C.Describes(r, hash, origin) && r.chunkCount == |r.chunks|
    requires r.chunkSize < U32 && r.chunkCount < U32 && r.size < I64
    ensures var c := Pool.Config(r.size, r.chunkSize, r.chunkCount, 4);
      var schedule := Pool.FullSchedule(c, origin); var end := Pool.Run(c, Pool.Start(c), schedule);
      && end.Some? && Pool.Finished(end.value)
      && Pool.FullRun(c, Pool.Start(c), origin, schedule) && Pool.Uncancelled(schedule)
  {
    C.DescribedIsShaped(r, hash, origin);
    Pool.FullServiceExists(Pool.Config(r.size, r.chunkSize, r.chunkCount, 4), origin);
  }

  /** How far into the body the first `k` reads go. */
  function Position(body: seq<Read>, k: nat): nat
    requires k <= |body|
  {
    if k == 0 then 0 else Position(body, k - 1) + |body[k - 1].bytes|
  }

  /** A plain GET of the origin, seen one read at a time: each read goes on where
      the one before ended, and a clean end comes at the end of the origin. */
  predicate ServesRead(body: seq<Read>, origin: Bytes, k: nat)
    requires k < |body|
  {
    var from, to := Position(body, k), Position(body, k + 1);
    to <= |origin| && body[k].bytes == origin[from..to] && (body[k].Last? ==> to == |origin|)
  }

  lemma {:induction false} ReadsAddUp(body: seq<Read>, origin: Bytes, k: nat)
    requires k <= |body| && forall i :: 0 <= i < k ==> ServesRead(body, origin, i)
    ensures Position(body, k) <= |origin| && AllBytes(body[..k]) == origin[..Position(body, k)]
    decreases k
  {
    if k > 0 {
      assert ServesRead(body, origin, k - 1);
      ReadsAddUp(body, origin, k - 1);
      OneMoreRead(body, k - 1);
      assert origin[..Position(body, k - 1)] + origin[Position(body, k - 1)..Position(body, k)] == origin[..Position(body, k)];
    } else {
      assert body[..0] == [];
    }
  }

  /** The same from an origin without range requests: whatever the sizes of its
      reads, a plain GET that the copy loop gets through yields exactly the
      file. */
  lemma {:induction false} HonestPlainGetYieldsTheFile(hash: HashFunction, origin: Bytes, m: FileMetadata, p: PeerAttempt, h: HttpAttempt, hashFails: bool)
    requires !PeersSucceed(hash, Refreshed(m, p.reply), p)
    requires h.head == NoRanges && hash(origin) == m.hash
    requires forall k :: 0 <= k <= LastRead(h.body) && k < |h.body| ==> ServesRead(h.body, origin, k)
    requires HttpSucceeds(HttpMetadata(Refreshed(m, p.reply), h), h)
    ensures DownloadResult(hash, m, p, h, hashFails) == if hashFails then None else Some(origin)
  {
    var k := LastRead(h.body);
    assert ServesRead(h.body, origin, k);
    ReadsAddUp(h.body, origin, k + 1);
    assert origin[..|origin|] == origin;
  }

  /** A file with two equal chunks always ends up in the fallback. */
  lemma {:induction false} EqualChunksReachFallback(hash: HashFunction, m: FileMetadata, p: PeerAttempt, i: nat, j: nat)
    requires var m1 := Refreshed(m, p.reply);
      && i < j < |m1.chunks| && m1.chunks[i].hash == m1.chunks[j].hash
      && OnlyRequested(ChunkCIDs(m1.chunks), p.events)
    ensures !PeersSucceed(hash, Refreshed(m, p.reply), p)
  {
    EqualChunksNeverFinish(Refreshed(m, p.reply).chunks, p.events, i, j);
  }

  // --------------------------------------- when the origin is never asked

  /** Parts joined in order. */
  function Joined(parts: seq<Bytes>, n: nat): Bytes
    requires n <= |parts|
  {
    if n == 0 then [] else Joined(parts, n - 1) + parts[n - 1]
  }

  /** A chunk list names the digests of some parts; the empty list names none. */
  predicate ListsParts(hash: HashFunction, chunks: seq<ChunkInfo>, parts: seq<Bytes>) {
    |parts| == |chunks| && forall i :: 0 <= i < |chunks| ==> chunks[i].hash == hash(parts[i])
  }

  predicate NoBlockCollides(hash: HashFunction, received: map<Cid, Bytes>, chunks: seq<ChunkInfo>, parts: seq<Bytes>)
    requires ListsParts(hash, chunks, parts)
  {
    forall i :: 0 <= i < |chunks| && Cid(chunks[i].hash) in received ==>
      NoCollision(hash, received[Cid(chunks[i].hash)], parts[i])
  }

  lemma {:induction false} DeliveredIsJoined(chunks: seq<ChunkInfo>, read: C.BlockReader, parts: seq<Bytes>, n: nat)
    requires n <= |chunks| == |parts|
    requires forall i :: 0 <= i < n ==> read(chunks[i].hash) == Ok(parts[i])
    ensures C.Delivered(chunks, read, n) == Joined(parts, n)
    decreases n
  {
    if n > 0 { DeliveredIsJoined(chunks, read, parts, n - 1); }
  }

  /** A completed peer transfer has the parts that the chunk list names. */
  lemma PeersBringTheParts(hash: HashFunction, parts: seq<Bytes>, m: FileMetadata, p: PeerAttempt)
    requires PeersSucceed(hash, m, p)
    requires ListsParts(hash, m.chunks, parts) && NoBlockCollides(hash, ReceivedBlocks(m, p), m.chunks, parts)
    ensures PeersContent(hash, m, p) == Joined(parts, |parts|)
  {
    var read := Reader(ReceivedBlocks(m, p));
    forall i | 0 <= i < |m.chunks| ensures read(m.chunks[i].hash) == Ok(parts[i]) {
      assert Cid(m.chunks[i].hash) in ReceivedBlocks(m, p);
      assert NoCollision(hash, ReceivedBlocks(m, p)[Cid(m.chunks[i].hash)], parts[i]);
    }
    DeliveredIsJoined(m.chunks, read, parts, |m.chunks|);
  }

  /** The HTTP attempt, were it made, would bring the requested file. */
  predicate OriginWouldDo(hash: HashFunction, m: FileMetadata, p: PeerAttempt, h: HttpAttempt) {
    var m2 := HttpMetadata(Refreshed(m, p.reply), h);
    HttpSucceeds(m2, h) && hash(HttpContent(m2, h)) == m.hash
  }

  /** When a download fails although the origin has the file: exactly if the
      peers delivered everything they were asked for and the parts that the chunk
      list names do not make up the file. */
  lemma OriginIsSkippedIff(hash: HashFunction, parts: seq<Bytes>, m: FileMetadata, p: PeerAttempt, h: HttpAttempt)
    requires var m1 := Refreshed(m, p.reply);
      ListsParts(hash, m1.chunks, parts) && NoBlockCollides(hash, ReceivedBlocks(m1, p), m1.chunks, parts)
    requires OriginWouldDo(hash, m, p, h)
    ensures DownloadResult(hash, m, p, h, false) == None <==>
      PeersSucceed(hash, Refreshed(m, p.reply), p) && hash(Joined(parts, |parts|)) != m.hash
  {
    var m1 := Refreshed(m, p.reply);
    if PeersSucceed(hash, m1, p) { PeersBringTheParts(hash, parts, m1, p); }
  }

  /** Peers that deliver every part once, in order. */
  function Deliveries(hash: HashFunction, parts: seq<Bytes>): (events: seq<Event>)
    ensures |events| == |parts|
  {
    seq(|parts|, i requires 0 <= i < |parts| => BlockArrives(Cid(hash(parts[i])), parts[i]))
  }

  function FullService(hash: HashFunction, parts: seq<Bytes>, reply: Option<FileMetadata>): PeerAttempt {
    PeerAttempt(reply, 1, 1, true, if parts == [] then [ChannelClosed] else Deliveries(hash, parts), false, None)
  }

  lemma {:induction false} AllArrive(events: seq<Event>, i: nat)
    requires i < |events| && forall j :: 0 <= j < |events| ==> events[j].BlockArrives?
    ensures events[i].cid in Arrivals(events)
    decreases |events|
  {
    if i > 0 { AllArrive(events[1..], i - 1); }
  }

  /** What is true of every block that arrives is true of every block that the
      loop holds. */
  lemma {:induction false} ReceivedFromEvents(count: nat, received: map<Cid, Bytes>, events: seq<Event>, ok: (Cid, Bytes) -> bool)
    requires forall c :: c in received ==> ok(c, received[c])
    requires forall i :: 0 <= i < |events| && events[i].BlockArrives? ==> ok(events[i].cid, events[i].data)
    ensures var r := Receive(count, received, events).0; forall c :: c in r ==> ok(c, r[c])
    decreases |events|
  {
    if events != [] && events[0].BlockArrives? {
      ReceiveStep(count, received, events);
      var r := received[events[0].cid := events[0].data];
      assert forall c :: c in r ==> ok(c, r[c]);
      ReceivedFromEvents(count, r, events[1..], ok);
    }
  }

  predicate InStore(store: map<Cid, Bytes>, c: Cid, x: Bytes) { c in store && x == store[c] }

  /** Peers that serve from one store leave nothing else in the loop. */
  lemma {:induction false} ReceivedInStore(count: nat, events: seq<Event>, store: map<Cid, Bytes>, c: Cid)
    requires forall i :: 0 <= i < |events| && events[i].BlockArrives? ==> InStore(store, events[i].cid, events[i].data)
    requires c in Receive(count, map[], events).0
    ensures InStore(store, c, Receive(count, map[], events).0[c])
  {
    ReceivedFromEvents(count, map[], events, (c, x) => InStore(store, c, x));
  }

  predicate IsPart(hash: HashFunction, parts: seq<Bytes>, c: Cid, x: Bytes) {
    exists i :: 0 <= i < |parts| && x == parts[i] && c == Cid(hash(x))
  }

  /** What the loop holds of the deliveries are parts under their own digests. */
  lemma {:induction false} DeliveriesAreParts(hash: HashFunction, parts: seq<Bytes>, count: nat)
    ensures var r := Receive(count, map[], Deliveries(hash, parts)).0; forall c :: c in r ==> IsPart(hash, parts, c, r[c])
  {
    ReceivedFromEvents(count, map[], Deliveries(hash, parts), (c, x) => IsPart(hash, parts, c, x));
  }

  lemma {:induction false} DeliveriesAreRequested(hash: HashFunction, parts: seq<Bytes>, chunks: seq<ChunkInfo>)
    requires ListsParts(hash, chunks, parts)
    ensures var cids, events := ChunkCIDs(chunks), Deliveries(hash, parts);
      OnlyRequested(cids, events) && forall c :: c in cids ==> c in Arrivals(events)
  {
    var cids, events := ChunkCIDs(chunks), Deliveries(hash, parts);
    forall e | e in events ensures e.cid in cids {
      var i :| 0 <= i < |events| && events[i] == e;
      assert cids[i] == e.cid;
    }
    forall c | c in cids ensures c in Arrivals(events) {
      var i :| 0 <= i < |cids| && cids[i] == c;
      assert events[i].cid == c;
      AllArrive(events, i);
    }
  }

  lemma {:induction false} DeliveriesFillTheLoop(hash: HashFunction, parts: seq<Bytes>, chunks: seq<ChunkInfo>, i: nat)
    requires ListsParts(hash, chunks, parts) && Distinct(ChunkCIDs(chunks)) && i < |chunks|
    ensures var (r, complete) := Receive(|chunks|, map[], Deliveries(hash, parts));
      complete && Cid(chunks[i].hash) in r && r[Cid(chunks[i].hash)] == parts[i]
  {
    var cids, r := ChunkCIDs(chunks), Receive(|chunks|, map[], Deliveries(hash, parts)).0;
    DeliveriesAreRequested(hash, parts, chunks);
    PeersCompleteIff(cids, Deliveries(hash, parts));
    DeliveriesAreParts(hash, parts, |chunks|);
    assert Cid(chunks[i].hash) == cids[i] && cids[i] in SetOf(cids);
    TheOnlyPart(hash, parts, chunks, i, r[cids[i]]);
  }

  lemma TheOnlyPart(hash: HashFunction, parts: seq<Bytes>, chunks: seq<ChunkInfo>, i: nat, x: Bytes)
    requires ListsParts(hash, chunks, parts) && Distinct(ChunkCIDs(chunks)) && i < |chunks|
    requires IsPart(hash, parts, Cid(chunks[i].hash), x)
    ensures x == parts[i]
  {
    var j :| 0 <= j < |parts| && x == parts[j] && Cid(chunks[i].hash) == Cid(hash(x));
    assert ChunkCIDs(chunks)[j] == ChunkCIDs(chunks)[i];
  }

  /** Full service of a list without repetition is a peer transfer that
      succeeds, with no collision and no block that was not asked for. */
  lemma {:induction false} FullServiceSucceeds(hash: HashFunction, parts: seq<Bytes>, m: FileMetadata, reply: Option<FileMetadata>)
    requires ListsParts(hash, m.chunks, parts) && Distinct(ChunkCIDs(m.chunks))
    ensures var p := FullService(hash, parts, reply);
      && PeersSucceed(hash, m, p) && OnlyRequested(ChunkCIDs(m.chunks), p.events)
      && NoBlockCollides(hash, ReceivedBlocks(m, p), m.chunks, parts)
  {
    if parts != [] {
      DeliveriesAreRequested(hash, parts, m.chunks);
      DeliveriesFillTheLoop(hash, parts, m.chunks, 0);
      forall i | 0 <= i < |m.chunks|
        ensures var r := Receive(|m.chunks|, map[], Deliveries(hash, parts)).0;
          Cid(m.chunks[i].hash) in r && r[Cid(m.chunks[i].hash)] == parts[i]
      {
        DeliveriesFillTheLoop(hash, parts, m.chunks, i);
      }
    }
  }

  /** A plain GET that brings some bytes in one read. */
  function PlainGet(content: Bytes): HttpAttempt {
    HttpAttempt(None, NoRanges, false, STATUS_OK, [Last(content)], None, None, [])
  }

  lemma PlainGetWouldDo(hash: HashFunction, origin: Bytes, m: FileMetadata, p: PeerAttempt)
    requires Refreshed(m, p.reply).fallbackURL != "" && hash(origin) == m.hash
    ensures OriginWouldDo(hash, m, p, PlainGet(origin))
  {
    var body := PlainGet(origin).body;
    assert LastRead(body) == 0 && body[..1] == body && body[..0] == [];
    assert AllBytes(body) == AllBytes(body[..0]) + body[0].bytes;
    assert AllBytes(body[..0]) == [] && [] + origin == origin;
  }

  /** What can happen after the tracker's answer: the exchange delivers what it
      was asked for, and no block that arrives collides with its part. */
  predicate CanHappen(hash: HashFunction, parts: seq<Bytes>, m: FileMetadata, reply: Option<FileMetadata>, p: PeerAttempt)
    requires ListsParts(hash, Refreshed(m, reply).chunks, parts)
  {
    var m1 := Refreshed(m, reply);
    && p.reply == reply
    && OnlyRequested(ChunkCIDs(m1.chunks), p.events)
    && NoBlockCollides(hash, ReceivedBlocks(m1, p), m1.chunks, parts)
  }

  /** Whenever the origin would do, the download succeeds. */
  ghost predicate FallbackKept(hash: HashFunction, parts: seq<Bytes>, m: FileMetadata, reply: Option<FileMetadata>)
    requires ListsParts(hash, Refreshed(m, reply).chunks, parts)
  {
    forall p: PeerAttempt, h: HttpAttempt :: CanHappen(hash, parts, m, reply, p) && OriginWouldDo(hash, m, p, h) ==>
      DownloadResult(hash, m, p, h, false).Some?
  }

  lemma RepeatsNeverSucceed(hash: HashFunction, m: FileMetadata, p: PeerAttempt)
    requires OnlyRequested(ChunkCIDs(m.chunks), p.events) && !Distinct(ChunkCIDs(m.chunks))
    ensures !PeersSucceed(hash, m, p)
  {
    PeersCompleteIff(ChunkCIDs(m.chunks), p.events);
  }

  /** The promise that a failed peer transfer is made good from the origin,
      exactly, as a condition on the metadata in force after the tracker's answer,
      or without one: for all peers and all attempts it is kept if and only if two
      chunks are equal, so that the peers never complete, or the parts that the
      chunk list names make up the file. */
  lemma {:induction false} FallbackPromiseIff(hash: HashFunction, parts: seq<Bytes>, origin: Bytes, m: FileMetadata, reply: Option<FileMetadata>)
    requires Refreshed(m, reply).fallbackURL != "" && hash(origin) == m.hash
    requires ListsParts(hash, Refreshed(m, reply).chunks, parts)
    ensures FallbackKept(hash, parts, m, reply) <==>
      !Distinct(ChunkCIDs(Refreshed(m, reply).chunks)) || hash(Joined(parts, |parts|)) == m.hash
  {
    var m1 := Refreshed(m, reply);
    if !Distinct(ChunkCIDs(m1.chunks)) || hash(Joined(parts, |parts|)) == m.hash {
      forall p: PeerAttempt, h: HttpAttempt | CanHappen(hash, parts, m, reply, p) && OriginWouldDo(hash, m, p, h)
        ensures DownloadResult(hash, m, p, h, false).Some?
      {
        OriginIsSkippedIff(hash, parts, m, p, h);
        if !Distinct(ChunkCIDs(m1.chunks)) { RepeatsNeverSucceed(hash, m1, p); }
      }
    } else {
      var p, h := FullService(hash, parts, reply), PlainGet(origin);
      FullServiceSucceeds(hash, parts, m1, reply);
      PlainGetWouldDo(hash, origin, m, p);
      OriginIsSkippedIff(hash, parts, m, p, h);
      assert CanHappen(hash, parts, m, reply, p) && DownloadResult(hash, m, p, h, false) == None;
    }
  }

  /** Without a chunk list: the exchange has nothing to deliver and closes its
      channel, the peer attempt counts as a success with an empty file, and the
      verification fails although the origin might have had the file. */
  lemma NoChunkListNoFallback(hash: HashFunction, m: FileMetadata, p: PeerAttempt, h: HttpAttempt, hashFails: bool)
    requires Refreshed(m, p.reply).chunks == [] && hash([]) != m.hash
    requires p.peers > 0 && p.connected > 0 && p.requestOk && !p.createFails
    requires p.events != [] && p.events[0] == ChannelClosed
    ensures PeersSucceed(hash, Refreshed(m, p.reply), p)
    ensures DownloadResult(hash, m, p, h, hashFails) == None
  {
  }

  /** With a chunk list that names other bytes than the file's, delivered as
      asked. */
  lemma {:induction false} WrongChunkListNoFallback(hash: HashFunction, x: Bytes, m: FileMetadata, reply: Option<FileMetadata>, h: HttpAttempt, hashFails: bool)
    requires Refreshed(m, reply).chunks == [ChunkInfo(hash(x), 0, |x|, 0)] && hash(x) != m.hash
    ensures FullService(hash, [x], reply).events == [BlockArrives(Cid(hash(x)), x)]
    ensures PeersSucceed(hash, Refreshed(m, reply), FullService(hash, [x], reply))
    ensures DownloadResult(hash, m, FullService(hash, [x], reply), h, hashFails) == None
  {
    FullServiceSucceeds(hash, [x], Refreshed(m, reply), reply);
    PeersBringTheParts(hash, [x], Refreshed(m, reply), FullService(hash, [x], reply));
    assert Joined([x], 0) + [x][0] == x;
  }
}
