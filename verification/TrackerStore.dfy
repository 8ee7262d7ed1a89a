/** The tracker's store (pkg/tracker/store.go): three tables with their keys and
    cascades, two Redis caches with time-to-live, and the cleaner.  Every
    operation is one atomic step; the clock counts seconds. */
module TrackerStore {
  import opened Wrappers
  import P = Protocol

  type Hash = string
  type PeerID = string

  const MINUTE := 60
  const FILE_TTL := 5 * MINUTE
  const PEERS_TTL := 1 * MINUTE
  const ACTIVE := 5 * MINUTE    // GetPeers lists peers seen in this window
  const STALE := 10 * MINUTE    // the cleaner deletes peers not seen in this window

  datatype RegisterRequest = RegisterRequest(hash: Hash, size: int, chunkSize: int, chunkCount: int, chunks: seq<P.ChunkInfo>, fallbackURL: string)

  datatype FileRow = FileRow(
    size: int, chunkSize: int, chunkCount: int, chunks: Option<seq<P.ChunkInfo>>,
    fallbackURL: string, createdAt: int, updatedAt: int)

  datatype AnnounceRequest = AnnounceRequest(peerID: PeerID, addrs: seq<string>, fileHashes: seq<Hash>, natType: string)

  datatype PeerRow = PeerRow(addrs: seq<string>, natType: string, reachable: bool, lastSeen: int)

  datatype PeerRecord = PeerRecord(peerID: PeerID, addrs: seq<string>, natType: string, reachable: bool, lastSeen: int)

  datatype Cached<T> = Cached(value: T, expiry: int)

  datatype State = State(
    now: int,
    files: map<Hash, FileRow>, peers: map<PeerID, PeerRow>, peerFiles: set<(PeerID, Hash)>,
    fileCache: map<Hash, Cached<FileRow>>, peerCache: map<Hash, Cached<seq<PeerRecord>>>)

  function Record(id: PeerID, row: PeerRow): PeerRecord {
    PeerRecord(id, row.addrs, row.natType, row.reachable, row.lastSeen)
  }

  /** The rows of the GetPeers query. */
  function Query(s: State, h: Hash): set<PeerRecord> {
    set p | p in s.peers && (p, h) in s.peerFiles && s.peers[p].lastSeen > s.now - ACTIVE :: Record(p, s.peers[p])
  }

  /** A result list for a set of rows: each row once, latest seen first. */
  predicate IsListing(rows: set<PeerRecord>, list: seq<PeerRecord>) {
    && (forall r :: r in rows ==> r in list)
    && (forall r :: r in list ==> r in rows)
    && (forall i, j :: 0 <= i < j < |list| ==> list[i] != list[j] && list[i].lastSeen >= list[j].lastSeen)
  }

  predicate Live<T>(cache: map<Hash, Cached<T>>, h: Hash, now: int) {
    h in cache && now < cache[h].expiry
  }

  // ---------------------------------------------------------------- operations

  function NewFileRow(s: State, req: RegisterRequest): FileRow {
    FileRow(req.size, req.chunkSize, req.chunkCount, if |req.chunks| > 0 then Some(req.chunks) else None, req.fallbackURL,
            if req.hash in s.files then s.files[req.hash].createdAt else s.now, s.now)
  }

  function DoRegister(s: State, req: RegisterRequest): State {
    s.(files := s.files[req.hash := NewFileRow(s, req)], fileCache := s.fileCache - {req.hash})
  }

  function DoGetFile(s: State, h: Hash): (Option<FileRow>, State) {
    if Live(s.fileCache, h, s.now) then (Some(s.fileCache[h].value), s)
    else if h !in s.files then (None, s)
    else (Some(s.files[h]), s.(fileCache := s.fileCache[h := Cached(s.files[h], s.now + FILE_TTL)]))
  }

  /** The upsert: on an existing row `reachable` keeps its first value. */
  function Upserted(s: State, req: AnnounceRequest): PeerRow {
    PeerRow(req.addrs, req.natType,
            if req.peerID in s.peers then s.peers[req.peerID].reachable else req.natType == "open",
            s.now)
  }

  predicate AllKnown(s: State, hashes: seq<Hash>) {
    forall i :: 0 <= i < |hashes| ==> hashes[i] in s.files
  }

  function Pairs(p: PeerID, hashes: seq<Hash>): set<(PeerID, Hash)> {
    set h | h in hashes :: (p, h)
  }

  lemma PairsStep(p: PeerID, hashes: seq<Hash>, i: nat)
    requires i < |hashes|
    ensures Pairs(p, hashes[..i + 1]) == Pairs(p, hashes[..i]) + {(p, hashes[i])}
  {
  }

  function DoAnnounce(s: State, req: AnnounceRequest): (bool, State) {
    if !AllKnown(s, req.fileHashes) then (false, s)
    else
      (true, s.(peers := s.peers[req.peerID := Upserted(s, req)],
                peerFiles := (set pf | pf in s.peerFiles && pf.0 != req.peerID) + Pairs(req.peerID, req.fileHashes),
                peerCache := s.peerCache - (set h | h in req.fileHashes)))
  }

  function Stale(s: State): set<PeerID> {
    set p | p in s.peers && s.peers[p].lastSeen < s.now - STALE
  }

  /** Deleting a peer cascades to its file rows. */
  function DoCleanup(s: State): State {
    s.(peers := s.peers - Stale(s), peerFiles := set pf | pf in s.peerFiles && pf.0 !in Stale(s))
  }

  /** An operation together with the answer it gave. */
  datatype Op =
    | Register(req: RegisterRequest)
    | GetFile(hash: Hash, file: Option<FileRow>)
    | Announce(areq: AnnounceRequest, ok: bool)
    | GetPeers(hash: Hash, list: seq<PeerRecord>)
    | Cleanup(removed: nat)
    | Advance(seconds: nat)

  predicate Step(s: State, op: Op, t: State) {
    match op
    case Register(req) => t == DoRegister(s, req)
    case GetFile(h, r) => (r, t) == DoGetFile(s, h)
    case Announce(req, ok) => (ok, t) == DoAnnounce(s, req)
    case GetPeers(h, list) =>
      if Live(s.peerCache, h, s.now) then list == s.peerCache[h].value && t == s
      else IsListing(Query(s, h), list) && t == s.(peerCache := s.peerCache[h := Cached(list, s.now + PEERS_TTL)])
    case Cleanup(n) => n == |Stale(s)| && t == DoCleanup(s)
    case Advance(dt) => t == s.(now := s.now + dt)
  }

  predicate Initial(s: State) {
    s.files == map[] && s.peers == map[] && s.peerFiles == {} && s.fileCache == map[] && s.peerCache == map[]
  }

  /** Any sequence of operations from an empty store. */
  predicate Behaviour(ss: seq<State>, ops: seq<Op>) {
    && |ss| == |ops| + 1 && Initial(ss[0])
    && forall i :: 0 <= i < |ops| ==> Step(ss[i], ops[i], ss[i + 1])
  }

  // ----------------------------------------------------------------- invariant

  predicate Referential(s: State) {
    forall pf :: pf in s.peerFiles ==> pf.0 in s.peers && pf.1 in s.files
  }

  predicate FileCacheOk(s: State) {
    forall h :: h in s.fileCache ==> h in s.files && s.fileCache[h].value == s.files[h]
  }

  /** A cached record against the tables: recent when it was cached, and while
      the entry lives its peer has a row, the same one as long as the peer still
      offers the file. */
  predicate RecordOk(s: State, h: Hash, expiry: int, r: PeerRecord) {
    && expiry - PEERS_TTL - ACTIVE < r.lastSeen
    && (s.now < expiry ==>
          && r.peerID in s.peers && r.lastSeen <= s.peers[r.peerID].lastSeen
          && ((r.peerID, h) in s.peerFiles ==> r == Record(r.peerID, s.peers[r.peerID])))
  }

  predicate NobodyHidden(s: State, h: Hash, e: Cached<seq<PeerRecord>>) {
    forall p :: p in s.peers && (p, h) in s.peerFiles && s.peers[p].lastSeen > e.expiry - PEERS_TTL - ACTIVE ==>
      Record(p, s.peers[p]) in e.value
  }

  predicate EntryOk(s: State, h: Hash, e: Cached<seq<PeerRecord>>) {
    && e.expiry - PEERS_TTL <= s.now
    && NobodyHidden(s, h, e)
    && (forall r :: r in e.value ==> RecordOk(s, h, e.expiry, r))
    && (forall i, j :: 0 <= i < j < |e.value| ==> e.value[i] != e.value[j] && e.value[i].lastSeen >= e.value[j].lastSeen)
  }

  predicate Inv(s: State) {
    && Referential(s)
    && FileCacheOk(s)
    && (forall p :: p in s.peers ==> s.peers[p].lastSeen <= s.now)
    && (forall h :: h in s.peerCache ==> EntryOk(s, h, s.peerCache[h]))
  }

  lemma AnnounceKeeps(s: State, req: AnnounceRequest)
    requires Inv(s)
    ensures Inv(DoAnnounce(s, req).1)
  {
    var t := DoAnnounce(s, req).1;
    if AllKnown(s, req.fileHashes) {
      forall h | h in t.peerCache ensures EntryOk(t, h, t.peerCache[h]) {
        assert EntryOk(s, h, s.peerCache[h]) && h !in req.fileHashes;
        assert (req.peerID, h) !in t.peerFiles;
        forall r | r in t.peerCache[h].value ensures RecordOk(t, h, t.peerCache[h].expiry, r) {
          assert RecordOk(s, h, s.peerCache[h].expiry, r);
        }
      }
    }
  }

  lemma CleanupKeeps(s: State)
    requires Inv(s)
    ensures Inv(DoCleanup(s))
  {
  }

  lemma GetPeersKeeps(s: State, h: Hash, list: seq<PeerRecord>)
    requires Inv(s) && IsListing(Query(s, h), list)
    ensures Inv(s.(peerCache := s.peerCache[h := Cached(list, s.now + PEERS_TTL)]))
  {
  }

  lemma SimpleOpsKeep(s: State, op: Op, t: State)
    requires Inv(s) && Step(s, op, t) && (op.Register? || op.GetFile? || op.Advance?)
    ensures Inv(t)
  {
    forall h | h in t.peerCache ensures EntryOk(t, h, t.peerCache[h]) {
      assert EntryOk(s, h, s.peerCache[h]);
      forall r | r in t.peerCache[h].value ensures RecordOk(t, h, t.peerCache[h].expiry, r) {
        assert RecordOk(s, h, s.peerCache[h].expiry, r);
      }
    }
  }

  lemma {:induction false} StepKeepsInv(s: State, op: Op, t: State)
    requires Inv(s) && Step(s, op, t)
    ensures Inv(t)
  {
    match op
    case Announce(req, _) => AnnounceKeeps(s, req);
    case Cleanup(_) => CleanupKeeps(s);
    case GetPeers(h, list) => if !Live(s.peerCache, h, s.now) { GetPeersKeeps(s, h, list); }
    case _ => SimpleOpsKeep(s, op, t);
  }

  lemma {:induction false} InvAlways(ss: seq<State>, ops: seq<Op>, i: nat)
    requires Behaviour(ss, ops) && i <= |ops|
    ensures Inv(ss[i])
  {
    if i > 0 {
      InvAlways(ss, ops, i - 1);
      StepKeepsInv(ss[i - 1], ops[i - 1], ss[i]);
    }
  }

  // ------------------------------------------------------------------ theorems

  /** GetPeers in any run, answered from the cache or from the tables: it hides
      nobody whom the query would list now, every peer it lists still has a row
      and was seen less than six minutes ago, and dropping the records of peers
      that have withdrawn or aged out leaves exactly the query. */
  lemma GetPeersIsFreshEnough(ss: seq<State>, ops: seq<Op>, i: nat)
    requires Behaviour(ss, ops) && i < |ops| && ops[i].GetPeers?
    ensures var s := ss[i]; var h := ops[i].hash; var list := ops[i].list;
      && (forall r :: r in Query(s, h) ==> r in list)
      && (forall r :: r in list ==>
            && s.now - r.lastSeen < ACTIVE + PEERS_TTL
            && r.peerID in s.peers && r.lastSeen <= s.peers[r.peerID].lastSeen)
      && Query(s, h) == (set r | r in list && (r.peerID, h) in s.peerFiles && r.lastSeen > s.now - ACTIVE)
      && (forall a, b :: 0 <= a < b < |list| ==> list[a] != list[b] && list[a].lastSeen >= list[b].lastSeen)
  {
    InvAlways(ss, ops, i);
    assert Step(ss[i], ops[i], ss[i + 1]);
    var s := ss[i];
    var h := ops[i].hash;
    var list := ops[i].list;
    forall r | r in Query(s, h) ensures r in list {
      if Live(s.peerCache, h, s.now) { HitHidesNobody(s, h, r); }
    }
    forall r | r in list
      ensures s.now - r.lastSeen < ACTIVE + PEERS_TTL && r.peerID in s.peers && r.lastSeen <= s.peers[r.peerID].lastSeen
      ensures (r.peerID, h) in s.peerFiles && r.lastSeen > s.now - ACTIVE ==> r in Query(s, h)
    {
      if Live(s.peerCache, h, s.now) { assert RecordOk(s, h, s.peerCache[h].expiry, r); }
    }
    if Live(s.peerCache, h, s.now) { assert EntryOk(s, h, s.peerCache[h]); }
  }

  lemma HitHidesNobody(s: State, h: Hash, r: PeerRecord)
    requires Inv(s) && Live(s.peerCache, h, s.now) && r in Query(s, h)
    ensures r in s.peerCache[h].value
  {
  }

  /** Both foreign keys hold in every reachable state, cascades included, and no
      row is dated in the future. */
  lemma AlwaysReferential(ss: seq<State>, ops: seq<Op>, i: nat)
    requires Behaviour(ss, ops) && i <= |ops|
    ensures forall p, h :: (p, h) in ss[i].peerFiles ==> p in ss[i].peers && h in ss[i].files
    ensures forall p :: p in ss[i].peers ==> ss[i].peers[p].lastSeen <= ss[i].now
  {
    InvAlways(ss, ops, i);
    forall p, h | (p, h) in ss[i].peerFiles ensures p in ss[i].peers && h in ss[i].files {
      var pf := (p, h);
      assert pf in ss[i].peerFiles;
    }
  }

  /** GetFile, cached or not, is the table lookup. */
  lemma GetFileIsLookup(ss: seq<State>, ops: seq<Op>, i: nat)
    requires Behaviour(ss, ops) && i < |ops| && ops[i].GetFile?
    ensures ops[i].file == if ops[i].hash in ss[i].files then Some(ss[i].files[ops[i].hash]) else None
    ensures ss[i + 1].files == ss[i].files
  {
    InvAlways(ss, ops, i);
    assert Step(ss[i], ops[i], ss[i + 1]);
  }

  /** Registering and asking again: GetFile answers with what was registered,
      whatever was cached before; a second registration keeps the creation time;
      other files are untouched. */
  lemma RegisteredIsFound(s: State, req: RegisterRequest, g: Hash)
    requires FileCacheOk(s)
    ensures var t := DoRegister(s, req);
      && FileCacheOk(t)
      && DoGetFile(t, req.hash).0.Some?
      && var row := DoGetFile(t, req.hash).0.value;
         && row.size == req.size && row.chunkSize == req.chunkSize && row.chunkCount == req.chunkCount
         && row.fallbackURL == req.fallbackURL && row.updatedAt == s.now
         && row.chunks == (if req.chunks == [] then None else Some(req.chunks))
         && (req.hash in s.files ==> row.createdAt == s.files[req.hash].createdAt)
         && (g != req.hash ==> DoGetFile(t, g).0 == DoGetFile(s, g).0)
  {
  }

  /** The cleaner changes no answer: it removes exactly the peers not seen for
      ten minutes, all of them beyond what the query lists. */
  lemma CleanupKeepsAnswers(s: State, h: Hash)
    ensures Query(DoCleanup(s), h) == Query(s, h)
    ensures forall p :: p in DoCleanup(s).peers <==> p in s.peers && s.peers[p].lastSeen >= s.now - STALE
    ensures forall p :: (p, h) in DoCleanup(s).peerFiles ==> p !in Stale(s)
  {
  }

  /** What an announce does to the tables: it succeeds just when every hash is
      registered; then the peer's rows are exactly the announced hashes, and no
      other peer is touched; otherwise nothing at all changes. */
  lemma AnnounceIsAtomic(s: State, req: AnnounceRequest)
    ensures var (ok, t) := DoAnnounce(s, req);
      && (ok <==> forall h :: h in req.fileHashes ==> h in s.files)
      && (!ok ==> t == s)
      && (ok ==>
            && (forall h :: (req.peerID, h) in t.peerFiles <==> h in req.fileHashes)
            && (forall p, h :: p != req.peerID ==> ((p, h) in t.peerFiles <==> (p, h) in s.peerFiles))
            && (forall p :: p != req.peerID ==> (p in t.peers <==> p in s.peers) && (p in s.peers ==> t.peers[p] == s.peers[p]))
            && t.files == s.files
            && t.peers[req.peerID].addrs == req.addrs && t.peers[req.peerID].natType == req.natType
            && t.peers[req.peerID].lastSeen == s.now
            && (forall h :: h in req.fileHashes ==> exists r :: r in Query(t, h) && r.peerID == req.peerID && r.addrs == req.addrs))
  {
    var (ok, t) := DoAnnounce(s, req);
    if ok {
      forall h | h in req.fileHashes ensures Record(req.peerID, t.peers[req.peerID]) in Query(t, h) {
        assert (req.peerID, h) in t.peerFiles;
      }
    }
  }

  // ----------------------------------------- the tables, from the operations alone

  /** The clock moves only when time passes. */
  lemma {:induction false} ClockOnlyAdvances(ss: seq<State>, ops: seq<Op>, i: nat)
    requires Behaviour(ss, ops) && i < |ops|
    ensures ss[i + 1].now == ss[i].now + (if ops[i].Advance? then ops[i].seconds else 0)
  {
    assert Step(ss[i], ops[i], ss[i + 1]);
  }

  /** The last registration of a file among the first `i` operations. */
  function LastRegistration(ops: seq<Op>, i: nat, h: Hash): (j: Option<nat>)
    requires i <= |ops|
    ensures j.Some? ==> j.value < i && ops[j.value].Register? && ops[j.value].req.hash == h
    ensures forall k :: (if j.Some? then j.value + 1 else 0) <= k < i && ops[k].Register? ==> ops[k].req.hash != h
  {
    if i == 0 then None
    else if ops[i - 1].Register? && ops[i - 1].req.hash == h then Some(i - 1)
    else LastRegistration(ops, i - 1, h)
  }

  /** The files table in every run: a file has a row exactly if it was ever
      registered, and the row says what its last registration said. */
  lemma {:induction false} FilesAreRegistrations(ss: seq<State>, ops: seq<Op>, i: nat, h: Hash)
    requires Behaviour(ss, ops) && i <= |ops|
    ensures h in ss[i].files <==> LastRegistration(ops, i, h).Some?
    ensures h in ss[i].files ==>
      var row, req := ss[i].files[h], ops[LastRegistration(ops, i, h).value].req;
      && row.size == req.size && row.chunkSize == req.chunkSize && row.chunkCount == req.chunkCount
      && row.fallbackURL == req.fallbackURL && row.chunks == (if req.chunks == [] then None else Some(req.chunks))
      && row.updatedAt == ss[LastRegistration(ops, i, h).value].now
    decreases i
  {
    if i > 0 {
      FilesAreRegistrations(ss, ops, i - 1, h);
      assert Step(ss[i - 1], ops[i - 1], ss[i]);
    }
  }

  /** What the operations answer, from the operations alone: GetFile the last
      registration, cached or not; an announce success exactly if every hash was
      registered; the cleaner how many peers are gone. */
  lemma {:induction false} AnswersFromOperations(ss: seq<State>, ops: seq<Op>, i: nat)
    requires Behaviour(ss, ops) && i < |ops|
    ensures ops[i].GetFile? ==>
      var j, file := LastRegistration(ops, i, ops[i].hash), ops[i].file;
      && (file.Some? <==> j.Some?)
      && (file.Some? ==>
            && file.value.size == ops[j.value].req.size && file.value.chunkSize == ops[j.value].req.chunkSize
            && file.value.chunkCount == ops[j.value].req.chunkCount && file.value.fallbackURL == ops[j.value].req.fallbackURL
            && file.value.chunks == if ops[j.value].req.chunks == [] then None else Some(ops[j.value].req.chunks))
    ensures ops[i].Announce? ==>
      (ops[i].ok <==> forall h :: h in ops[i].areq.fileHashes ==> LastRegistration(ops, i, h).Some?)
    ensures ops[i].Cleanup? ==> |ss[i + 1].peers| == |ss[i].peers| - ops[i].removed
  {
    assert Step(ss[i], ops[i], ss[i + 1]);
    match ops[i]
    case GetFile(h, _) => GetFileIsLookup(ss, ops, i); FilesAreRegistrations(ss, ops, i, h);
    case Announce(req, _) =>
      AnnounceIsAtomic(ss[i], req);
      forall h ensures h in ss[i].files <==> LastRegistration(ops, i, h).Some? { FilesAreRegistrations(ss, ops, i, h); }
    case Cleanup(_) => RemoveCounts(ss[i].peers, Stale(ss[i]));
    case _ =>
  }

  lemma {:induction false} RemoveCounts(peers: map<PeerID, PeerRow>, gone: set<PeerID>)
    requires gone <= peers.Keys
    ensures |peers - gone| == |peers| - |gone|
  {
    assert |peers| == |peers.Keys| && |peers - gone| == |(peers - gone).Keys|;
    assert (peers - gone).Keys == peers.Keys - gone;
    assert peers.Keys == (peers.Keys - gone) + gone;
  }

  /** The last successful announce of a peer among the first `i` operations. */
  function LastAnnounce(ops: seq<Op>, i: nat, p: PeerID): (j: Option<nat>)
    requires i <= |ops|
    ensures j.Some? ==> j.value < i && ops[j.value].Announce? && ops[j.value].ok && ops[j.value].areq.peerID == p
    ensures forall k :: (if j.Some? then j.value + 1 else 0) <= k < i && ops[k].Announce? && ops[k].ok ==> ops[k].areq.peerID != p
  {
    if i == 0 then None
    else if ops[i - 1].Announce? && ops[i - 1].ok && ops[i - 1].areq.peerID == p then Some(i - 1)
    else LastAnnounce(ops, i - 1, p)
  }

  /** Between operations `j` and `i` the cleaner ran more than ten minutes after
      operation `j`. */
  predicate CleanedSince(ss: seq<State>, ops: seq<Op>, j: nat, i: nat)
    requires |ss| == |ops| + 1 && j <= i <= |ops|
  {
    exists k :: j < k < i && ops[k].Cleanup? && ss[k].now - ss[j].now > 600
  }

  predicate Present(ss: seq<State>, ops: seq<Op>, i: nat, p: PeerID)
    requires |ss| == |ops| + 1 && i <= |ops|
  {
    LastAnnounce(ops, i, p).Some? && !CleanedSince(ss, ops, LastAnnounce(ops, i, p).value, i)
  }

  /** What one operation does to the peer tables. */
  lemma PeerTablesStep(s: State, op: Op, t: State, p: PeerID)
    requires Step(s, op, t) && p in s.peers
    requires !(op.Announce? && op.ok && op.areq.peerID == p)
    ensures p in t.peers <==> !(op.Cleanup? && s.now - s.peers[p].lastSeen > 600)
    ensures p in t.peers ==> t.peers[p] == s.peers[p]
    ensures forall h :: (p, h) in t.peerFiles <==> (p, h) in s.peerFiles && p in t.peers
  {
  }

  lemma AbsentStaysAbsent(s: State, op: Op, t: State, p: PeerID)
    requires Step(s, op, t) && p !in s.peers && forall h :: (p, h) !in s.peerFiles
    requires !(op.Announce? && op.ok && op.areq.peerID == p)
    ensures p !in t.peers && forall h :: (p, h) !in t.peerFiles
  {
  }

  lemma AnnounceWrites(s: State, op: Op, t: State)
    requires Step(s, op, t) && op.Announce? && op.ok
    ensures var p := op.areq.peerID;
      && p in t.peers && t.peers[p].addrs == op.areq.addrs && t.peers[p].natType == op.areq.natType
      && t.peers[p].lastSeen == s.now && forall h :: (p, h) in t.peerFiles <==> h in op.areq.fileHashes
  {
    AnnounceIsAtomic(s, op.areq);
  }

  lemma CleanedStep(ss: seq<State>, ops: seq<Op>, j: nat, i: nat)
    requires |ss| == |ops| + 1 && j < i <= |ops| && j < i - 1
    ensures CleanedSince(ss, ops, j, i) <==>
      CleanedSince(ss, ops, j, i - 1) || (ops[i - 1].Cleanup? && ss[i - 1].now - ss[j].now > 600)
  {
  }

  /** The peer tables in every run: a peer has a row exactly if it announced
      itself successfully and was not cleaned away since; the row and the file
      rows are those of its last successful announce.  Nothing else that ever
      happens, registrations included, touches them. */
  lemma {:induction false} PeersAreAnnounces(ss: seq<State>, ops: seq<Op>, i: nat, p: PeerID)
    requires Behaviour(ss, ops) && i <= |ops|
    ensures p in ss[i].peers <==> Present(ss, ops, i, p)
    ensures p in ss[i].peers ==>
      var j := LastAnnounce(ops, i, p).value; var row := ss[i].peers[p];
      row.addrs == ops[j].areq.addrs && row.natType == ops[j].areq.natType && row.lastSeen == ss[j].now
    ensures forall h :: (p, h) in ss[i].peerFiles <==>
      Present(ss, ops, i, p) && h in ops[LastAnnounce(ops, i, p).value].areq.fileHashes
    decreases i
  {
    if i > 0 {
      PeersAreAnnounces(ss, ops, i - 1, p);
      PeersAreAnnouncesStep(ss, ops, i, p);
    }
  }

  lemma {:induction false} PeersAreAnnouncesStep(ss: seq<State>, ops: seq<Op>, i: nat, p: PeerID)
    requires Behaviour(ss, ops) && 0 < i <= |ops|
    requires p in ss[i - 1].peers <==> Present(ss, ops, i - 1, p)
    requires p in ss[i - 1].peers ==>
      var j := LastAnnounce(ops, i - 1, p).value; var row := ss[i - 1].peers[p];
      row.addrs == ops[j].areq.addrs && row.natType == ops[j].areq.natType && row.lastSeen == ss[j].now
    requires forall h :: (p, h) in ss[i - 1].peerFiles <==>
      Present(ss, ops, i - 1, p) && h in ops[LastAnnounce(ops, i - 1, p).value].areq.fileHashes
    ensures p in ss[i].peers <==> Present(ss, ops, i, p)
    ensures p in ss[i].peers ==>
      var j := LastAnnounce(ops, i, p).value; var row := ss[i].peers[p];
      row.addrs == ops[j].areq.addrs && row.natType == ops[j].areq.natType && row.lastSeen == ss[j].now
    ensures forall h :: (p, h) in ss[i].peerFiles <==>
      Present(ss, ops, i, p) && h in ops[LastAnnounce(ops, i, p).value].areq.fileHashes
  {
    var s, op, t := ss[i - 1], ops[i - 1], ss[i];
    assert Step(s, op, t);
    if op.Announce? && op.ok && op.areq.peerID == p {
      AnnounceWrites(s, op, t);
      assert LastAnnounce(ops, i, p) == Some(i - 1) && !CleanedSince(ss, ops, i - 1, i);
    } else {
      assert LastAnnounce(ops, i, p) == LastAnnounce(ops, i - 1, p);
      if LastAnnounce(ops, i, p).Some? { CleanedStep(ss, ops, LastAnnounce(ops, i, p).value, i); }
      if p in s.peers { PeerTablesStep(s, op, t, p); } else { AbsentStaysAbsent(s, op, t, p); }
    }
  }

  /** The announce that created the row a peer has after `i` operations. */
  function Birth(ss: seq<State>, ops: seq<Op>, i: nat, p: PeerID): (b: Option<nat>)
    requires |ss| == |ops| + 1 && i <= |ops|
    ensures b.Some? ==> b.value < i && ops[b.value].Announce? && ops[b.value].areq.peerID == p
  {
    if i == 0 || p !in ss[i].peers then None
    else if p !in ss[i - 1].peers && ops[i - 1].Announce? && ops[i - 1].areq.peerID == p then Some(i - 1)
    else Birth(ss, ops, i - 1, p)
  }

  lemma {:induction false} NatTypeStep(s: State, op: Op, t: State, p: PeerID)
    requires Step(s, op, t) && p in t.peers
    ensures p !in s.peers ==>
      op.Announce? && op.areq.peerID == p && op.ok && t.peers[p].reachable == (op.areq.natType == "open")
    ensures p in s.peers ==> t.peers[p].reachable == s.peers[p].reachable
  {
  }

  /** In every run `reachable` says what the NAT type was in the announce that
      created the peer's row, whatever later announces say: from that announce
      on the row was never gone, and the announce succeeded. */
  lemma {:induction false} ReachableIsFirstNatType(ss: seq<State>, ops: seq<Op>, i: nat, p: PeerID)
    requires Behaviour(ss, ops) && i <= |ops| && p in ss[i].peers
    ensures var b := Birth(ss, ops, i, p);
      && b.Some?
      && ops[b.value].ok && p !in ss[b.value].peers
      && (forall j :: b.value < j <= i ==> p in ss[j].peers)
      && ss[i].peers[p].reachable == (ops[b.value].areq.natType == "open")
    decreases i
  {
    if i > 0 {
      assert Step(ss[i - 1], ops[i - 1], ss[i]);
      NatTypeStep(ss[i - 1], ops[i - 1], ss[i], p);
      if p in ss[i - 1].peers { ReachableIsFirstNatType(ss, ops, i - 1, p); }
    }
  }

  /** The record that operation `j`, a successful announce, leaves with a query,
      but for `reachable`, which an older announce decides. */
  predicate FromAnnounce(ss: seq<State>, ops: seq<Op>, j: nat, h: Hash, r: PeerRecord)
    requires |ss| == |ops| + 1 && j < |ops|
  {
    && ops[j].Announce? && ops[j].ok && r.peerID == ops[j].areq.peerID && h in ops[j].areq.fileHashes
    && r.addrs == ops[j].areq.addrs && r.natType == ops[j].areq.natType && r.lastSeen == ss[j].now
  }

  /** The query in every run: it lists a peer exactly if its last successful
      announce lists the file and is less than five minutes old. */
  lemma {:induction false} QueryIsRecentAnnounces(ss: seq<State>, ops: seq<Op>, i: nat, h: Hash, p: PeerID)
    requires Behaviour(ss, ops) && i <= |ops|
    ensures (exists r :: r in Query(ss[i], h) && r.peerID == p) <==>
      var j := LastAnnounce(ops, i, p);
      j.Some? && h in ops[j.value].areq.fileHashes && ss[i].now - ss[j.value].now < 300
    ensures forall r :: r in Query(ss[i], h) && r.peerID == p ==>
      && LastAnnounce(ops, i, p).Some? && FromAnnounce(ss, ops, LastAnnounce(ops, i, p).value, h, r)
      && Birth(ss, ops, i, p).Some? && r.reachable == (ops[Birth(ss, ops, i, p).value].areq.natType == "open")
  {
    PeersAreAnnounces(ss, ops, i, p);
    if p in ss[i].peers { ReachableIsFirstNatType(ss, ops, i, p); }
    var j := LastAnnounce(ops, i, p);
    if j.Some? && ss[i].now - ss[j.value].now < 300 {
      NotCleanedYet(ss, ops, j.value, i);
      if h in ops[j.value].areq.fileHashes {
        assert (p, h) in ss[i].peerFiles;
        assert Record(p, ss[i].peers[p]) in Query(ss[i], h);
      }
    }
  }

  lemma {:induction false} ClockNeverGoesBack(ss: seq<State>, ops: seq<Op>, i: nat, j: nat)
    requires Behaviour(ss, ops) && i <= j <= |ops|
    ensures ss[i].now <= ss[j].now
    decreases j
  {
    if i < j {
      ClockNeverGoesBack(ss, ops, i, j - 1);
      ClockOnlyAdvances(ss, ops, j - 1);
    }
  }

  lemma NotCleanedYet(ss: seq<State>, ops: seq<Op>, j: nat, i: nat)
    requires Behaviour(ss, ops) && j <= i <= |ops| && ss[i].now - ss[j].now < 300
    ensures !CleanedSince(ss, ops, j, i)
  {
    forall k | j < k < i ensures ss[k].now <= ss[i].now { ClockNeverGoesBack(ss, ops, k, i); }
  }

  lemma {:induction false} CachedFromAnnounces(ss: seq<State>, ops: seq<Op>, i: nat, h: Hash, r: PeerRecord)
    requires Behaviour(ss, ops) && i <= |ops| && h in ss[i].peerCache && r in ss[i].peerCache[h].value
    ensures exists j :: 0 <= j < i && FromAnnounce(ss, ops, j, h, r)
    decreases i
  {
    if i > 0 {
      assert Step(ss[i - 1], ops[i - 1], ss[i]);
      if h in ss[i - 1].peerCache && ss[i].peerCache[h] == ss[i - 1].peerCache[h] {
        CachedFromAnnounces(ss, ops, i - 1, h, r);
      } else {
        assert r in Query(ss[i - 1], h);
        QueryIsRecentAnnounces(ss, ops, i - 1, h, r.peerID);
      }
    }
  }

  /** GetPeers in every run, cached or not, in terms of announces alone: a peer
      whose last successful announce lists the file and is less than five minutes
      old is listed with what it announced; and whoever is listed announced the
      file like that less than six minutes ago. */
  lemma {:induction false} GetPeersListsAnnounces(ss: seq<State>, ops: seq<Op>, i: nat, p: PeerID)
    requires Behaviour(ss, ops) && i < |ops| && ops[i].GetPeers?
    ensures var j := LastAnnounce(ops, i, p);
      j.Some? && ops[i].hash in ops[j.value].areq.fileHashes && ss[i].now - ss[j.value].now < 300 ==>
        exists r :: r in ops[i].list && FromAnnounce(ss, ops, j.value, ops[i].hash, r) &&
          Birth(ss, ops, i, p).Some? && r.reachable == (ops[Birth(ss, ops, i, p).value].areq.natType == "open")
    ensures forall r :: r in ops[i].list ==>
      exists j :: 0 <= j < i && FromAnnounce(ss, ops, j, ops[i].hash, r) && ss[i].now - ss[j].now < 360
  {
    GetPeersIsFreshEnough(ss, ops, i);
    var h := ops[i].hash;
    QueryIsRecentAnnounces(ss, ops, i, h, p);
    forall r | r in ops[i].list ensures exists j :: 0 <= j < i && FromAnnounce(ss, ops, j, h, r) && ss[i].now - ss[j].now < 360 {
      assert Step(ss[i], ops[i], ss[i + 1]);
      if Live(ss[i].peerCache, h, ss[i].now) {
        CachedFromAnnounces(ss, ops, i, h, r);
      } else {
        QueryIsRecentAnnounces(ss, ops, i, h, r.peerID);
      }
    }
  }

  /** The seeder announces its files one hash at a time. */
  function AnnounceEach(s: State, peerID: PeerID, addrs: seq<string>, natType: string, hashes: seq<Hash>): State
    decreases |hashes|
  {
    if hashes == [] then s
    else
      var last := |hashes| - 1;
      DoAnnounce(AnnounceEach(s, peerID, addrs, natType, hashes[..last]), AnnounceRequest(peerID, addrs, [hashes[last]], natType)).1
  }

  function LastKnown(s: State, hashes: seq<Hash>): (h: Option<Hash>)
    ensures h == None <==> forall i :: 0 <= i < |hashes| ==> hashes[i] !in s.files
    ensures h.Some? ==> h.value in hashes && h.value in s.files
    decreases |hashes|
  {
    if hashes == [] then None
    else
      var last := |hashes| - 1;
      if hashes[last] in s.files then Some(hashes[last])
      else
        assert forall i :: 0 <= i < last ==> hashes[i] == hashes[..last][i];
        LastKnown(s, hashes[..last])
  }

  /** Announcing files one at a time leaves only the last registered one listed:
      each announce replaces the peer's whole set.  So all registered files
      announced are listed exactly if they are one and the same. */
  lemma {:induction false} OneByOneKeepsOnlyTheLast(s: State, peerID: PeerID, addrs: seq<string>, natType: string, hashes: seq<Hash>)
    ensures var t := AnnounceEach(s, peerID, addrs, natType, hashes);
      && t.files == s.files
      && (match LastKnown(s, hashes)
          case None => t == s
          case Some(last) => forall h :: (peerID, h) in t.peerFiles <==> h == last)
      && ((forall h :: h in hashes && h in s.files ==> (peerID, h) in t.peerFiles) <==>
          (forall h :: h in hashes && h in s.files ==> LastKnown(s, hashes) == Some(h)))
    decreases |hashes|
  {
    if hashes != [] {
      var last := |hashes| - 1;
      OneByOneKeepsOnlyTheLast(s, peerID, addrs, natType, hashes[..last]);
      var u := AnnounceEach(s, peerID, addrs, natType, hashes[..last]);
      AnnounceIsAtomic(u, AnnounceRequest(peerID, addrs, [hashes[last]], natType));
    }
  }

  /** `reachable` is written on the first announce only, so it agrees with the
      NAT type after an announce exactly when the row was new or already said
      so. */
  lemma ReachableFollowsNatTypeOnlyIf(s: State, req: AnnounceRequest)
    requires DoAnnounce(s, req).0
    ensures var row := DoAnnounce(s, req).1.peers[req.peerID];
      row.reachable == (row.natType == "open") <==>
        (req.peerID in s.peers ==> s.peers[req.peerID].reachable == (req.natType == "open"))
  {
  }

  /** The store as an object: the operations work step by step on its tables and
      caches.  The clock only moves between operations. */
  class Store {
    var now: int
    var files: map<Hash, FileRow>
    var peers: map<PeerID, PeerRow>
    var peerFiles: set<(PeerID, Hash)>
    var fileCache: map<Hash, Cached<FileRow>>
    var peerCache: map<Hash, Cached<seq<PeerRecord>>>

    function View(): State
      reads this
    {
      State(now, files, peers, peerFiles, fileCache, peerCache)
    }

    constructor (now: int)
      ensures Initial(View()) && this.now == now
    {
      this.now := now;
      files, peers, peerFiles, fileCache, peerCache := map[], map[], {}, map[], map[];
    }

    method RegisterFile(req: RegisterRequest)
      modifies this`files, this`fileCache
      ensures Step(old(View()), Register(req), View())
    {
      var chunks: Option<seq<P.ChunkInfo>> := None;
      if |req.chunks| > 0 {
        chunks := Some(req.chunks);
      }
      var createdAt := if req.hash in files then files[req.hash].createdAt else now;
      files := files[req.hash := FileRow(req.size, req.chunkSize, req.chunkCount, chunks, req.fallbackURL, createdAt, now)];
      fileCache := fileCache - {req.hash};
    }

    method GetFile(h: Hash) returns (file: Option<FileRow>)
      modifies this`fileCache
      ensures Step(old(View()), Op.GetFile(h, file), View())
    {
      if Live(fileCache, h, now) {
        return Some(fileCache[h].value);
      }
      if h !in files {
        return None;
      }
      file := Some(files[h]);
      fileCache := fileCache[h := Cached(files[h], now + FILE_TTL)];
    }

    /** The transaction works on its own copy; an unknown hash violates the
        foreign key and rolls everything back. */
    method AnnouncePeer(req: AnnounceRequest) returns (ok: bool)
      modifies this`peers, this`peerFiles, this`peerCache
      ensures Step(old(View()), Announce(req, ok), View())
    {
      var txPeers := peers[req.peerID := Upserted(View(), req)];
      var txFiles := set pf | pf in peerFiles && pf.0 != req.peerID;
      ghost var kept := txFiles;
      for i := 0 to |req.fileHashes|
        invariant View() == old(View()) && AllKnown(View(), req.fileHashes[..i])
        invariant txFiles == kept + Pairs(req.peerID, req.fileHashes[..i])
      {
        if req.fileHashes[i] !in files {
          return false;
        }
        PairsStep(req.peerID, req.fileHashes, i);
        txFiles := txFiles + {(req.peerID, req.fileHashes[i])};
      }
      assert req.fileHashes[..|req.fileHashes|] == req.fileHashes;
      peers, peerFiles := txPeers, txFiles;
      InvalidatePeers(req.fileHashes);
      return true;
    }

    method InvalidatePeers(hashes: seq<Hash>)
      modifies this`peerCache
      ensures peerCache == old(peerCache) - (set h | h in hashes)
    {
      for i := 0 to |hashes|
        invariant peerCache == old(peerCache) - (set h | h in hashes[..i])
      {
        assert hashes[..i + 1] == hashes[..i] + [hashes[i]];
        peerCache := peerCache - {hashes[i]};
      }
      assert hashes[..|hashes|] == hashes;
    }

    method GetPeers(h: Hash) returns (list: seq<PeerRecord>)
      modifies this`peerCache
      ensures Step(old(View()), Op.GetPeers(h, list), View())
    {
      if Live(peerCache, h, now) {
        return peerCache[h].value;
      }
      list := OrderByLastSeen(Query(View(), h));
      peerCache := peerCache[h := Cached(list, now + PEERS_TTL)];
    }

    method CleanupStalePeers() returns (removed: nat)
      modifies this`peers, this`peerFiles
      ensures Step(old(View()), Cleanup(removed), View())
    {
      var stale := Stale(View());
      removed := |stale|;
      peers := peers - stale;
      peerFiles := set pf | pf in peerFiles && pf.0 !in stale;
    }
  }

  /** ORDER BY last_seen DESC, ties in any order. */
  method OrderByLastSeen(rows: set<PeerRecord>) returns (list: seq<PeerRecord>)
    ensures IsListing(rows, list)
  {
    list := [];
    var todo := rows;
    while todo != {}
      invariant todo <= rows
      invariant forall r :: r in rows ==> r in todo || r in list
      invariant forall r :: r in list ==> r in rows && r !in todo
      invariant forall r, i :: r in todo && 0 <= i < |list| ==> list[i].lastSeen >= r.lastSeen
      invariant forall i, j :: 0 <= i < j < |list| ==> list[i] != list[j] && list[i].lastSeen >= list[j].lastSeen
      decreases todo
    {
      var r := Latest(todo);
      assert forall i :: 0 <= i < |list| ==> list[i] in list;
      list := list + [r];
      todo := todo - {r};
    }
  }

  method Latest(rows: set<PeerRecord>) returns (best: PeerRecord)
    requires rows != {}
    ensures best in rows && forall r :: r in rows ==> r.lastSeen <= best.lastSeen
  {
    best :| best in rows;
    var todo := rows - {best};
    while todo != {}
      invariant todo <= rows && best in rows
      invariant forall r :: r in rows && r !in todo ==> r.lastSeen <= best.lastSeen
      decreases todo
    {
      var r :| r in todo;
      if r.lastSeen > best.lastSeen { best := r; }
      todo := todo - {r};
    }
  }
}
