/** The seeder (pkg/client/seeder.go): seeded files, the reverse index from
    block identifiers to files, the serving statistics, and loading a file into
    the block store.  Operations here run one at a time; SeederInterleaving has
    their lock sections interleaved. */
module SeederModel {
  import opened Wrappers
  import opened Protocol
  import C = ChunkerModel

  datatype FileView = FileView(cids: seq<Cid>, bytesServed: nat, blocksServed: nat)

  datatype SeederView = SeederView(files: map<Digest, FileView>, index: map<Cid, Digest>)

  function Indexed(index: map<Cid, Digest>, cids: seq<Cid>, h: Digest): map<Cid, Digest> {
    index + map c | c in cids :: h
  }

  function Unindexed(index: map<Cid, Digest>, cids: seq<Cid>): map<Cid, Digest> {
    index - set c | c in cids
  }

  lemma IndexedStep(index: map<Cid, Digest>, cids: seq<Cid>, h: Digest, i: nat)
    requires i < |cids|
    ensures Indexed(index, cids[..i + 1], h) == Indexed(index, cids[..i], h)[cids[i] := h]
  {
  }

  lemma UnindexedStep(index: map<Cid, Digest>, cids: seq<Cid>, i: nat)
    requires i < |cids|
    ensures Unindexed(index, cids[..i + 1]) == Unindexed(index, cids[..i]) - {cids[i]}
  {
  }

  lemma IndexedWhole(index: map<Cid, Digest>, cids: seq<Cid>, h: Digest)
    ensures Indexed(index, cids[..0], h) == index && Indexed(index, cids[..|cids|], h) == Indexed(index, cids, h)
    ensures Unindexed(index, cids[..0]) == index && Unindexed(index, cids[..|cids|]) == Unindexed(index, cids)
  {
    assert cids[..|cids|] == cids;
  }

  function Add64(a: nat, b: nat): nat { (a + b) % U64 }

  datatype Op =
    | AddFile(hash: Digest, cids: seq<Cid>)
    | RemoveFile(hash: Digest)
    | UpdateStats(hash: Digest, bytes: nat)
    | RecordBlockServed(cid: Cid, size: nat)

  function Do(v: SeederView, op: Op): SeederView {
    match op
    case AddFile(h, cids) =>
      if h in v.files then v else SeederView(v.files[h := FileView(cids, 0, 0)], Indexed(v.index, cids, h))
    case RemoveFile(h) =>
      if h !in v.files then v else SeederView(v.files - {h}, Unindexed(v.index, v.files[h].cids))
    case UpdateStats(h, n) =>
      if h !in v.files then v
      else v.(files := v.files[h := v.files[h].(bytesServed := Add64(v.files[h].bytesServed, n))])
    case RecordBlockServed(c, n) =>
      if c !in v.index || v.index[c] !in v.files then v
      else
        var h := v.index[c];
        var f := v.files[h];
        v.(files := v.files[h := FileView(f.cids, Add64(f.bytesServed, n), Add64(f.blocksServed, 1))])
  }

  function Run(v: SeederView, ops: seq<Op>): SeederView
    decreases |ops|
  {
    if ops == [] then v else Do(Run(v, ops[..|ops| - 1]), ops[|ops| - 1])
  }

  const EMPTY := SeederView(map[], map[])

  // ---------------------------------------------------------- the reverse index

  /** Every index entry leads to a seeded file that contains the block. */
  predicate Sound(v: SeederView) {
    forall c :: c in v.index ==> v.index[c] in v.files && c in v.files[v.index[c]].cids
  }

  /** Every block of a seeded file leads to that file. */
  predicate Exact(v: SeederView) {
    forall h, c :: h in v.files && c in v.files[h].cids ==> c in v.index && v.index[c] == h
  }

  predicate DisjointFrom(v: SeederView, cids: seq<Cid>) {
    forall h, c :: h in v.files && c in cids ==> c !in v.files[h].cids
  }

  lemma DoKeepsSound(v: SeederView, op: Op)
    requires Sound(v)
    ensures Sound(Do(v, op))
  {
  }

  /** Soundness holds after every run, shared blocks or not. */
  lemma {:induction false} IndexIsAlwaysSound(ops: seq<Op>)
    ensures Sound(Run(EMPTY, ops))
    decreases |ops|
  {
    if ops != [] {
      IndexIsAlwaysSound(ops[..|ops| - 1]);
      DoKeepsSound(Run(EMPTY, ops[..|ops| - 1]), ops[|ops| - 1]);
    }
  }

  /** Adding a new file keeps an exact index exact if and only if the file shares
      no block with a file already seeded. */
  lemma AddKeepsExactIff(v: SeederView, h: Digest, cids: seq<Cid>)
    requires Exact(v) && h !in v.files
    ensures Exact(Do(v, AddFile(h, cids))) <==> DisjointFrom(v, cids)
  {
    var t := Do(v, AddFile(h, cids));
    if Exact(t) {
      forall g, c | g in v.files && c in cids ensures c !in v.files[g].cids {
        assert t.index[c] == h && t.files[g] == v.files[g];
      }
    }
  }

  /** Every file added is disjoint from the files seeded at that time. */
  predicate DisjointAdds(ops: seq<Op>)
    decreases |ops|
  {
    ops == [] ||
    var last := ops[|ops| - 1];
    var before := Run(EMPTY, ops[..|ops| - 1]);
    DisjointAdds(ops[..|ops| - 1]) && (last.AddFile? && last.hash !in before.files ==> DisjointFrom(before, last.cids))
  }

  lemma DoKeepsExact(v: SeederView, op: Op)
    requires Sound(v) && Exact(v)
    requires op.AddFile? && op.hash !in v.files ==> DisjointFrom(v, op.cids)
    ensures Exact(Do(v, op))
  {
    var t := Do(v, op);
    if op.AddFile? && op.hash !in v.files {
      AddKeepsExactIff(v, op.hash, op.cids);
    }
    if op.RemoveFile? && op.hash in v.files {
      forall h, c | h in t.files && c in t.files[h].cids ensures c in t.index && t.index[c] == h {
        assert h in v.files && c in v.files[h].cids && h != op.hash;
        assert v.index[c] == h;
        assert c !in v.files[op.hash].cids;
      }
    }
  }

  /** For disjoint files the index is exactly the union of their blocks, each
      leading to its file. */
  lemma {:induction false} IndexIsExactForDisjointFiles(ops: seq<Op>)
    requires DisjointAdds(ops)
    ensures var v := Run(EMPTY, ops);
      && Exact(v) && Sound(v)
      && forall c :: c in v.index <==> exists h :: h in v.files && c in v.files[h].cids
    decreases |ops|
  {
    IndexIsAlwaysSound(ops);
    if ops != [] {
      IndexIsExactForDisjointFiles(ops[..|ops| - 1]);
      DoKeepsExact(Run(EMPTY, ops[..|ops| - 1]), ops[|ops| - 1]);
    }
  }

  // ------------------------------------------------------ files that share blocks

  /** Every block of every seeded file is in the index, under whatever file. */
  predicate Covered(v: SeederView) {
    forall h, c :: h in v.files && c in v.files[h].cids ==> c in v.index
  }

  predicate SharesNothing(v: SeederView, h: Digest)
    requires h in v.files
  {
    forall g, c :: g in v.files && g != h && c in v.files[g].cids ==> c !in v.files[h].cids
  }

  /** Removing a file keeps the blocks of the others covered if and only if it
      shares no block with another seeded file. */
  lemma RemoveKeepsCoveredIff(v: SeederView, h: Digest)
    requires Covered(v) && h in v.files
    ensures Covered(Do(v, RemoveFile(h))) <==> SharesNothing(v, h)
  {
    var t := Do(v, RemoveFile(h));
    if Covered(t) {
      forall g, c | g in v.files && g != h && c in v.files[g].cids ensures c !in v.files[h].cids {
        assert t.files[g] == v.files[g] && c in t.index;
      }
    }
  }

  /** The operation changes the seeded files at a file that contains the block. */
  predicate Touches(v: SeederView, op: Op, c: Cid) {
    || (op.AddFile? && op.hash !in v.files && c in op.cids)
    || (op.RemoveFile? && op.hash in v.files && c in v.files[op.hash].cids)
  }

  function LastTouch(ops: seq<Op>, c: Cid): (i: Option<nat>)
    ensures i.Some? ==> i.value < |ops| && (ops[i.value].AddFile? || ops[i.value].RemoveFile?)
    decreases |ops|
  {
    if ops == [] then None
    else
      var n := |ops| - 1;
      if Touches(Run(EMPTY, ops[..n]), ops[n], c) then Some(n) else LastTouch(ops[..n], c)
  }

  predicate AddedLast(ops: seq<Op>, c: Cid) {
    LastTouch(ops, c).Some? && ops[LastTouch(ops, c).value].AddFile?
  }

  /** The index after any run, blocks shared or not: a block is indexed if and
      only if the last change of a file that contains it was an add, and then it
      leads to that file. */
  lemma {:induction false} IndexIsLastChange(ops: seq<Op>, c: Cid)
    ensures var index, last := Run(EMPTY, ops).index, LastTouch(ops, c);
      && (c in index <==> AddedLast(ops, c))
      && (c in index ==> index[c] == ops[last.value].hash)
    decreases |ops|
  {
    if ops != [] { IndexIsLastChange(ops[..|ops| - 1], c); }
  }

  /** So the blocks of the seeded files are all indexed if and only if for each
      of them the last such change was an add. */
  lemma {:induction false} CoveredIffAddedLast(ops: seq<Op>)
    ensures var v := Run(EMPTY, ops);
      Covered(v) <==> forall h, c :: h in v.files && c in v.files[h].cids ==> AddedLast(ops, c)
  {
    forall c ensures c in Run(EMPTY, ops).index <==> AddedLast(ops, c) {
      IndexIsLastChange(ops, c);
    }
  }

  lemma RunLast(v: SeederView, ops: seq<Op>, op: Op)
    ensures Run(v, ops + [op]) == Do(Run(v, ops), op)
  {
    assert (ops + [op])[..|ops|] == ops;
  }

  /** Two files with one block between them: removing one leaves the other seeded
      with its block unindexed, and what it serves is credited to nobody. */
  lemma {:induction false} SharedBlockIsLost(a: Digest, b: Digest, c: Cid, size: nat)
    requires a != b
    ensures var v := Run(EMPTY, [AddFile(a, [c]), AddFile(b, [c]), RemoveFile(a)]);
      && b in v.files && c in v.files[b].cids && c !in v.index
      && Do(v, RecordBlockServed(c, size)) == v
  {
    RunLast(EMPTY, [], AddFile(a, [c]));
    RunLast(EMPTY, [] + [AddFile(a, [c])], AddFile(b, [c]));
    RunLast(EMPTY, [] + [AddFile(a, [c])] + [AddFile(b, [c])], RemoveFile(a));
    assert [AddFile(a, [c]), AddFile(b, [c]), RemoveFile(a)] == [] + [AddFile(a, [c])] + [AddFile(b, [c])] + [RemoveFile(a)];
    var u := Do(Do(EMPTY, AddFile(a, [c])), AddFile(b, [c]));
    assert u.files == map[a := FileView([c], 0, 0), b := FileView([c], 0, 0)];
  }

  // --------------------------------------------------------------- conservation

  ghost function TotalBytes(files: map<Digest, FileView>): nat
    decreases |files|
  {
    if files == map[] then 0
    else
      var h :| h in files;
      files[h].bytesServed + TotalBytes(files - {h})
  }

  lemma {:induction false} TotalWithout(files: map<Digest, FileView>, h: Digest)
    requires h in files
    ensures TotalBytes(files) == files[h].bytesServed + TotalBytes(files - {h})
    decreases |files|
  {
    var g :| g in files && TotalBytes(files) == files[g].bytesServed + TotalBytes(files - {g});
    if g != h {
      TotalWithout(files - {g}, h);
      TotalWithout(files - {h}, g);
      assert files - {g} - {h} == files - {h} - {g};
    }
  }

  lemma TotalWith(files: map<Digest, FileView>, h: Digest, f: FileView)
    ensures TotalBytes(files[h := f]) == TotalBytes(files - {h}) + f.bytesServed
  {
    TotalWithout(files[h := f], h);
    assert files[h := f] - {h} == files - {h};
  }

  /** The 64-bit total over the files that are not left to do. */
  ghost function Shown(files: map<Digest, FileView>, todo: set<Digest>): nat {
    TotalBytes(files - todo) % U64
  }

  lemma NothingShown(files: map<Digest, FileView>, todo: set<Digest>)
    requires files.Keys <= todo
    ensures Shown(files, todo) == 0
  {
  }

  lemma StatsStep(files: map<Digest, FileView>, todo: set<Digest>, h: Digest)
    requires todo <= files.Keys && h in todo
    ensures Shown(files, todo - {h}) == (Shown(files, todo) + files[h].bytesServed) % U64
  {
    TotalWithout(files - (todo - {h}), h);
    assert files - (todo - {h}) - {h} == files - todo;
  }

  lemma SameKeysSameSize<K, V, W>(a: map<K, V>, b: map<K, W>)
    requires a.Keys == b.Keys
    ensures |a| == |b|
  {
  }

  /** What an operation credits, and what it carries away with a file. */
  function Credit(v: SeederView, op: Op): nat {
    match op
    case UpdateStats(h, n) => if h in v.files then n else 0
    case RecordBlockServed(c, n) => if c in v.index && v.index[c] in v.files then n else 0
    case _ => 0
  }

  function CarriedAway(v: SeederView, op: Op): nat {
    if op.RemoveFile? && op.hash in v.files then v.files[op.hash].bytesServed else 0
  }

  function AllCredits(ops: seq<Op>): nat
    decreases |ops|
  {
    if ops == [] then 0
    else AllCredits(ops[..|ops| - 1]) + Credit(Run(EMPTY, ops[..|ops| - 1]), ops[|ops| - 1])
  }

  function AllCarriedAway(ops: seq<Op>): nat
    decreases |ops|
  {
    if ops == [] then 0
    else AllCarriedAway(ops[..|ops| - 1]) + CarriedAway(Run(EMPTY, ops[..|ops| - 1]), ops[|ops| - 1])
  }

  lemma AddWraps(rest: nat, a: nat, n: nat, credits: int, gone: int)
    requires (rest + a + gone - credits) % U64 == 0
    ensures (rest + Add64(a, n) + gone - (credits + n)) % U64 == 0
  {
  }

  lemma DoConserves(v: SeederView, op: Op, credits: int, gone: int)
    requires (TotalBytes(v.files) + gone - credits) % U64 == 0
    ensures (TotalBytes(Do(v, op).files) + (gone + CarriedAway(v, op)) - (credits + Credit(v, op))) % U64 == 0
  {
    match op
    case AddFile(h, cids) =>
      if h !in v.files {
        TotalWith(v.files, h, FileView(cids, 0, 0));
        assert v.files - {h} == v.files;
      }
    case RemoveFile(h) => if h in v.files { TotalWithout(v.files, h); }
    case UpdateStats(h, n) =>
      if h in v.files {
        TotalWithout(v.files, h);
        TotalWith(v.files, h, Do(v, op).files[h]);
        AddWraps(TotalBytes(v.files - {h}), v.files[h].bytesServed, n, credits, gone);
      }
    case RecordBlockServed(c, n) =>
      if c in v.index && v.index[c] in v.files {
        var h := v.index[c];
        TotalWithout(v.files, h);
        TotalWith(v.files, h, Do(v, op).files[h]);
        AddWraps(TotalBytes(v.files - {h}), v.files[h].bytesServed, n, credits, gone);
      }
  }

  /** Conservation over every run, in 64-bit arithmetic: the bytes shown for the
      seeded files are all bytes credited less those that left with removed
      files. */
  lemma {:induction false} BytesAreConserved(ops: seq<Op>)
    ensures (TotalBytes(Run(EMPTY, ops).files) + AllCarriedAway(ops) - AllCredits(ops)) % U64 == 0
    decreases |ops|
  {
    if ops != [] {
      var init := ops[..|ops| - 1];
      BytesAreConserved(init);
      DoConserves(Run(EMPTY, init), ops[|ops| - 1], AllCredits(init), AllCarriedAway(init));
    }
  }

  // ------------------------------------------- the counters, from the operations

  /** What the operations alone say about a file: its identifiers if it is seeded,
      by the first add since it was last removed. */
  function SeededAs(ops: seq<Op>, h: Digest): Option<seq<Cid>>
    decreases |ops|
  {
    if ops == [] then None
    else
      var before, op := SeededAs(ops[..|ops| - 1], h), ops[|ops| - 1];
      if op == RemoveFile(h) then None
      else if op.AddFile? && op.hash == h && before == None then Some(op.cids)
      else before
  }

  /** The file that a block is credited to: the one whose change was the last at
      that block, if that was an add. */
  function LeadsTo(ops: seq<Op>, c: Cid): Option<Digest>
    decreases |ops|
  {
    if ops == [] then None
    else
      var init, op := ops[..|ops| - 1], ops[|ops| - 1];
      if op.AddFile? && SeededAs(init, op.hash) == None && c in op.cids then Some(op.hash)
      else if op.RemoveFile? && SeededAs(init, op.hash).Some? && c in SeededAs(init, op.hash).value then None
      else LeadsTo(init, c)
  }

  /** The bytes and blocks that an operation credits to a file. */
  function Gained(init: seq<Op>, op: Op, h: Digest): (nat, nat) {
    if op.UpdateStats? && op.hash == h then (op.bytes, 0)
    else if op.RecordBlockServed? && LeadsTo(init, op.cid) == Some(h) then (op.size, 1)
    else (0, 0)
  }

  /** Bytes and blocks served of a file since it was added. */
  function ServedSince(ops: seq<Op>, h: Digest): (nat, nat)
    decreases |ops|
  {
    if ops == [] then (0, 0)
    else
      var init := ops[..|ops| - 1];
      var before, gain := ServedSince(init, h), Gained(init, ops[|ops| - 1], h);
      if SeededAs(init, h) == None || SeededAs(ops, h) == None then (0, 0) else (before.0 + gain.0, before.1 + gain.1)
  }

  lemma {:induction false} SeededIsOperations(ops: seq<Op>, h: Digest)
    ensures var files := Run(EMPTY, ops).files;
      && (h in files <==> SeededAs(ops, h).Some?)
      && (h in files ==> files[h].cids == SeededAs(ops, h).value)
    decreases |ops|
  {
    if ops != [] { SeededIsOperations(ops[..|ops| - 1], h); }
  }

  lemma {:induction false} IndexIsOperations(ops: seq<Op>, c: Cid)
    ensures var index := Run(EMPTY, ops).index;
      && (c in index <==> LeadsTo(ops, c).Some?)
      && (c in index ==> index[c] == LeadsTo(ops, c).value)
    decreases |ops|
  {
    if ops != [] {
      var op := ops[|ops| - 1];
      IndexIsOperations(ops[..|ops| - 1], c);
      if op.AddFile? || op.RemoveFile? { SeededIsOperations(ops[..|ops| - 1], op.hash); }
    }
  }

  lemma WrapsOn(total: nat, n: nat)
    ensures (total % U64 + n) % U64 == (total + n) % U64
  {
  }

  lemma DoGains(v: SeederView, op: Op, h: Digest, gain: (nat, nat))
    requires h in v.files && h in Do(v, op).files && v.files[h].bytesServed < U64 && v.files[h].blocksServed < U64
    requires gain == if op.UpdateStats? && op.hash == h then (op.bytes, 0)
                     else if op.RecordBlockServed? && op.cid in v.index && v.index[op.cid] == h then (op.size, 1) else (0, 0)
    ensures Do(v, op).files[h].bytesServed == (v.files[h].bytesServed + gain.0) % U64
    ensures Do(v, op).files[h].blocksServed == (v.files[h].blocksServed + gain.1) % U64
  {
    SmallMod(v.files[h].bytesServed, U64);
    SmallMod(v.files[h].blocksServed, U64);
  }

  lemma {:induction false} CountersAreOperations(ops: seq<Op>, h: Digest)
    ensures var files := Run(EMPTY, ops).files;
      h in files ==> files[h].bytesServed == ServedSince(ops, h).0 % U64 && files[h].blocksServed == ServedSince(ops, h).1 % U64
    decreases |ops|
  {
    if ops != [] {
      var init, op := ops[..|ops| - 1], ops[|ops| - 1];
      CountersAreOperations(init, h);
      SeededIsOperations(init, h);
      SeededIsOperations(ops, h);
      if op.RecordBlockServed? { IndexIsOperations(init, op.cid); }
      var v := Run(EMPTY, init);
      if h in v.files && h in Do(v, op).files {
        DoGains(v, op, h, Gained(init, op, h));
        WrapsOn(ServedSince(init, h).0, Gained(init, op, h).0);
        WrapsOn(ServedSince(init, h).1, Gained(init, op, h).1);
      }
    }
  }

  /** The whole seeder after any run, from the operations alone: which files are
      seeded with which identifiers, where each block leads, and what was served
      of each file since it was added, in 64-bit arithmetic. */
  lemma {:induction false} SeederIsItsOperations(ops: seq<Op>, h: Digest, c: Cid)
    ensures var v := Run(EMPTY, ops);
      && (h in v.files <==> SeededAs(ops, h).Some?)
      && (h in v.files ==>
            && v.files[h].cids == SeededAs(ops, h).value
            && v.files[h].bytesServed == ServedSince(ops, h).0 % U64
            && v.files[h].blocksServed == ServedSince(ops, h).1 % U64)
      && (c in v.index <==> LeadsTo(ops, c).Some?)
      && (c in v.index ==> v.index[c] == LeadsTo(ops, c).value)
  {
    SeededIsOperations(ops, h);
    IndexIsOperations(ops, c);
    CountersAreOperations(ops, h);
  }

  // --------------------------------------------------- loading into the store

  predicate StoreSound(hash: HashFunction, blocks: map<Cid, Bytes>) {
    forall c :: c in blocks ==> hash(blocks[c]) == c.digest
  }

  /** The block read for chunk `i`, from the file as it is at that moment. */
  function Reread(chunks: seq<ChunkInfo>, later: nat -> Bytes, i: nat): Result<Bytes, string>
    requires i < |chunks|
  {
    C.ReadChunk(later(i), chunks[i].offset, chunks[i].size)
  }

  /** The store after chunk `i`: a block already there is skipped. */
  function LoadedStep(chunks: seq<ChunkInfo>, later: nat -> Bytes, b: map<Cid, Bytes>, i: nat): map<Cid, Bytes>
    requires i < |chunks|
  {
    var c := Cid(chunks[i].hash);
    if c in b || Reread(chunks, later, i).Err? then b else b[c := Reread(chunks, later, i).value]
  }

  /** The store after the first `n` chunks. */
  function Loaded(chunks: seq<ChunkInfo>, later: nat -> Bytes, blocks: map<Cid, Bytes>, n: nat): map<Cid, Bytes>
    requires n <= |chunks|
  {
    if n == 0 then blocks else LoadedStep(chunks, later, Loaded(chunks, later, blocks, n - 1), n - 1)
  }

  /** Chunk `i` is put into the store. */
  predicate Puts(chunks: seq<ChunkInfo>, later: nat -> Bytes, blocks: map<Cid, Bytes>, i: nat)
    requires i < |chunks|
  {
    Cid(chunks[i].hash) !in Loaded(chunks, later, blocks, i) && Reread(chunks, later, i).Ok?
  }

  /** Loading only adds blocks. */
  lemma {:induction false} LoadOnlyAdds(chunks: seq<ChunkInfo>, later: nat -> Bytes, blocks: map<Cid, Bytes>, n: nat)
    requires n <= |chunks|
    ensures forall c :: c in blocks ==> c in Loaded(chunks, later, blocks, n) && Loaded(chunks, later, blocks, n)[c] == blocks[c]
    decreases n
  {
    if n > 0 { LoadOnlyAdds(chunks, later, blocks, n - 1); }
  }

  lemma PutKeepsSoundIff(hash: HashFunction, b: map<Cid, Bytes>, c: Cid, x: Bytes)
    requires c !in b
    ensures StoreSound(hash, b[c := x]) <==> StoreSound(hash, b) && hash(x) == c.digest
  {
  }

  /** Chunk `i`, if it is put, still has the digest computed on its first reading. */
  predicate PutIsRight(hash: HashFunction, chunks: seq<ChunkInfo>, later: nat -> Bytes, blocks: map<Cid, Bytes>, i: nat)
    requires i < |chunks|
  {
    Puts(chunks, later, blocks, i) ==> hash(Reread(chunks, later, i).value) == chunks[i].hash
  }

  lemma LoadedSoundStep(hash: HashFunction, chunks: seq<ChunkInfo>, later: nat -> Bytes, blocks: map<Cid, Bytes>, n: nat)
    requires 0 < n <= |chunks|
    ensures StoreSound(hash, Loaded(chunks, later, blocks, n)) <==>
      StoreSound(hash, Loaded(chunks, later, blocks, n - 1)) && PutIsRight(hash, chunks, later, blocks, n - 1)
  {
    LoadedLast(chunks, later, blocks, n);
    if Puts(chunks, later, blocks, n - 1) {
      PutKeepsSoundIff(hash, Loaded(chunks, later, blocks, n - 1), Cid(chunks[n - 1].hash), Reread(chunks, later, n - 1).value);
    }
  }

  lemma {:induction false} LoadedSoundIff(hash: HashFunction, chunks: seq<ChunkInfo>, later: nat -> Bytes, blocks: map<Cid, Bytes>, n: nat)
    requires n <= |chunks| && StoreSound(hash, blocks)
    ensures StoreSound(hash, Loaded(chunks, later, blocks, n)) <==>
      forall i :: 0 <= i < n ==> PutIsRight(hash, chunks, later, blocks, i)
    decreases n
  {
    if n > 0 {
      LoadedSoundIff(hash, chunks, later, blocks, n - 1);
      LoadedSoundStep(hash, chunks, later, blocks, n);
    }
  }

  lemma LoadedLast(chunks: seq<ChunkInfo>, later: nat -> Bytes, blocks: map<Cid, Bytes>, n: nat)
    requires 0 < n <= |chunks|
    ensures var b := Loaded(chunks, later, blocks, n - 1);
      Loaded(chunks, later, blocks, n) ==
        if Puts(chunks, later, blocks, n - 1) then b[Cid(chunks[n - 1].hash) := Reread(chunks, later, n - 1).value] else b
  {
  }

  /** How the store can fail at a chunk: before anything is written (the lookup,
      a cancellation, the directory), or in the middle of writing the block, which
      leaves that much of it under the identifier. */
  datatype StoreFault = LookupFails(chunk: nat) | PutRefused(chunk: nat) | PutTorn(chunk: nat, written: nat)

  /** Loading ends with an error at chunk `i`, if it gets there. */
  predicate StopsAt(chunks: seq<ChunkInfo>, later: nat -> Bytes, blocks: map<Cid, Bytes>, fault: Option<StoreFault>, i: nat)
    requires i < |chunks|
  {
    || fault == Some(LookupFails(i))
    || (Cid(chunks[i].hash) !in Loaded(chunks, later, blocks, i) &&
        (Reread(chunks, later, i).Err? || (fault.Some? && fault.value.chunk == i)))
  }

  /** The first chunk from `i` on at which loading stops, or the end. */
  function Stop(chunks: seq<ChunkInfo>, later: nat -> Bytes, blocks: map<Cid, Bytes>, fault: Option<StoreFault>, i: nat): (n: nat)
    requires i <= |chunks|
    ensures i <= n <= |chunks|
    ensures forall j :: i <= j < n ==> !StopsAt(chunks, later, blocks, fault, j)
    ensures n < |chunks| ==> StopsAt(chunks, later, blocks, fault, n)
    decreases |chunks| - i
  {
    if i == |chunks| || StopsAt(chunks, later, blocks, fault, i) then i else Stop(chunks, later, blocks, fault, i + 1)
  }

  /** Chunk `n` is written in part. */
  predicate Tears(chunks: seq<ChunkInfo>, later: nat -> Bytes, blocks: map<Cid, Bytes>, fault: Option<StoreFault>, n: nat)
    requires n < |chunks|
  {
    Puts(chunks, later, blocks, n) && fault.Some? && fault.value.PutTorn? && fault.value.chunk == n
  }

  function Torn(chunks: seq<ChunkInfo>, later: nat -> Bytes, fault: StoreFault): Bytes
    requires fault.PutTorn? && fault.chunk < |chunks| && Reread(chunks, later, fault.chunk).Ok?
  {
    var block := Reread(chunks, later, fault.chunk).value;
    block[..Min(fault.written, |block|)]
  }

  /** What loading leaves in the store, and whether it succeeds. */
  function LoadEnd(chunks: seq<ChunkInfo>, later: nat -> Bytes, blocks: map<Cid, Bytes>, fault: Option<StoreFault>): (map<Cid, Bytes>, bool) {
    var n := Stop(chunks, later, blocks, fault, 0);
    var b := Loaded(chunks, later, blocks, n);
    if n == |chunks| then (b, true)
    else if Tears(chunks, later, blocks, fault, n) then (b[Cid(chunks[n].hash) := Torn(chunks, later, fault.value)], false)
    else (b, false)
  }

  /** The first chunk with its identifier, which the store does not have yet. */
  predicate IsNew(chunks: seq<ChunkInfo>, blocks: map<Cid, Bytes>, i: nat)
    requires i < |chunks|
  {
    Cid(chunks[i].hash) !in blocks && forall j :: 0 <= j < i ==> chunks[j].hash != chunks[i].hash
  }

  lemma {:induction false} LoadedKeys(chunks: seq<ChunkInfo>, later: nat -> Bytes, blocks: map<Cid, Bytes>, fault: Option<StoreFault>, n: nat, c: Cid)
    requires n <= |chunks|
    ensures c in Loaded(chunks, later, blocks, n) ==> c in blocks || exists j :: 0 <= j < n && Cid(chunks[j].hash) == c
    ensures (forall j :: 0 <= j < n ==> !StopsAt(chunks, later, blocks, fault, j)) && (exists j :: 0 <= j < n && Cid(chunks[j].hash) == c) ==>
      c in Loaded(chunks, later, blocks, n)
    decreases n
  {
    if n > 0 {
      LoadedKeys(chunks, later, blocks, fault, n - 1, c);
      LoadedLast(chunks, later, blocks, n);
      if (forall j :: 0 <= j < n ==> !StopsAt(chunks, later, blocks, fault, j)) && Cid(chunks[n - 1].hash) == c {
        assert !StopsAt(chunks, later, blocks, fault, n - 1);
      }
    }
  }

  /** No lookup fails at chunk `i`, and if it is new, the bytes at its offset can
      be read and the store takes them. */
  predicate ChunkLoads(chunks: seq<ChunkInfo>, blocks: map<Cid, Bytes>, fault: Option<StoreFault>, i: nat)
    requires i < |chunks|
  {
    && fault != Some(LookupFails(i))
    && (IsNew(chunks, blocks, i) ==> chunks[i].offset < I64 && !(fault.Some? && fault.value.chunk == i))
  }

  /** When a load succeeds, exactly: chunks that are there already or repeat one
      before are not even read. */
  lemma {:induction false} LoadSucceedsIff(chunks: seq<ChunkInfo>, later: nat -> Bytes, blocks: map<Cid, Bytes>, fault: Option<StoreFault>)
    ensures LoadEnd(chunks, later, blocks, fault).1 <==> forall i :: 0 <= i < |chunks| ==> ChunkLoads(chunks, blocks, fault, i)
  {
    var n := Stop(chunks, later, blocks, fault, 0);
    if n == |chunks| {
      forall i | 0 <= i < |chunks| ensures ChunkLoads(chunks, blocks, fault, i) {
        assert !StopsAt(chunks, later, blocks, fault, i);
        LoadedKeys(chunks, later, blocks, fault, i, Cid(chunks[i].hash));
      }
    } else {
      assert StopsAt(chunks, later, blocks, fault, n);
      if fault != Some(LookupFails(n)) {
        forall j | 0 <= j < n ensures chunks[j].hash != chunks[n].hash {
          LoadedKeys(chunks, later, blocks, fault, n, Cid(chunks[j].hash));
        }
        LoadOnlyAdds(chunks, later, blocks, n);
        assert IsNew(chunks, blocks, n);
      }
      assert !ChunkLoads(chunks, blocks, fault, n);
    }
  }

  /** The blocks are not checked when they are put.  For every file, store and
      fault the store stays sound exactly when every chunk that is put still has,
      on its second reading, the digest computed on the first, and a torn block,
      if the disk leaves one, has it too. */
  lemma {:induction false} LoadKeepsStoreSoundIff(hash: HashFunction, chunks: seq<ChunkInfo>, later: nat -> Bytes, blocks: map<Cid, Bytes>, fault: Option<StoreFault>)
    requires StoreSound(hash, blocks)
    ensures var n := Stop(chunks, later, blocks, fault, 0);
      StoreSound(hash, LoadEnd(chunks, later, blocks, fault).0) <==>
        && (forall i :: 0 <= i < n ==> PutIsRight(hash, chunks, later, blocks, i))
        && (n < |chunks| && Tears(chunks, later, blocks, fault, n) ==> hash(Torn(chunks, later, fault.value)) == chunks[n].hash)
  {
    var n := Stop(chunks, later, blocks, fault, 0);
    LoadedSoundIff(hash, chunks, later, blocks, n);
    if n < |chunks| && Tears(chunks, later, blocks, fault, n) {
      PutKeepsSoundIff(hash, Loaded(chunks, later, blocks, n), Cid(chunks[n].hash), Torn(chunks, later, fault.value));
    }
  }

  /** A load never replaces a block, right or wrong. */
  lemma {:induction false} LoadReplacesNothing(chunks: seq<ChunkInfo>, later: nat -> Bytes, blocks: map<Cid, Bytes>, fault: Option<StoreFault>)
    ensures var b := LoadEnd(chunks, later, blocks, fault).0; forall c :: c in blocks ==> c in b && b[c] == blocks[c]
  {
    LoadOnlyAdds(chunks, later, blocks, Stop(chunks, later, blocks, fault, 0));
  }

  lemma {:induction false} ReadableNeverStops(chunks: seq<ChunkInfo>, later: nat -> Bytes, blocks: map<Cid, Bytes>, fault: Option<StoreFault>, i: nat)
    requires i <= |chunks| && forall j :: 0 <= j < |chunks| ==> Reread(chunks, later, j).Ok?
    ensures fault == None ==> Stop(chunks, later, blocks, fault, i) == |chunks|
    ensures fault.Some? && fault.value.PutTorn? && i <= fault.value.chunk < |chunks| && Puts(chunks, later, blocks, fault.value.chunk) ==>
      Stop(chunks, later, blocks, fault, i) == fault.value.chunk
    decreases |chunks| - i
  {
    if i < |chunks| && !StopsAt(chunks, later, blocks, fault, i) { ReadableNeverStops(chunks, later, blocks, fault, i + 1); }
  }

  /** A torn block is never repaired: when a full disk cuts a put short, the load
      fails; the next load of the same unchanged file, with the disk in order
      again, finds the identifier taken, succeeds, and leaves the wrong block. */
  lemma {:induction false} TornBlockIsNeverRepaired(
      hash: HashFunction, m: FileMetadata, data: Bytes, later: nat -> Bytes, blocks: map<Cid, Bytes>, k: nat, written: nat)
    requires C.Describes(m, hash, data) && |data| < I64
    requires forall i: nat :: i < |m.chunks| ==> later(i) == data
    requires k < |m.chunks| && Puts(m.chunks, later, blocks, k)
    requires hash(Torn(m.chunks, later, PutTorn(k, written))) != m.chunks[k].hash
    ensures var first := LoadEnd(m.chunks, later, blocks, Some(PutTorn(k, written)));
      var second := LoadEnd(m.chunks, later, first.0, None);
      && !first.1 && second.1
      && Cid(m.chunks[k].hash) in second.0 && second.0[Cid(m.chunks[k].hash)] == Torn(m.chunks, later, PutTorn(k, written))
      && !StoreSound(hash, second.0)
  {
    forall i | 0 <= i < |m.chunks| ensures Reread(m.chunks, later, i).Ok? {
      C.ReadChunkCutsPiece(m, hash, data, i);
    }
    ReadableNeverStops(m.chunks, later, blocks, Some(PutTorn(k, written)), 0);
    var first := LoadEnd(m.chunks, later, blocks, Some(PutTorn(k, written)));
    ReadableNeverStops(m.chunks, later, first.0, None, 0);
    LoadReplacesNothing(m.chunks, later, first.0, None);
  }

  /** Such a file exists for every byte whose digest is not that of nothing. */
  lemma {:induction false} OneByteFileStaysTorn(hash: HashFunction, b: Byte, later: nat -> Bytes)
    requires hash([]) != hash([b]) && later(0) == [b]
    ensures var m := FileMetadata(hash([b]), 1, 1, 1, [ChunkInfo(hash([b]), 0, 1, 0)], "");
      var torn: map<Cid, Bytes> := map[Cid(hash([b])) := []];
      && C.Describes(m, hash, [b])
      && LoadEnd(m.chunks, later, map[], Some(PutTorn(0, 0))) == (torn, false)
      && LoadEnd(m.chunks, later, torn, None) == (torn, true)
  {
    var m := FileMetadata(hash([b]), 1, 1, 1, [ChunkInfo(hash([b]), 0, 1, 0)], "");
    var torn: map<Cid, Bytes> := map[Cid(hash([b])) := []];
    assert Piece([b], 1, 0) == [b];
    assert Reread(m.chunks, later, 0) == Ok([b]);
    assert Torn(m.chunks, later, PutTorn(0, 0)) == [];
    assert Stop(m.chunks, later, torn, None, 0) == Stop(m.chunks, later, torn, None, 1) == 1;
    assert Loaded(m.chunks, later, torn, 1) == torn;
  }

  /** Bytes that collide with no piece of the file. */
  predicate Clean(hash: HashFunction, m: FileMetadata, data: Bytes, x: Bytes) {
    forall i :: 0 <= i < |m.chunks| ==>
      Offset(i, m.chunkSize) <= |data| && NoCollision(hash, x, Piece(data, m.chunkSize, i))
  }

  predicate AllClean(hash: HashFunction, m: FileMetadata, data: Bytes, blocks: map<Cid, Bytes>) {
    forall c :: c in blocks ==> Clean(hash, m, data, blocks[c])
  }

  /** The store holds the first `n` pieces of the file under their identifiers. */
  predicate HasPieces(m: FileMetadata, data: Bytes, b: map<Cid, Bytes>, n: nat) {
    && n <= |m.chunks|
    && forall i :: 0 <= i < n ==>
         && Offset(i, m.chunkSize) <= |data|
         && Cid(m.chunks[i].hash) in b && b[Cid(m.chunks[i].hash)] == Piece(data, m.chunkSize, i)
  }

  predicate StoreOk(hash: HashFunction, m: FileMetadata, data: Bytes, b: map<Cid, Bytes>, n: nat) {
    StoreSound(hash, b) && AllClean(hash, m, data, b) && HasPieces(m, data, b, n)
  }

  /** Every chunk, read again, is the piece that its digest describes, and no two
      pieces collide. */
  predicate Rereads(hash: HashFunction, m: FileMetadata, data: Bytes, later: nat -> Bytes) {
    forall i :: 0 <= i < |m.chunks| ==>
      && Offset(i, m.chunkSize) <= |data|
      && Reread(m.chunks, later, i) == Ok(Piece(data, m.chunkSize, i))
      && hash(Piece(data, m.chunkSize, i)) == m.chunks[i].hash
      && Clean(hash, m, data, Piece(data, m.chunkSize, i))
  }

  /** On success for a file that did not change, the store is sound and holds
      every block of the file as cut at its offset, blocks that were already
      there included, unless they collide with a piece of the file. */
  lemma LoadCompletesStore(hash: HashFunction, m: FileMetadata, data: Bytes, later: nat -> Bytes, blocks: map<Cid, Bytes>)
    requires C.Describes(m, hash, data) && |data| < I64
    requires forall i: nat :: i < |m.chunks| ==> later(i) == data
    requires StoreSound(hash, blocks) && AllClean(hash, m, data, blocks)
    requires forall i :: 0 <= i < |m.chunks| ==>
      Offset(i, m.chunkSize) <= |data| && Clean(hash, m, data, Piece(data, m.chunkSize, i))
    ensures StoreOk(hash, m, data, Loaded(m.chunks, later, blocks, |m.chunks|), |m.chunks|)
  {
    forall i | 0 <= i < |m.chunks|
      ensures Reread(m.chunks, later, i) == Ok(Piece(data, m.chunkSize, i)) && hash(Piece(data, m.chunkSize, i)) == m.chunks[i].hash
    {
      C.ReadChunkCutsPiece(m, hash, data, i);
    }
    var p := (b: map<Cid, Bytes>, i: nat) => StoreOk(hash, m, data, b, i);
    forall b, i: nat | i < |m.chunks| && p(b, i) ensures p(LoadedStep(m.chunks, later, b, i), i + 1) {
      StoreStep(hash, m, data, later, b, i);
    }
    LoadingKeeps(m.chunks, later, blocks, |m.chunks|, p);
  }

  /** What every step of loading keeps holds after loading. */
  lemma {:induction false} LoadingKeeps(chunks: seq<ChunkInfo>, later: nat -> Bytes, blocks: map<Cid, Bytes>, n: nat, p: (map<Cid, Bytes>, nat) -> bool)
    requires n <= |chunks| && p(blocks, 0)
    requires forall b, i: nat :: i < |chunks| && p(b, i) ==> p(LoadedStep(chunks, later, b, i), i + 1)
    ensures p(Loaded(chunks, later, blocks, n), n)
    decreases n
  {
    if n > 0 { LoadingKeeps(chunks, later, blocks, n - 1, p); }
  }

  lemma StoreStep(hash: HashFunction, m: FileMetadata, data: Bytes, later: nat -> Bytes, b: map<Cid, Bytes>, i: nat)
    requires Rereads(hash, m, data, later) && i < |m.chunks| && StoreOk(hash, m, data, b, i)
    ensures StoreOk(hash, m, data, LoadedStep(m.chunks, later, b, i), i + 1)
  {
  }

  // ------------------------------------------------------------ the seeder object

  class SeedingFile {
    const cids: seq<Cid>
    var bytesServed: nat
    var blocksServed: nat

    constructor (cids: seq<Cid>)
      ensures this.cids == cids && bytesServed == blocksServed == 0
    {
      this.cids, bytesServed, blocksServed := cids, 0, 0;
    }
  }

  class BlockStore {
    var blocks: map<Cid, Bytes>

    /** Put the blocks that are missing, each read again from the file. */
    method LoadBlocks(chunks: seq<ChunkInfo>, later: nat -> Bytes, fault: Option<StoreFault>) returns (ok: bool)
      modifies this
      ensures (blocks, ok) == LoadEnd(chunks, later, old(blocks), fault)
    {
      for i := 0 to |chunks|
        invariant blocks == Loaded(chunks, later, old(blocks), i)
        invariant Stop(chunks, later, old(blocks), fault, 0) == Stop(chunks, later, old(blocks), fault, i)
      {
        if fault == Some(LookupFails(i)) { return false; }
        var c := Cid(chunks[i].hash);
        if c in blocks { continue; }
        var block := C.ReadChunk(later(i), chunks[i].offset, chunks[i].size);
        if block.Err? { return false; }
        ok := Put(c, block.value, if fault.Some? && fault.value.chunk == i then fault else None);
        if !ok { return false; }
      }
      return true;
    }

    /** os.WriteFile: nothing, a part, or all of the block. */
    method Put(c: Cid, data: Bytes, fault: Option<StoreFault>) returns (ok: bool)
      requires fault.Some? ==> !fault.value.LookupFails?
      modifies this
      ensures ok <==> fault == None
      ensures blocks == match fault
        case None => old(blocks)[c := data]
        case Some(PutTorn(_, written)) => old(blocks)[c := data[..Min(written, |data|)]]
        case Some(_) => old(blocks)
    {
      match fault {
        case None => blocks := blocks[c := data]; return true;
        case Some(PutTorn(_, written)) => blocks := blocks[c := data[..Min(written, |data|)]]; return false;
        case Some(_) => return false;
      }
    }
  }

  class Seeder {
    var seedingFiles: map<Digest, SeedingFile>
    var cidIndex: map<Cid, Digest>

    ghost predicate Valid()
      reads this
    {
      forall g, h :: g in seedingFiles && h in seedingFiles && seedingFiles[g] == seedingFiles[h] ==> g == h
    }

    ghost function View(): SeederView
      reads this, seedingFiles.Values
    {
      SeederView(
        map h | h in seedingFiles :: FileView(seedingFiles[h].cids, seedingFiles[h].bytesServed, seedingFiles[h].blocksServed),
        cidIndex)
    }

    constructor ()
      ensures Valid() && View() == EMPTY
    {
      seedingFiles, cidIndex := map[], map[];
    }

    method AddFile(hash: Digest, chunks: seq<ChunkInfo>)
      requires Valid()
      modifies this
      ensures Valid() && View() == Do(old(View()), Op.AddFile(hash, ChunkCIDs(chunks)))
      ensures forall f :: f in seedingFiles.Values ==> f in old(seedingFiles).Values || fresh(f)
    {
      var cids := ChunkCIDs(chunks);
      if hash in seedingFiles { return; }
      AddEntry(hash, cids);
      IndexBlocks(cids, hash);
    }

    /** The first lock section. */
    method AddEntry(hash: Digest, cids: seq<Cid>)
      requires Valid() && hash !in seedingFiles
      modifies this`seedingFiles
      ensures Valid()
      ensures View().files == old(View()).files[hash := FileView(cids, 0, 0)]
      ensures forall f :: f in seedingFiles.Values ==> f in old(seedingFiles).Values || fresh(f)
    {
      var f := new SeedingFile(cids);
      seedingFiles := seedingFiles[hash := f];
    }

    method IndexBlocks(cids: seq<Cid>, hash: Digest)
      modifies this`cidIndex
      ensures cidIndex == Indexed(old(cidIndex), cids, hash)
    {
      IndexedWhole(cidIndex, cids, hash);
      for i := 0 to |cids|
        invariant cidIndex == Indexed(old(cidIndex), cids[..i], hash)
      {
        IndexedStep(old(cidIndex), cids, hash, i);
        cidIndex := cidIndex[cids[i] := hash];
      }
    }

    method UnindexBlocks(cids: seq<Cid>)
      modifies this`cidIndex
      ensures cidIndex == Unindexed(old(cidIndex), cids)
    {
      IndexedWhole(cidIndex, cids, []);
      for i := 0 to |cids|
        invariant cidIndex == Unindexed(old(cidIndex), cids[..i])
      {
        UnindexedStep(old(cidIndex), cids, i);
        cidIndex := cidIndex - {cids[i]};
      }
    }

    method RemoveFile(hash: Digest) returns (ok: bool)
      requires Valid()
      modifies this
      ensures Valid() && View() == Do(old(View()), Op.RemoveFile(hash))
      ensures ok <==> hash in old(seedingFiles)
    {
      if hash !in seedingFiles { return false; }
      var cids := seedingFiles[hash].cids;
      seedingFiles := seedingFiles - {hash};
      UnindexBlocks(cids);
      assert View().files == Do(old(View()), Op.RemoveFile(hash)).files;
      return true;
    }

    method UpdateStats(hash: Digest, bytes: nat)
      requires Valid()
      modifies seedingFiles.Values
      ensures Valid() && View() == Do(old(View()), Op.UpdateStats(hash, bytes))
    {
      if hash in seedingFiles {
        var f := seedingFiles[hash];
        f.bytesServed := (f.bytesServed + bytes) % U64;
        assert View().files == Do(old(View()), Op.UpdateStats(hash, bytes)).files;
      }
    }

    method RecordBlockServed(c: Cid, size: nat)
      requires Valid()
      modifies seedingFiles.Values
      ensures Valid() && View() == Do(old(View()), Op.RecordBlockServed(c, size))
    {
      if c !in cidIndex { return; }
      var hash := cidIndex[c];
      if hash in seedingFiles {
        var f := seedingFiles[hash];
        f.bytesServed := (f.bytesServed + size) % U64;
        f.blocksServed := (f.blocksServed + 1) % U64;
        assert View().files == Do(old(View()), Op.RecordBlockServed(c, size)).files;
      }
    }

    method SumServed(ghost files: map<Digest, FileView>) returns (bytesServed: nat)
      requires files.Keys == seedingFiles.Keys
      requires forall h :: h in files ==> files[h].bytesServed == seedingFiles[h].bytesServed
      ensures bytesServed == Shown(files, {})
    {
      bytesServed := 0;
      var todo := seedingFiles.Keys;
      NothingShown(files, todo);
      while todo != {}
        invariant todo <= files.Keys
        invariant bytesServed == Shown(files, todo)
        decreases todo
      {
        var h :| h in todo;
        StatsStep(files, todo, h);
        bytesServed := (bytesServed + seedingFiles[h].bytesServed) % U64;
        todo := todo - {h};
      }
    }

    /** The totals shown to the user. */
    method GetStats() returns (filesSeeding: nat, bytesServed: nat)
      requires Valid()
      ensures filesSeeding == |View().files|
      ensures bytesServed == Shown(View().files, {})
    {
      ghost var files := View().files;
      bytesServed := SumServed(files);
      filesSeeding := |seedingFiles|;
      SameKeysSameSize(seedingFiles, files);
    }

    /** Chunk the file, put the missing blocks, then seed it.  `later` is the
        file as each chunk is read again.  `readFails` is a read error while
        chunking; an error at any point adds no file. */
    method LoadFileFromDisk(hash: HashFunction, data: Bytes, later: nat -> Bytes, fallbackURL: string, store: BlockStore,
                            readFails: Option<nat>, fault: Option<StoreFault>)
      returns (r: Result<FileMetadata, string>)
      requires Valid() && |data| < I64
      modifies this, store
      ensures Valid()
      ensures r.Ok? ==>
        && LoadEnds(hash, data, r.value, fallbackURL, later, old(store.blocks), fault, store.blocks, true)
        && View() == Do(old(View()), Op.AddFile(r.value.hash, ChunkCIDs(r.value.chunks)))
      ensures r.Ok? ==>
        && r.value.hash == hash(data) && r.value.size == |data| && r.value.fallbackURL == fallbackURL
        && r.value.chunkSize == 512 * 1024 && r.value.chunkCount == |r.value.chunks| % U32 && C.Numbered(r.value.chunks)
      ensures r.Err? ==> View() == old(View())
      ensures ReadBreaks(|data|, readFails) ==> r.Err? && store.blocks == old(store.blocks)
      ensures r.Err? && !ReadBreaks(|data|, readFails) ==>
        exists m: FileMetadata :: LoadEnds(hash, data, m, fallbackURL, later, old(store.blocks), fault, store.blocks, false)
    {
      r := ChunkAndStore(hash, data, later, fallbackURL, store, readFails, fault);
      if r.Ok? { AddFile(r.value.hash, r.value.chunks); }
    }
  }

  method ChunkAndStore(hash: HashFunction, data: Bytes, later: nat -> Bytes, fallbackURL: string, store: BlockStore,
                       readFails: Option<nat>, fault: Option<StoreFault>)
    returns (r: Result<FileMetadata, string>)
    requires |data| < I64
    modifies store
    ensures r.Ok? ==> LoadEnds(hash, data, r.value, fallbackURL, later, old(store.blocks), fault, store.blocks, true)
    ensures ReadBreaks(|data|, readFails) ==> r.Err? && store.blocks == old(store.blocks)
    ensures r.Err? && !ReadBreaks(|data|, readFails) ==>
      exists m: FileMetadata :: LoadEnds(hash, data, m, fallbackURL, later, old(store.blocks), fault, store.blocks, false)
  {
    var chunker := new C.Chunker(DEFAULT_CHUNK_SIZE);
    var m := C.ChunkReader(hash, chunker.chunkSize, data, fallbackURL, readFails);
    if m.Err? { return Err("failed to chunk file"); }
    var stored := store.LoadBlocks(m.value.chunks, later, fault);
    assert LoadEnds(hash, data, m.value, fallbackURL, later, old(store.blocks), fault, store.blocks, stored);
    if !stored { return Err("failed to store the blocks"); }
    return m;
  }

  /** `m` describes the file in default-sized chunks, with its count and numbers
      and the URL given, and loading them ends so. */
  predicate LoadEnds(hash: HashFunction, data: Bytes, m: FileMetadata, url: string, later: nat -> Bytes, before: map<Cid, Bytes>,
                     fault: Option<StoreFault>, after: map<Cid, Bytes>, ok: bool)
  {
    && C.Describes(m, hash, data) && m.chunkSize == DEFAULT_CHUNK_SIZE
    && m.chunkCount == |m.chunks| % U32 && C.Numbered(m.chunks) && m.fallbackURL == url
    && (after, ok) == LoadEnd(m.chunks, later, before, fault)
  }

  /** Some read of the file in default-sized pieces fails. */
  predicate ReadBreaks(size: nat, failsAt: Option<nat>) {
    failsAt.Some? && (failsAt.value == 0 || Offset(failsAt.value - 1, DEFAULT_CHUNK_SIZE) < size)
  }
}
