/** The seeder's operations with their two lock sections interleaved freely
    (pkg/client/seeder.go): the file map has one lock, the block index another,
    and an operation takes them one after the other.  The identifiers of a file
    are determined by its hash: `cidsOf`. */
module SeederInterleaving {
  import opened Wrappers
  import opened Protocol
  import S = SeederModel

  type Chunking = Digest -> seq<Cid>

  /** An operation between its two lock sections. */
  datatype Pending = Adding(hash: Digest) | Removing(hash: Digest) | Recording(hash: Digest, cid: Cid, size: nat)

  datatype Change = Added | Removed

  /** The rest is history: the bytes credited so far and those that left with
      removed files, and for each file the last change that took effect in the
      file map and the last one that finished in the index. */
  datatype System = System(
    files: map<Digest, S.FileView>, index: map<Cid, Digest>, pending: map<nat, Pending>,
    credited: nat, carried: nat, begun: map<Digest, Change>, finished: map<Digest, Change>)

  datatype Action =
    | BeginAdd(id: nat, hash: Digest)
    | BeginRemove(id: nat, hash: Digest)
    | BeginRecord(id: nat, cid: Cid, size: nat)
    | Finish(id: nat)
    | UpdateStats(hash: Digest, bytes: nat)   // one lock section

  const EMPTY := System(map[], map[], map[], 0, 0, map[], map[])

  predicate Enabled(s: System, a: Action) {
    if a.UpdateStats? then true else if a.Finish? then a.id in s.pending else a.id !in s.pending
  }

  function Served(f: S.FileView, bytes: nat, blocks: nat): S.FileView {
    S.FileView(f.cids, S.Add64(f.bytesServed, bytes), S.Add64(f.blocksServed, blocks))
  }

  function Next(cidsOf: Chunking, s: System, a: Action): System
    requires Enabled(s, a)
  {
    match a
    case BeginAdd(id, h) =>
      if h in s.files then s
      else s.(files := s.files[h := S.FileView(cidsOf(h), 0, 0)], pending := s.pending[id := Adding(h)], begun := s.begun[h := Added])
    case BeginRemove(id, h) =>
      if h !in s.files then s
      else s.(files := s.files - {h}, pending := s.pending[id := Removing(h)], begun := s.begun[h := Removed],
              carried := s.carried + s.files[h].bytesServed)
    case BeginRecord(id, c, n) =>
      if c !in s.index then s else s.(pending := s.pending[id := Recording(s.index[c], c, n)])
    case Finish(id) => Finished(cidsOf, s.(pending := s.pending - {id}), s.pending[id])
    case UpdateStats(h, n) =>
      if h !in s.files then s
      else s.(files := s.files[h := s.files[h].(bytesServed := S.Add64(s.files[h].bytesServed, n))], credited := s.credited + n)
  }

  /** The second lock section. */
  function Finished(cidsOf: Chunking, s: System, p: Pending): System {
    match p
    case Adding(h) => s.(index := S.Indexed(s.index, cidsOf(h), h), finished := s.finished[h := Added])
    case Removing(h) => s.(index := S.Unindexed(s.index, cidsOf(h)), finished := s.finished[h := Removed])
    case Recording(h, _, n) =>
      if h !in s.files then s else s.(files := s.files[h := Served(s.files[h], n, 1)], credited := s.credited + n)
  }

  function Run(cidsOf: Chunking, s: System, actions: seq<Action>): Option<System>
    decreases |actions|
  {
    if actions == [] then Some(s)
    else if Enabled(s, actions[0]) then Run(cidsOf, Next(cidsOf, s, actions[0]), actions[1..])
    else None
  }

  // ------------------------------------------------ the sequential seeder inside

  function View(s: System): S.SeederView { S.SeederView(s.files, s.index) }

  /** The operation that a first lock section starts. */
  function OpOf(cidsOf: Chunking, a: Action): S.Op
    requires !a.Finish?
  {
    match a
    case BeginAdd(_, h) => S.Op.AddFile(h, cidsOf(h))
    case BeginRemove(_, h) => S.Op.RemoveFile(h)
    case BeginRecord(_, c, n) => S.Op.RecordBlockServed(c, n)
    case UpdateStats(h, n) => S.Op.UpdateStats(h, n)
  }

  /** Both sections without anything in between, or the first alone if it ends
      the operation, are the sequential operation. */
  lemma UninterruptedIsSequential(cidsOf: Chunking, s: System, a: Action)
    requires Enabled(s, a) && !a.Finish?
    requires forall h :: h in s.files ==> s.files[h].cids == cidsOf(h)
    ensures var t := Next(cidsOf, s, a);
      && (a.UpdateStats? || a.id !in t.pending ==> View(t) == S.Do(View(s), OpOf(cidsOf, a)))
      && (!a.UpdateStats? && a.id in t.pending ==>
            View(Next(cidsOf, t, Finish(a.id))) == S.Do(View(s), OpOf(cidsOf, a)) && Next(cidsOf, t, Finish(a.id)).pending == s.pending)
  {
    var t := Next(cidsOf, s, a);
    if !a.UpdateStats? && a.id in t.pending { assert t.pending - {a.id} == s.pending; }
  }

  // --------------------------------------------------- safety, always and freely

  predicate FilesHaveCids(cidsOf: Chunking, s: System) {
    forall h :: h in s.files ==> s.files[h].cids == cidsOf(h)
  }

  predicate EntriesNameFiles(cidsOf: Chunking, s: System) {
    forall c :: c in s.index ==> c in cidsOf(s.index[c])
  }

  predicate RecordsNameFiles(cidsOf: Chunking, s: System) {
    forall id :: id in s.pending && s.pending[id].Recording? ==> s.pending[id].cid in cidsOf(s.pending[id].hash)
  }

  predicate Inv(cidsOf: Chunking, s: System) {
    FilesHaveCids(cidsOf, s) && EntriesNameFiles(cidsOf, s) && RecordsNameFiles(cidsOf, s)
  }

  lemma StepKeepsEntries(cidsOf: Chunking, s: System, a: Action)
    requires EntriesNameFiles(cidsOf, s) && RecordsNameFiles(cidsOf, s) && Enabled(s, a)
    ensures EntriesNameFiles(cidsOf, Next(cidsOf, s, a)) && RecordsNameFiles(cidsOf, Next(cidsOf, s, a))
  {
  }

  lemma StepKeepsInv(cidsOf: Chunking, s: System, a: Action)
    requires Inv(cidsOf, s) && Enabled(s, a)
    ensures Inv(cidsOf, Next(cidsOf, s, a))
  {
    StepKeepsEntries(cidsOf, s, a);
    assert FilesHaveCids(cidsOf, Next(cidsOf, s, a));
  }

  lemma {:induction false} RunKeepsInv(cidsOf: Chunking, s: System, actions: seq<Action>)
    requires Inv(cidsOf, s) && Run(cidsOf, s, actions).Some?
    ensures Inv(cidsOf, Run(cidsOf, s, actions).value)
    decreases |actions|
  {
    if actions != [] {
      StepKeepsInv(cidsOf, s, actions[0]);
      RunKeepsInv(cidsOf, Next(cidsOf, s, actions[0]), actions[1..]);
    }
  }

  /** In every interleaving: the end of a record adds its size and one block to
      the file, if that is still seeded; and a step that changes the counters of
      a seeded file is its update, or the end of the record of a block that the
      file contains, and touches no other file.  Stale index entries may exist,
      but they name a file with that block. */
  lemma CreditsAreRight(cidsOf: Chunking, actions: seq<Action>, a: Action)
    requires Run(cidsOf, EMPTY, actions).Some? && Enabled(Run(cidsOf, EMPTY, actions).value, a)
    ensures var s := Run(cidsOf, EMPTY, actions).value; var t := Next(cidsOf, s, a);
      && (forall c :: c in s.index ==> c in cidsOf(s.index[c]))
      && (a.Finish? && s.pending[a.id].Recording? ==>
            var h := s.pending[a.id].hash;
            t.files == if h in s.files then s.files[h := Served(s.files[h], s.pending[a.id].size, 1)] else s.files)
      && forall h :: h in s.files && h in t.files && t.files[h] != s.files[h] ==>
           && (forall g :: g != h ==> (g in t.files <==> g in s.files) && (g in s.files ==> t.files[g] == s.files[g]))
           && (|| (a.UpdateStats? && a.hash == h && t.files[h] == Served(s.files[h], a.bytes, 0))
               || (a.Finish? && s.pending[a.id].Recording? && s.pending[a.id].hash == h
                   && s.pending[a.id].cid in s.files[h].cids && t.files[h] == Served(s.files[h], s.pending[a.id].size, 1)))
  {
    RunKeepsInv(cidsOf, EMPTY, actions);
    CountersFit(cidsOf, EMPTY, actions);
    var s := Run(cidsOf, EMPTY, actions).value;
    forall h | h in s.files ensures S.Add64(s.files[h].blocksServed, 0) == s.files[h].blocksServed {
      SmallMod(s.files[h].blocksServed, U64);
    }
  }

  lemma {:induction false} CountersFit(cidsOf: Chunking, s: System, actions: seq<Action>)
    requires Run(cidsOf, s, actions).Some? && forall h :: h in s.files ==> s.files[h].blocksServed < U64
    ensures var t := Run(cidsOf, s, actions).value; forall h :: h in t.files ==> t.files[h].blocksServed < U64
    decreases |actions|
  {
    if actions != [] { CountersFit(cidsOf, Next(cidsOf, s, actions[0]), actions[1..]); }
  }

  // --------------------------------------------------------------- conservation

  predicate Conserved(total: nat, s: System) { (total + s.carried - s.credited) % U64 == 0 }

  lemma StepConserves(cidsOf: Chunking, s: System, a: Action)
    requires Enabled(s, a) && Conserved(S.TotalBytes(s.files), s)
    ensures Conserved(S.TotalBytes(Next(cidsOf, s, a).files), Next(cidsOf, s, a))
  {
    var t := Next(cidsOf, s, a);
    match a
    case BeginAdd(_, h) => if h !in s.files { GainsConserve(s, t, h, 0); }
    case BeginRemove(_, h) => if h in s.files { S.TotalWithout(s.files, h); }
    case BeginRecord(_, _, _) =>
    case Finish(id) => if s.pending[id].Recording? && s.pending[id].hash in s.files { GainsConserve(s, t, s.pending[id].hash, s.pending[id].size); }
    case UpdateStats(h, n) => if h in s.files { GainsConserve(s, t, h, n); }
  }

  /** One file's counter goes up and the same goes into the credits. */
  lemma GainsConserve(s: System, t: System, h: Digest, n: nat)
    requires Conserved(S.TotalBytes(s.files), s)
    requires h in t.files && t.files == s.files[h := t.files[h]] && t.carried == s.carried && t.credited == s.credited + n
    requires t.files[h].bytesServed == if h in s.files then S.Add64(s.files[h].bytesServed, n) else n
    ensures Conserved(S.TotalBytes(t.files), t)
  {
    S.TotalWith(s.files, h, t.files[h]);
    if h in s.files {
      S.TotalWithout(s.files, h);
      S.AddWraps(S.TotalBytes(s.files - {h}), s.files[h].bytesServed, n, s.credited, s.carried);
    } else {
      assert s.files - {h} == s.files;
    }
  }

  lemma {:induction false} RunConserves(cidsOf: Chunking, s: System, actions: seq<Action>)
    requires Run(cidsOf, s, actions).Some? && Conserved(S.TotalBytes(s.files), s)
    ensures var t := Run(cidsOf, s, actions).value; Conserved(S.TotalBytes(t.files), t)
    decreases |actions|
  {
    if actions != [] {
      StepConserves(cidsOf, s, actions[0]);
      RunConserves(cidsOf, Next(cidsOf, s, actions[0]), actions[1..]);
    }
  }

  /** Conservation in every interleaving, in 64-bit arithmetic: the bytes shown
      are the bytes credited less those that left with removed files. */
  lemma {:induction false} BytesAreConservedFreely(cidsOf: Chunking, actions: seq<Action>)
    requires Run(cidsOf, EMPTY, actions).Some?
    ensures var s := Run(cidsOf, EMPTY, actions).value;
      (S.TotalBytes(s.files) + s.carried - s.credited) % U64 == 0
  {
    RunConserves(cidsOf, EMPTY, actions);
  }

  // ------------------------------- what the index is worth when nothing is running

  lemma {:induction false} RunAppend(cidsOf: Chunking, s: System, a: seq<Action>, b: seq<Action>)
    requires Run(cidsOf, s, a).Some?
    ensures Run(cidsOf, s, a + b) == Run(cidsOf, Run(cidsOf, s, a).value, b)
    decreases |a|
  {
    if a == [] {
      assert a + b == b;
    } else {
      assert (a + b)[1..] == a[1..] + b;
      RunAppend(cidsOf, Next(cidsOf, s, a[0]), a[1..], b);
    }
  }

  lemma Run2(cidsOf: Chunking, s: System, a: Action, b: Action)
    requires Enabled(s, a) && Enabled(Next(cidsOf, s, a), b)
    ensures Run(cidsOf, s, [a, b]) == Some(Next(cidsOf, Next(cidsOf, s, a), b))
  {
    assert [a, b][1..] == [b] && [b][1..] == [];
    assert Run(cidsOf, Next(cidsOf, s, a), [b]) == Run(cidsOf, Next(cidsOf, Next(cidsOf, s, a), b), []);
  }

  /** A remove that runs inside an add leaves, with nothing running, every block
      of the file indexed although the file is not seeded. */
  lemma StaleEntriesCanRemain(cidsOf: Chunking, h: Digest)
    ensures var r := Run(cidsOf, EMPTY, [BeginAdd(0, h), BeginRemove(1, h)] + [Finish(1), Finish(0)]);
      && r.Some? && r.value.pending == map[] && h !in r.value.files
      && forall c :: c in cidsOf(h) ==> c in r.value.index && r.value.index[c] == h
  {
    Run2(cidsOf, EMPTY, BeginAdd(0, h), BeginRemove(1, h));
    var s := Next(cidsOf, Next(cidsOf, EMPTY, BeginAdd(0, h)), BeginRemove(1, h));
    Run2(cidsOf, s, Finish(1), Finish(0));
    RunAppend(cidsOf, EMPTY, [BeginAdd(0, h), BeginRemove(1, h)], [Finish(1), Finish(0)]);
  }

  /** An add that runs inside a remove leaves the file seeded with none of its
      blocks indexed: they are never credited. */
  lemma EntriesCanBeLost(cidsOf: Chunking, h: Digest)
    ensures var r := Run(cidsOf, EMPTY, [BeginAdd(0, h), Finish(0)] + [BeginRemove(1, h), BeginAdd(2, h)] + [Finish(2), Finish(1)]);
      && r.Some? && r.value.pending == map[] && h in r.value.files
      && forall c :: c in cidsOf(h) ==> c !in r.value.index
  {
    Run2(cidsOf, EMPTY, BeginAdd(0, h), Finish(0));
    var s := Next(cidsOf, Next(cidsOf, EMPTY, BeginAdd(0, h)), Finish(0));
    Run2(cidsOf, s, BeginRemove(1, h), BeginAdd(2, h));
    var t := Next(cidsOf, Next(cidsOf, s, BeginRemove(1, h)), BeginAdd(2, h));
    Run2(cidsOf, t, Finish(2), Finish(1));
    RunAppend(cidsOf, EMPTY, [BeginAdd(0, h), Finish(0)], [BeginRemove(1, h), BeginAdd(2, h)]);
    RunAppend(cidsOf, EMPTY, [BeginAdd(0, h), Finish(0)] + [BeginRemove(1, h), BeginAdd(2, h)], [Finish(2), Finish(1)]);
  }

  predicate Changing(s: System, h: Digest) {
    exists id :: id in s.pending && !s.pending[id].Recording? && s.pending[id].hash == h
  }

  predicate DisjointFiles(cidsOf: Chunking, hashes: set<Digest>) {
    forall g, h :: g in hashes && h in hashes && g != h ==> forall c :: c in cidsOf(g) ==> c !in cidsOf(h)
  }

  /** The files that a run mentions. */
  function Mentioned(actions: seq<Action>): set<Digest> {
    set a | a in actions && (a.BeginAdd? || a.BeginRemove?) :: a.hash
  }

  /** The index tells the truth: each entry leads to a seeded file that contains
      the block, and each block of each seeded file leads to it. */
  predicate IndexIsRight(cidsOf: Chunking, s: System) {
    && (forall c :: c in s.index ==> s.index[c] in s.files && c in cidsOf(s.index[c]))
    && (forall h, c :: h in s.files && c in cidsOf(h) ==> c in s.index && s.index[c] == h)
  }

  predicate AddedLast(changes: map<Digest, Change>, h: Digest) { h in changes && changes[h] == Added }

  ghost predicate FilesAreBegun(s: System) {
    forall h :: h in s.files <==> AddedLast(s.begun, h)
  }

  predicate ChangesKnown(s: System, known: set<Digest>) {
    && s.files.Keys <= known
    && forall id :: id in s.pending && !s.pending[id].Recording? ==> s.pending[id].hash in known
  }

  /** For disjoint files the index is what the finished changes made of it. */
  predicate IndexIsFinished(cidsOf: Chunking, s: System, known: set<Digest>) {
    && (forall c :: c in s.index ==> s.index[c] in known && c in cidsOf(s.index[c]) && AddedLast(s.finished, s.index[c]))
    && (forall h, c :: h in known && c in cidsOf(h) && AddedLast(s.finished, h) ==> c in s.index && s.index[c] == h)
  }

  predicate Mentions(known: set<Digest>, a: Action) {
    a.BeginAdd? || a.BeginRemove? ==> a.hash in known
  }

  lemma FilesStep(cidsOf: Chunking, s: System, a: Action, known: set<Digest>)
    requires Enabled(s, a) && Mentions(known, a) && FilesAreBegun(s) && ChangesKnown(s, known)
    ensures FilesAreBegun(Next(cidsOf, s, a)) && ChangesKnown(Next(cidsOf, s, a), known)
  {
  }

  /** Only the end of a change touches the index. */
  lemma IndexChange(cidsOf: Chunking, s: System, a: Action)
    requires Enabled(s, a)
    ensures var t := Next(cidsOf, s, a);
      if !a.Finish? || s.pending[a.id].Recording? then t.index == s.index && t.finished == s.finished
      else var h := s.pending[a.id].hash;
        if s.pending[a.id].Adding?
        then t.index == S.Indexed(s.index, cidsOf(h), h) && t.finished == s.finished[h := Added]
        else t.index == S.Unindexed(s.index, cidsOf(h)) && t.finished == s.finished[h := Removed]
  {
  }

  lemma IndexStep(cidsOf: Chunking, s: System, a: Action, known: set<Digest>)
    requires Enabled(s, a) && ChangesKnown(s, known) && DisjointFiles(cidsOf, known) && IndexIsFinished(cidsOf, s, known)
    ensures IndexIsFinished(cidsOf, Next(cidsOf, s, a), known)
  {
    IndexChange(cidsOf, s, a);
    var t := Next(cidsOf, s, a);
    if a.Finish? && !s.pending[a.id].Recording? {
      FinishLeads(cidsOf, s, t, s.pending[a.id], known);
      FinishCovers(cidsOf, s, t, s.pending[a.id], known);
    }
  }

  predicate ChangeMade(cidsOf: Chunking, s: System, t: System, p: Pending) {
    && (p.Adding? ==> t.index == S.Indexed(s.index, cidsOf(p.hash), p.hash) && t.finished == s.finished[p.hash := Added])
    && (p.Removing? ==> t.index == S.Unindexed(s.index, cidsOf(p.hash)) && t.finished == s.finished[p.hash := Removed])
  }

  lemma FinishLeads(cidsOf: Chunking, s: System, t: System, p: Pending, known: set<Digest>)
    requires !p.Recording? && p.hash in known && ChangeMade(cidsOf, s, t, p) && IndexIsFinished(cidsOf, s, known)
    ensures forall c :: c in t.index ==> t.index[c] in known && c in cidsOf(t.index[c]) && AddedLast(t.finished, t.index[c])
  {
  }

  lemma FinishCovers(cidsOf: Chunking, s: System, t: System, p: Pending, known: set<Digest>)
    requires !p.Recording? && p.hash in known && ChangeMade(cidsOf, s, t, p) && IndexIsFinished(cidsOf, s, known)
    requires DisjointFiles(cidsOf, known)
    ensures forall h, c :: h in known && c in cidsOf(h) && AddedLast(t.finished, h) ==> c in t.index && t.index[c] == h
  {
    forall h, c | h in known && c in cidsOf(h) && AddedLast(t.finished, h) ensures c in t.index && t.index[c] == h {
      if h != p.hash { assert c !in cidsOf(p.hash); }
    }
  }

  lemma MentionedFirst(actions: seq<Action>)
    requires actions != []
    ensures Mentioned(actions[1..]) <= Mentioned(actions) && Mentions(Mentioned(actions), actions[0])
  {
  }

  lemma {:induction false} HistoriesHold(cidsOf: Chunking, s: System, actions: seq<Action>, known: set<Digest>)
    requires Run(cidsOf, s, actions).Some? && Mentioned(actions) <= known && DisjointFiles(cidsOf, known)
    requires FilesAreBegun(s) && ChangesKnown(s, known) && IndexIsFinished(cidsOf, s, known)
    ensures var t := Run(cidsOf, s, actions).value;
      FilesAreBegun(t) && ChangesKnown(t, known) && IndexIsFinished(cidsOf, t, known)
    decreases |actions|
  {
    if actions != [] {
      MentionedFirst(actions);
      FilesStep(cidsOf, s, actions[0], known);
      IndexStep(cidsOf, s, actions[0], known);
      HistoriesHold(cidsOf, Next(cidsOf, s, actions[0]), actions[1..], known);
    }
  }

  /** The last change begun and the last change finished agree. */
  predicate LastChangesAgree(cidsOf: Chunking, s: System, known: set<Digest>) {
    forall h :: h in known && cidsOf(h) != [] ==> (AddedLast(s.begun, h) <==> AddedLast(s.finished, h))
  }

  /** When the index is right, exactly: for disjoint files, in every interleaving
      and at every moment, if and only if for each file with blocks the last
      change to begin and the last to finish are of the same kind. */
  lemma {:induction false} IndexIsRightIff(cidsOf: Chunking, actions: seq<Action>)
    requires Run(cidsOf, EMPTY, actions).Some? && DisjointFiles(cidsOf, Mentioned(actions))
    ensures var s := Run(cidsOf, EMPTY, actions).value;
      IndexIsRight(cidsOf, s) <==> LastChangesAgree(cidsOf, s, Mentioned(actions))
  {
    var s, known := Run(cidsOf, EMPTY, actions).value, Mentioned(actions);
    HistoriesHold(cidsOf, EMPTY, actions, known);
    if IndexIsRight(cidsOf, s) { RightIndexAgrees(cidsOf, s, known); }
    if LastChangesAgree(cidsOf, s, known) { AgreedIndexIsRight(cidsOf, s, known); }
  }

  lemma RightIndexAgrees(cidsOf: Chunking, s: System, known: set<Digest>)
    requires FilesAreBegun(s) && IndexIsFinished(cidsOf, s, known) && IndexIsRight(cidsOf, s)
    ensures LastChangesAgree(cidsOf, s, known)
  {
    forall h | h in known && cidsOf(h) != [] ensures AddedLast(s.begun, h) <==> AddedLast(s.finished, h) {
      var c := cidsOf(h)[0];
      assert c in cidsOf(h);
      if h in s.files { assert s.index[c] == h; }
      if AddedLast(s.finished, h) { assert s.index[c] == h; }
    }
  }

  lemma AgreedIndexIsRight(cidsOf: Chunking, s: System, known: set<Digest>)
    requires FilesAreBegun(s) && ChangesKnown(s, known) && IndexIsFinished(cidsOf, s, known)
    requires LastChangesAgree(cidsOf, s, known)
    ensures IndexIsRight(cidsOf, s)
  {
    forall c | c in s.index ensures s.index[c] in s.files && c in cidsOf(s.index[c]) {
      assert cidsOf(s.index[c]) != [];
    }
    forall h, c | h in s.files && c in cidsOf(h) ensures c in s.index && s.index[c] == h {
      assert h in known && cidsOf(h) != [];
    }
  }

  // --------------------------------------- changes of one file that never overlap

  predicate SerialStep(s: System, a: Action) {
    a.BeginAdd? || a.BeginRemove? ==> !Changing(s, a.hash)
  }

  /** An add or a remove starts only when no add or remove of the same file is
      half way through.  Different files, and records of any kind, still
      interleave freely. */
  predicate Serial(cidsOf: Chunking, s: System, actions: seq<Action>)
    decreases |actions|
  {
    actions != [] && Enabled(s, actions[0]) ==>
      SerialStep(s, actions[0]) && Serial(cidsOf, Next(cidsOf, s, actions[0]), actions[1..])
  }

  function ChangeOf(p: Pending): Change { if p.Adding? then Added else Removed }

  /** Each pending change is the last one begun of its file and the only one of
      it; a file without one has finished what it began. */
  predicate PendingOk(s: System) { PendingApart(s) && PendingBegun(s) }

  predicate PendingApart(s: System) {
    forall i, j :: i in s.pending && j in s.pending && i != j && !s.pending[i].Recording? && !s.pending[j].Recording? ==>
      s.pending[i].hash != s.pending[j].hash
  }

  predicate PendingBegun(s: System) {
    forall id :: id in s.pending && !s.pending[id].Recording? ==>
      s.pending[id].hash in s.begun && s.begun[s.pending[id].hash] == ChangeOf(s.pending[id])
  }

  ghost predicate RestAgrees(s: System) {
    forall h :: !Changing(s, h) ==> (h in s.begun <==> h in s.finished) && (h in s.begun ==> s.begun[h] == s.finished[h])
  }

  predicate SoundSoFar(cidsOf: Chunking, s: System) {
    forall c :: c in s.index ==> c in cidsOf(s.index[c]) && (s.index[c] in s.files || Changing(s, s.index[c]))
  }

  lemma PendingApartStep(cidsOf: Chunking, s: System, a: Action)
    requires Enabled(s, a) && PendingApart(s) && SerialStep(s, a)
    ensures PendingApart(Next(cidsOf, s, a))
  {
  }

  lemma PendingStep(cidsOf: Chunking, s: System, a: Action)
    requires Enabled(s, a) && PendingOk(s) && SerialStep(s, a)
    ensures PendingOk(Next(cidsOf, s, a))
  {
    PendingApartStep(cidsOf, s, a);
    assert PendingBegun(Next(cidsOf, s, a));
  }

  /** What one step does to the files being changed. */
  lemma ChangingStep(cidsOf: Chunking, s: System, a: Action, h: Digest)
    requires Enabled(s, a) && PendingOk(s) && SerialStep(s, a)
    ensures !(a.Finish? && !s.pending[a.id].Recording? && s.pending[a.id].hash == h) && Changing(s, h) ==> Changing(Next(cidsOf, s, a), h)
    ensures a.Finish? && !s.pending[a.id].Recording? ==> !Changing(Next(cidsOf, s, a), s.pending[a.id].hash)
    ensures (a.BeginAdd? && a.hash !in s.files) || (a.BeginRemove? && a.hash in s.files) ==> Changing(Next(cidsOf, s, a), a.hash)
    ensures !Changing(s, h) && Changing(Next(cidsOf, s, a), h) ==> (a.BeginAdd? || a.BeginRemove?) && a.hash == h
  {
    var t := Next(cidsOf, s, a);
    if Changing(s, h) {
      var id :| id in s.pending && !s.pending[id].Recording? && s.pending[id].hash == h;
      if a.UpdateStats? || !(a.Finish? && a.id == id) { assert id in t.pending && t.pending[id] == s.pending[id]; }
    }
    if (a.BeginAdd? && a.hash !in s.files) || (a.BeginRemove? && a.hash in s.files) {
      assert a.id in t.pending && t.pending[a.id].hash == a.hash;
    }
  }

  lemma RestStep(cidsOf: Chunking, s: System, a: Action)
    requires Enabled(s, a) && PendingOk(s) && SerialStep(s, a) && RestAgrees(s)
    ensures RestAgrees(Next(cidsOf, s, a))
  {
    var t := Next(cidsOf, s, a);
    forall h | !Changing(t, h)
      ensures (h in t.begun <==> h in t.finished) && (h in t.begun ==> t.begun[h] == t.finished[h])
    {
      ChangingStep(cidsOf, s, a, h);
    }
  }

  lemma SerialStepKeepsSound(cidsOf: Chunking, s: System, a: Action)
    requires Enabled(s, a) && PendingOk(s) && SerialStep(s, a) && FilesAreBegun(s) && SoundSoFar(cidsOf, s)
    ensures SoundSoFar(cidsOf, Next(cidsOf, s, a))
  {
    var t := Next(cidsOf, s, a);
    forall c | c in t.index ensures c in cidsOf(t.index[c]) && (t.index[c] in t.files || Changing(t, t.index[c])) {
      ChangingStep(cidsOf, s, a, t.index[c]);
    }
  }

  lemma {:induction false} SerialRunKeeps(cidsOf: Chunking, s: System, actions: seq<Action>, known: set<Digest>)
    requires Run(cidsOf, s, actions).Some? && Serial(cidsOf, s, actions) && Mentioned(actions) <= known
    requires PendingOk(s) && RestAgrees(s) && FilesAreBegun(s) && ChangesKnown(s, known) && SoundSoFar(cidsOf, s)
    ensures SoundSoFar(cidsOf, Run(cidsOf, s, actions).value) && RestAgrees(Run(cidsOf, s, actions).value)
    decreases |actions|
  {
    if actions != [] {
      var a := actions[0];
      MentionedFirst(actions);
      PendingStep(cidsOf, s, a);
      RestStep(cidsOf, s, a);
      FilesStep(cidsOf, s, a, known);
      SerialStepKeepsSound(cidsOf, s, a);
      SerialRunKeeps(cidsOf, Next(cidsOf, s, a), actions[1..], known);
    }
  }

  /** When adds and removes of the same file do not overlap, then with nothing
      running every index entry leads to a seeded file that contains the block,
      and for disjoint files every block of every seeded file is indexed. */
  lemma {:induction false} SerialChangesKeepIndex(cidsOf: Chunking, actions: seq<Action>)
    requires Run(cidsOf, EMPTY, actions).Some? && Serial(cidsOf, EMPTY, actions)
    requires Run(cidsOf, EMPTY, actions).value.pending == map[]
    ensures var s := Run(cidsOf, EMPTY, actions).value;
      && (forall c :: c in s.index ==> s.index[c] in s.files && c in cidsOf(s.index[c]))
      && (DisjointFiles(cidsOf, Mentioned(actions)) ==>
            forall h, c :: h in s.files && c in cidsOf(h) ==> c in s.index && s.index[c] == h)
  {
    SerialRunKeeps(cidsOf, EMPTY, actions, Mentioned(actions));
    var s := Run(cidsOf, EMPTY, actions).value;
    assert forall h :: !Changing(s, h);
    if DisjointFiles(cidsOf, Mentioned(actions)) {
      assert LastChangesAgree(cidsOf, s, Mentioned(actions));
      IndexIsRightIff(cidsOf, actions);
    }
  }
}
