/** The daemon's persistent list of seeded files (pkg/daemon/seeding_state.go):
    a list searched from the front, removal by swapping in the last element, and
    saving by writing a temporary file and renaming it. */
module SeedingStateModel {
  import opened Wrappers

  datatype Entry = Entry(
    fileHash: string, filePath: string, fallbackURL: string, size: nat, chunkCount: nat,
    startedAt: int, bytesServed: nat, peersServed: int)

  function IndexOf(list: seq<Entry>, h: string): (i: nat)
    ensures i <= |list|
    ensures i < |list| ==> list[i].fileHash == h
    ensures forall j :: 0 <= j < i ==> list[j].fileHash != h
    decreases |list|
  {
    if list == [] || list[0].fileHash == h then 0 else 1 + IndexOf(list[1..], h)
  }

  function Lookup(list: seq<Entry>, h: string): Option<Entry> {
    var i := IndexOf(list, h);
    if i < |list| then Some(list[i]) else None
  }

  predicate Distinct(list: seq<Entry>) {
    forall i, j :: 0 <= i < j < |list| ==> list[i].fileHash != list[j].fileHash
  }

  function Added(list: seq<Entry>, e: Entry): seq<Entry> {
    var i := IndexOf(list, e.fileHash);
    if i < |list| then list[i := e] else list + [e]
  }

  function Removed(list: seq<Entry>, h: string): seq<Entry> {
    var i := IndexOf(list, h);
    if i < |list| then list[i := list[|list| - 1]][..|list| - 1] else list
  }

  function Updated(list: seq<Entry>, h: string, bytes: nat, peers: int): seq<Entry> {
    var i := IndexOf(list, h);
    if i < |list| then list[i := list[i].(bytesServed := bytes, peersServed := peers)] else list
  }

  lemma LookupAt(list: seq<Entry>, i: nat)
    requires Distinct(list) && i < |list|
    ensures IndexOf(list, list[i].fileHash) == i
  {
  }

  /** Adding is map update on every list, and keeps hashes distinct. */
  lemma AddIsMapUpdate(list: seq<Entry>, e: Entry, g: string)
    ensures Lookup(Added(list, e), g) == if g == e.fileHash then Some(e) else Lookup(list, g)
    ensures Distinct(list) ==> Distinct(Added(list, e))
  {
    var i, j := IndexOf(list, e.fileHash), IndexOf(list, g);
    var r := Added(list, e);
    var k := IndexOf(r, g);
    if g == e.fileHash {
      assert r[i] == e;
    } else if j < |list| {
      assert r[j] == list[j];
    }
    if k < |r| && g != e.fileHash { assert r[k] == list[k]; }
  }

  /** On a list with distinct hashes, removal by swapping is map removal. */
  lemma RemoveIsMapRemoval(list: seq<Entry>, h: string, g: string)
    requires Distinct(list)
    ensures Lookup(Removed(list, h), g) == if g == h then None else Lookup(list, g)
    ensures Distinct(Removed(list, h))
  {
    var i, j := IndexOf(list, h), IndexOf(list, g);
    var r := Removed(list, h);
    if i < |list| {
      assert forall n :: 0 <= n < |r| ==> r[n] == if n == i then list[|list| - 1] else list[n];
      if j < |list| && g != h {
        var k := if j == |list| - 1 then i else j;
        assert r[k] == list[j];
        LookupAt(r, k);
      }
    }
  }

  /** A loaded list may hold a hash twice.  Removing a hash makes it disappear
      exactly when at most one entry had it. */
  lemma RemoveForgetsIffUnique(list: seq<Entry>, h: string)
    ensures Lookup(Removed(list, h), h) == None <==>
      forall i, j :: 0 <= i < j < |list| ==> !(list[i].fileHash == h && list[j].fileHash == h)
  {
    var i := IndexOf(list, h);
    var r := Removed(list, h);
    if i < |list| {
      assert forall n :: 0 <= n < |r| ==> r[n] == if n == i then list[|list| - 1] else list[n];
      var k := IndexOf(r, h);
      if k < |r| {
        assert r[k].fileHash == h;
        assert list[if k == i then |list| - 1 else k].fileHash == h;
      }
      if a, b :| 0 <= a < b < |list| && list[a].fileHash == h && list[b].fileHash == h {
        assert r[if b == |list| - 1 then i else b].fileHash == h;
      }
    }
  }

  /** Updating the counters changes those two fields of that entry only. */
  lemma UpdateIsMapUpdate(list: seq<Entry>, h: string, bytes: nat, peers: int, g: string)
    ensures Lookup(Updated(list, h, bytes, peers), g) ==
      match Lookup(list, g)
      case None => None
      case Some(e) => Some(if g == h then e.(bytesServed := bytes, peersServed := peers) else e)
    ensures Distinct(list) ==> Distinct(Updated(list, h, bytes, peers))
  {
    var r := Updated(list, h, bytes, peers);
    assert forall n :: 0 <= n < |r| ==> r[n].fileHash == list[n].fileHash;
    var j, k := IndexOf(list, g), IndexOf(r, g);
    assert j < |list| ==> r[j].fileHash == g;
    assert k < |r| ==> list[k].fileHash == g;
    assert j == k;
  }

  // ------------------------------------------------------------------- saving

  /** A file on disk: an encoded list, or a write that was cut short. */
  datatype Content = Encoded(list: seq<Entry>) | Torn

  datatype Disk = Disk(main: Option<Content>, tmp: Option<Content>)

  datatype LoadError = NotExist | ParseError

  function Load(d: Disk): Result<seq<Entry>, LoadError> {
    match d.main
    case None => Err(NotExist)
    case Some(Torn) => Err(ParseError)
    case Some(Encoded(list)) => Ok(list)
  }

  /** How the file system answers one save. */
  datatype SaveOutcome = MkdirFails | WriteFails(begun: bool) | RenameFails | Saves

  /** Every disk state a save goes through, the first being the one before it. */
  function SaveStates(d: Disk, list: seq<Entry>, o: SaveOutcome): (r: seq<Disk>)
    ensures |r| > 0
  {
    var torn := d.(tmp := Some(Torn));
    var written := d.(tmp := Some(Encoded(list)));
    match o
    case MkdirFails => [d]
    case WriteFails(begun) => if begun then [d, torn] else [d]
    case RenameFails => [d, torn, written, d.(tmp := None)]
    case Saves => [d, torn, written, Disk(Some(Encoded(list)), None)]
  }

  /** One completed save: the list that was written and how the system answered. */
  datatype SaveRun = SaveRun(list: seq<Entry>, outcome: SaveOutcome)

  function DiskAfter(d: Disk, saves: seq<SaveRun>): Disk
    decreases |saves|
  {
    if saves == [] then d
    else
      var n := |saves| - 1;
      var states := SaveStates(DiskAfter(d, saves[..n]), saves[n].list, saves[n].outcome);
      states[|states| - 1]
  }

  /** What the file holds after a run of saves: the list of the last one that
      succeeded, or what was there before. */
  function LastSaved(before: Result<seq<Entry>, LoadError>, saves: seq<SaveRun>): Result<seq<Entry>, LoadError>
    decreases |saves|
  {
    if saves == [] then before
    else if saves[|saves| - 1].outcome.Saves? then Ok(saves[|saves| - 1].list)
    else LastSaved(before, saves[..|saves| - 1])
  }

  lemma {:induction false} DiskHoldsLastSaved(d: Disk, saves: seq<SaveRun>)
    ensures Load(DiskAfter(d, saves)) == LastSaved(Load(d), saves)
    decreases |saves|
  {
    if saves != [] {
      DiskHoldsLastSaved(d, saves[..|saves| - 1]);
    }
  }

  /** Crash safety over whole sessions: after any run of saves, successful or
      not, a crash at any step of the next save leaves a file that loads as the
      last list saved (or as it loaded at the start), or as the list being
      saved, and the latter only once the rename has happened. */
  lemma {:induction false} CrashLoadsOldOrNew(d: Disk, saves: seq<SaveRun>, list: seq<Entry>, o: SaveOutcome, crashAt: nat)
    requires crashAt < |SaveStates(DiskAfter(d, saves), list, o)|
    ensures var after := Load(SaveStates(DiskAfter(d, saves), list, o)[crashAt]);
      after == LastSaved(Load(d), saves) || (o.Saves? && crashAt == 3 && after == Ok(list))
  {
    DiskHoldsLastSaved(d, saves);
  }

  // ------------------------------------------------------------ whole sessions

  datatype Change = Add(entry: Entry) | Remove(hash: string) | Update(hash: string, bytes: nat, peers: int) | Clear

  /** A call and how the file system answers its save. */
  datatype Request = Request(change: Change, outcome: SaveOutcome)

  function Changed(list: seq<Entry>, c: Change): seq<Entry> {
    match c
    case Add(e) => Added(list, e)
    case Remove(h) => Removed(list, h)
    case Update(h, bytes, peers) => Updated(list, h, bytes, peers)
    case Clear => []
  }

  /** An unknown hash is answered without saving. */
  predicate Writes(list: seq<Entry>, c: Change) {
    c.Add? || c.Clear? || Lookup(list, c.hash).Some?
  }

  /** The list in memory after the first `n` calls. */
  function ListAfter(list: seq<Entry>, rs: seq<Request>, n: nat): seq<Entry>
    requires n <= |rs|
  {
    if n == 0 then list else Changed(ListAfter(list, rs, n - 1), rs[n - 1].change)
  }

  /** The disk after the first `n` calls. */
  function DiskNow(list: seq<Entry>, d: Disk, rs: seq<Request>, n: nat): Disk
    requires n <= |rs|
  {
    if n == 0 then d
    else
      var before := DiskNow(list, d, rs, n - 1);
      if Writes(ListAfter(list, rs, n - 1), rs[n - 1].change)
      then DiskAfter(before, [SaveRun(ListAfter(list, rs, n), rs[n - 1].outcome)]) else before
  }

  /** The disk states that call `n` goes through. */
  function StatesOfCall(list: seq<Entry>, d: Disk, rs: seq<Request>, n: nat): (r: seq<Disk>)
    requires n < |rs|
    ensures |r| > 0
  {
    if Writes(ListAfter(list, rs, n), rs[n].change)
    then SaveStates(DiskNow(list, d, rs, n), ListAfter(list, rs, n + 1), rs[n].outcome)
    else [DiskNow(list, d, rs, n)]
  }

  /** The number of calls up to and including the last one whose save succeeded,
      0 if there is none. */
  function LastSuccess(list: seq<Entry>, rs: seq<Request>, n: nat): (k: nat)
    requires n <= |rs|
    ensures k <= n
  {
    if n == 0 then 0
    else if Writes(ListAfter(list, rs, n - 1), rs[n - 1].change) && rs[n - 1].outcome.Saves? then n
    else LastSuccess(list, rs, n - 1)
  }

  /** What a manager that starts on this disk holds. */
  function Restarted(d: Disk): seq<Entry> {
    match Load(d) case Ok(list) => list case Err(_) => []
  }

  function MapChanged(m: map<string, Entry>, c: Change): map<string, Entry> {
    match c
    case Add(e) => m[e.fileHash := e]
    case Remove(h) => m - {h}
    case Update(h, bytes, peers) =>
      if h in m then m[h := m[h].(bytesServed := bytes, peersServed := peers)] else m
    case Clear => map[]
  }

  function MapAfter(m: map<string, Entry>, rs: seq<Request>, n: nat): map<string, Entry>
    requires n <= |rs|
  {
    if n == 0 then m else MapChanged(MapAfter(m, rs, n - 1), rs[n - 1].change)
  }

  function Shown(m: map<string, Entry>, g: string): Option<Entry> { if g in m then Some(m[g]) else None }

  ghost predicate Represents(list: seq<Entry>, m: map<string, Entry>) {
    Distinct(list) && forall g :: Lookup(list, g) == Shown(m, g)
  }

  /** A change of the list at one hash, given what the list says there before. */
  lemma ChangeAt(list: seq<Entry>, m: map<string, Entry>, c: Change, g: string)
    requires Distinct(list) && Lookup(list, g) == Shown(m, g)
    requires c.Update? ==> Lookup(list, c.hash) == Shown(m, c.hash)
    ensures Distinct(Changed(list, c)) && Lookup(Changed(list, c), g) == Shown(MapChanged(m, c), g)
  {
    match c
    case Add(e) => AddIsMapUpdate(list, e, g);
    case Remove(h) => RemoveIsMapRemoval(list, h, g);
    case Update(h, bytes, peers) => UpdateIsMapUpdate(list, h, bytes, peers, g);
    case Clear =>
  }

  lemma {:induction false} ChangeKeepsRepresents(list: seq<Entry>, m: map<string, Entry>, c: Change)
    requires Represents(list, m)
    ensures Represents(Changed(list, c), MapChanged(m, c))
  {
    ChangeAt(list, m, c, "");
    forall g ensures Lookup(Changed(list, c), g) == Shown(MapChanged(m, c), g) {
      ChangeAt(list, m, c, g);
    }
  }

  lemma {:induction false} ListIsMap(list: seq<Entry>, m: map<string, Entry>, rs: seq<Request>, n: nat)
    requires n <= |rs| && Represents(list, m)
    ensures Represents(ListAfter(list, rs, n), MapAfter(m, rs, n))
    decreases n
  {
    if n > 0 {
      ListIsMap(list, m, rs, n - 1);
      ChangeKeepsRepresents(ListAfter(list, rs, n - 1), MapAfter(m, rs, n - 1), rs[n - 1].change);
    }
  }

  lemma {:induction false} DiskIsLastSuccess(d: Disk, rs: seq<Request>, n: nat)
    requires n <= |rs| && Load(d) != Err(ParseError)
    ensures var now := DiskNow(Restarted(d), d, rs, n);
      Load(now) != Err(ParseError) && Restarted(now) == ListAfter(Restarted(d), rs, LastSuccess(Restarted(d), rs, n))
    decreases n
  {
    if n > 0 {
      DiskIsLastSuccess(d, rs, n - 1);
      var before := DiskNow(Restarted(d), d, rs, n - 1);
      var run := [SaveRun(ListAfter(Restarted(d), rs, n), rs[n - 1].outcome)];
      DiskHoldsLastSaved(before, run);
      assert run[..0] == [];
    }
  }

  lemma {:induction false} CrashedCall(list: seq<Entry>, d: Disk, rs: seq<Request>, n: nat, crashAt: nat)
    requires n < |rs| && crashAt < |StatesOfCall(list, d, rs, n)|
    ensures var left := StatesOfCall(list, d, rs, n)[crashAt];
      || Load(left) == Load(DiskNow(list, d, rs, n))
      || (rs[n].outcome.Saves? && crashAt == 3 && Load(left) == Ok(ListAfter(list, rs, n + 1)))
  {
  }

  /** Whole sessions: start on any readable disk, make any calls with any save
      outcomes, and crash at any step of any call.  The manager that starts next
      holds the list after the calls up to the last one whose save succeeded, or
      up to and including the one that was being saved, and this only once its
      rename has happened.  If the list at the start held no hash twice, the same
      is true of the map that it stands for. */
  lemma {:induction false} SessionSurvivesCrash(d: Disk, rs: seq<Request>, n: nat, crashAt: nat)
    requires Load(d) != Err(ParseError)
    requires n < |rs| && crashAt < |StatesOfCall(Restarted(d), d, rs, n)|
    ensures var list := Restarted(d); var left := StatesOfCall(list, d, rs, n)[crashAt];
      && Load(left) != Err(ParseError)
      && (|| (Restarted(left) == ListAfter(list, rs, LastSuccess(list, rs, n))
              && forall m :: Represents(list, m) ==> Represents(Restarted(left), MapAfter(m, rs, LastSuccess(list, rs, n))))
          || (rs[n].outcome.Saves? && crashAt == 3 && Restarted(left) == ListAfter(list, rs, n + 1)
              && forall m :: Represents(list, m) ==> Represents(Restarted(left), MapAfter(m, rs, n + 1))))
  {
    CrashedCall(Restarted(d), d, rs, n, crashAt);
    DiskIsLastSuccess(d, rs, n);
    MapsFollow(Restarted(d), rs, LastSuccess(Restarted(d), rs, n));
    MapsFollow(Restarted(d), rs, n + 1);
  }

  lemma {:induction false} MapsFollow(list: seq<Entry>, rs: seq<Request>, n: nat)
    requires n <= |rs|
    ensures forall m :: Represents(list, m) ==> Represents(ListAfter(list, rs, n), MapAfter(m, rs, n))
  {
    forall m | Represents(list, m) ensures Represents(ListAfter(list, rs, n), MapAfter(m, rs, n)) {
      ListIsMap(list, m, rs, n);
    }
  }

  function MapOf(list: seq<Entry>): map<string, Entry> {
    map h | h in (set e | e in list :: e.fileHash) && Lookup(list, h).Some? :: Lookup(list, h).value
  }

  /** A list without a repeated hash stands for exactly one map, and a list with
      one stands for none. */
  lemma DistinctIffRepresents(list: seq<Entry>)
    ensures Distinct(list) <==> Represents(list, MapOf(list))
    ensures forall m :: Represents(list, m) ==> m == MapOf(list)
  {
    forall g ensures Lookup(list, g) == Shown(MapOf(list), g) {
      if Lookup(list, g).Some? { assert list[IndexOf(list, g)] in list; }
    }
    forall m | Represents(list, m) ensures m == MapOf(list) {
      forall g ensures g in m <==> g in MapOf(list) ensures g in m ==> m[g] == MapOf(list)[g] {
        assert Lookup(list, g) == Shown(m, g) && Lookup(list, g) == Shown(MapOf(list), g);
      }
    }
  }

  class SeedingStateManager {
    var seeding: seq<Entry>
    var disk: Disk

    /** Start on the file found: no file means an empty list, an unreadable one
        is refused. */
    constructor (disk: Disk)
      requires Load(disk) != Err(ParseError)
      ensures this.disk == disk
      ensures seeding == Restarted(disk)
    {
      this.disk := disk;
      seeding := match Load(disk) case Ok(list) => list case Err(_) => [];
    }

    method Save(o: SaveOutcome) returns (ok: bool)
      modifies this`disk
      ensures ok == o.Saves?
      ensures disk == DiskAfter(old(disk), [SaveRun(seeding, o)])
    {
      assert [SaveRun(seeding, o)][..0] == [];
      if o.MkdirFails? { return false; }
      if o.WriteFails? && !o.begun { return false; }
      disk := disk.(tmp := Some(Torn));
      if o.WriteFails? { return false; }
      disk := disk.(tmp := Some(Encoded(seeding)));
      if o.RenameFails? {
        disk := disk.(tmp := None);
        return false;
      }
      disk := Disk(disk.tmp, None);
      return true;
    }

    method AddSeeding(entry: Entry, o: SaveOutcome) returns (ok: bool)
      modifies this
      ensures seeding == Added(old(seeding), entry)
      ensures ok == o.Saves? && disk == DiskAfter(old(disk), [SaveRun(seeding, o)])
    {
      var i := 0;
      while i < |seeding|
        invariant 0 <= i <= |seeding| && seeding == old(seeding) && disk == old(disk)
        invariant forall j :: 0 <= j < i ==> seeding[j].fileHash != entry.fileHash
      {
        if seeding[i].fileHash == entry.fileHash {
          seeding := seeding[i := entry];
          ok := Save(o);
          return;
        }
        i := i + 1;
      }
      seeding := seeding + [entry];
      ok := Save(o);
    }

    method RemoveSeeding(fileHash: string, o: SaveOutcome) returns (ok: bool)
      modifies this
      ensures seeding == Removed(old(seeding), fileHash)
      ensures ok <==> Lookup(old(seeding), fileHash).Some? && o.Saves?
      ensures disk == if Lookup(old(seeding), fileHash).Some? then DiskAfter(old(disk), [SaveRun(seeding, o)]) else old(disk)
    {
      var i := 0;
      while i < |seeding|
        invariant 0 <= i <= |seeding| && seeding == old(seeding) && disk == old(disk)
        invariant forall j :: 0 <= j < i ==> seeding[j].fileHash != fileHash
      {
        if seeding[i].fileHash == fileHash {
          seeding := seeding[i := seeding[|seeding| - 1]];
          seeding := seeding[..|seeding| - 1];
          ok := Save(o);
          return;
        }
        i := i + 1;
      }
      ok := false;
    }

    method UpdateStats(fileHash: string, bytes: nat, peers: int, o: SaveOutcome) returns (ok: bool)
      modifies this
      ensures seeding == Updated(old(seeding), fileHash, bytes, peers)
      ensures ok <==> Lookup(old(seeding), fileHash).Some? && o.Saves?
      ensures disk == if Lookup(old(seeding), fileHash).Some? then DiskAfter(old(disk), [SaveRun(seeding, o)]) else old(disk)
    {
      var i := 0;
      while i < |seeding|
        invariant 0 <= i <= |seeding| && seeding == old(seeding) && disk == old(disk)
        invariant forall j :: 0 <= j < i ==> seeding[j].fileHash != fileHash
      {
        if seeding[i].fileHash == fileHash {
          seeding := seeding[i := seeding[i].(bytesServed := bytes, peersServed := peers)];
          ok := Save(o);
          return;
        }
        i := i + 1;
      }
      ok := false;
    }

    method Clear(o: SaveOutcome) returns (ok: bool)
      modifies this
      ensures seeding == [] && ok == o.Saves? && disk == DiskAfter(old(disk), [SaveRun([], o)])
    {
      seeding := [];
      ok := Save(o);
    }

    method GetByHash(fileHash: string) returns (entry: Option<Entry>)
      ensures entry == Lookup(seeding, fileHash)
    {
      for i := 0 to |seeding|
        invariant forall j :: 0 <= j < i ==> seeding[j].fileHash != fileHash
      {
        if seeding[i].fileHash == fileHash {
          return Some(seeding[i]);
        }
      }
      return None;
    }
  }
}
