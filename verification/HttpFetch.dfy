/** Fetching bytes over HTTP into a file (pkg/client/fallback.go): range
    requests, retries and the single-connection copy. */
module HttpFetch {
  import opened Wrappers
  import opened Protocol

  /** How a response body ends: cleanly, before the announced length, or with
      some other read error. */
  datatype BodyEnd = Eof | UnexpectedEof | ReadError

  datatype Response = ConnectionError | Response(status: int, body: Bytes, end: BodyEnd)

  const STATUS_OK := 200
  const STATUS_PARTIAL := 206
  const MAX_RETRIES := 3

  /** One attempt at a chunk: the response, and where a disk error cuts the
      write short, if it does. */
  datatype Attempt = Attempt(response: Response, fault: Option<nat>)

  /** io.ReadFull into a buffer of `size` bytes: how many were read and the
      error, `Some(UnexpectedEof)` standing for a short read. */
  function ReadFull(body: Bytes, end: BodyEnd, size: nat): (nat, Option<BodyEnd>) {
    if |body| >= size then (size, None)
    else if end == Eof && |body| > 0 then (|body|, Some(UnexpectedEof))
    else (|body|, Some(end))
  }

  /** The bytes `downloadChunk` accepts from a response, if it does. */
  function Accepted(r: Response, size: nat): Option<Bytes> {
    if r.ConnectionError? then None
    else if r.status != STATUS_PARTIAL && r.status != STATUS_OK then None
    else
      var (n, err) := ReadFull(r.body, r.end, size);
      if err == None || err == Some(UnexpectedEof) then Some(r.body[..n]) else None
  }

  /** What exactly is accepted: any 200 or 206 whose body fills the buffer, or
      ends early after at least one byte, or breaks off before its announced
      length, even with no byte at all. */
  lemma AcceptedIff(r: Response, size: nat)
    ensures Accepted(r, size).Some? <==>
      && r.Response? && (r.status == STATUS_OK || r.status == STATUS_PARTIAL)
      && (|r.body| >= size || r.end == UnexpectedEof || (r.end == Eof && r.body != []))
    ensures Accepted(r, size).Some? ==> Accepted(r, size).value == r.body[..Min(|r.body|, size)]
  {
  }

  /** An answer that is good enough for a chunk of `size` bytes: 200 or 206, and a
      body that fills the buffer, or ends after at least one byte, or breaks off. */
  predicate Usable(r: Response, size: nat) {
    && r.Response? && (r.status == 200 || r.status == 206)
    && (|r.body| >= size || (r.end == Eof && r.body != []) || r.end == UnexpectedEof)
  }

  /** An attempt that is good: the answer is, the offset fits an int64, and the
      disk takes it. */
  predicate Good(a: Attempt, offset: nat, size: nat) {
    Usable(a.response, size) && offset < I64 && a.fault == None
  }

  function Zeros(n: nat): (r: Bytes)
    ensures |r| == n
  {
    seq(n, _ => 0)
  }

  /** Writing at an offset, extending with zeros as needed. */
  function Overwritten(file: Bytes, offset: nat, data: Bytes): Bytes {
    if data == [] then file
    else
      var f := if offset > |file| then file + Zeros(offset - |file|) else file;
      f[..offset] + data + (if offset + |data| < |f| then f[offset + |data|..] else [])
  }

  /** A write changes its own bytes and fills a gap beyond the end with zeros. */
  lemma OverwrittenBytes(file: Bytes, offset: nat, data: Bytes)
    requires data != []
    ensures var r := Overwritten(file, offset, data);
      && |r| == (if offset + |data| < |file| then |file| else offset + |data|)
      && forall x :: 0 <= x < |r| ==>
           r[x] == if offset <= x < offset + |data| then data[x - offset] else if x < |file| then file[x] else 0
  {
  }

  /** The bytes an attempt puts into the file: what it accepts, up to a disk
      error; WriteAt refuses offsets that are negative as an int64. */
  function Written(offset: nat, size: nat, a: Attempt): Bytes {
    match Accepted(a.response, size)
    case None => []
    case Some(data) =>
      if offset >= I64 then []
      else match a.fault case None => data case Some(k) => data[..Min(k, |data|)]
  }

  lemma WrittenIsPrefix(offset: nat, size: nat, a: Attempt)
    requires Written(offset, size, a) != []
    ensures a.response.Response? && (a.response.status == STATUS_OK || a.response.status == STATUS_PARTIAL)
    ensures Written(offset, size, a) <= a.response.body
  {
  }

  /** One attempt: the new file content and whether it succeeded. */
  function AttemptEffect(file: Bytes, offset: nat, size: nat, a: Attempt): (Bytes, bool) {
    (Overwritten(file, offset, Written(offset, size, a)),
     Accepted(a.response, size).Some? && offset < I64 && a.fault == None)
  }

  /** Whether an attempt succeeds, and what it does to the file then. */
  lemma GoodAttempt(file: Bytes, offset: nat, size: nat, a: Attempt)
    ensures var (f, ok) := AttemptEffect(file, offset, size, a);
      && (ok <==> Good(a, offset, size))
      && (ok ==> WrittenOver(file, f, offset, a.response.body[..Min(|a.response.body|, size)]))
  {
    if Good(a, offset, size) {
      var data := a.response.body[..Min(|a.response.body|, size)];
      if data != [] { OverwrittenBytes(file, offset, data); }
    }
  }

  /** `f` is `file` with `data` at the offset, and zeros in a gap before it. */
  predicate WrittenOver(file: Bytes, f: Bytes, offset: nat, data: Bytes) {
    && |f| == (if data == [] || offset + |data| < |file| then |file| else offset + |data|)
    && forall x :: 0 <= x < |f| ==>
         f[x] == if offset <= x < offset + |data| then data[x - offset] else if x < |file| then file[x] else 0
  }

  /** The retry loop: attempts in order until one succeeds, three at most; the
      pause before a retry may be cut short by a cancellation. */
  function RetryEffect(file: Bytes, offset: nat, size: nat, attempts: seq<Attempt>, cancelledAt: Option<nat>, attempt: nat): (Bytes, bool)
    requires attempt <= MAX_RETRIES <= |attempts|
    decreases MAX_RETRIES - attempt
  {
    if attempt == MAX_RETRIES || (attempt > 0 && cancelledAt == Some(attempt)) then (file, false)
    else
      var (f, ok) := AttemptEffect(file, offset, size, attempts[attempt]);
      if ok then (f, true) else RetryEffect(f, offset, size, attempts, cancelledAt, attempt + 1)
  }

  /** When a chunk is fetched in the end: exactly if one of its first three
      attempts is good and no pause before it is cancelled. */
  lemma {:induction false} RetrySucceedsIff(file: Bytes, offset: nat, size: nat, attempts: seq<Attempt>, cancelledAt: Option<nat>, attempt: nat)
    requires attempt <= 3 <= |attempts|
    ensures RetryEffect(file, offset, size, attempts, cancelledAt, attempt).1 <==>
      exists k :: attempt <= k < 3 && Good(attempts[k], offset, size) &&
        !(cancelledAt.Some? && cancelledAt.value > 0 && attempt <= cancelledAt.value <= k)
    decreases 3 - attempt
  {
    if attempt < 3 && !(attempt > 0 && cancelledAt == Some(attempt)) {
      GoodAttempt(file, offset, size, attempts[attempt]);
      RetrySucceedsIff(AttemptEffect(file, offset, size, attempts[attempt]).0, offset, size, attempts, cancelledAt, attempt + 1);
    }
  }

  // -------------------------------------------- an origin that honours ranges

  /** A response to `Range: bytes=first-last` as sections 14.1.2 and 14.2 of
      RFC 9110 describe it: a 206 carries the selected bytes, clipped at the end
      of the representation.  A transfer may fail, but its bytes are never cut
      short while looking complete. */
  predicate HonoursRange(r: Response, origin: Bytes, first: nat, last: nat) {
    r.Response? ==>
      && r.status != STATUS_OK
      && (r.status == STATUS_PARTIAL ==>
            && first <= last && first < |origin|
            && r.end != UnexpectedEof
            && r.body <= origin[first..Min(last + 1, |origin|)]
            && (r.end == Eof ==> r.body == origin[first..Min(last + 1, |origin|)]))
  }

  /** An origin that answers every request with the whole representation and
      status 200, as section 14.2 of RFC 9110 lets it; a transfer may fail. */
  predicate IgnoresRange(r: Response, origin: Bytes) {
    r.Response? ==>
      && r.status != STATUS_PARTIAL
      && (r.status == STATUS_OK ==> r.end != UnexpectedEof && r.body <= origin && (r.end == Eof ==> r.body == origin))
  }

  lemma WholeAcceptance(r: Response, origin: Bytes, size: nat)
    requires IgnoresRange(r, origin)
    ensures Accepted(r, size).Some? ==> Accepted(r, size).value == origin[..Min(size, |origin|)]
  {
  }

  lemma HonestAcceptance(r: Response, origin: Bytes, first: nat, size: nat)
    requires size > 0 && first < |origin| && HonoursRange(r, origin, first, first + size - 1)
    ensures Accepted(r, size).Some? ==> Accepted(r, size).value == origin[first..Min(first + size, |origin|)]
  {
  }

  // ------------------------------------------------------- the file as object

  /** A file on disk; `content` is None until it is created. */
  class OsFile {
    var content: Option<Bytes>

    constructor (content: Option<Bytes>)
      ensures this.content == content
    {
      this.content := content;
    }

    /** Create or empty the file. */
    method Create()
      modifies this
      ensures content == Some([])
    {
      content := Some([]);
    }

    method Truncate(size: nat)
      requires content.Some?
      modifies this
      ensures content == Some(if size <= |old(content.value)| then old(content.value)[..size]
                              else old(content.value) + Zeros(size - |old(content.value)|))
    {
      var c := content.value;
      content := Some(if size <= |c| then c[..size] else c + Zeros(size - |c|));
    }

    method WriteAt(data: Bytes, offset: nat, fault: Option<nat>) returns (ok: bool)
      requires content.Some?
      modifies this
      ensures ok == (fault == None && offset < I64)
      ensures content == Some(if offset >= I64 then old(content.value)
                              else Overwritten(old(content.value), offset, if fault.Some? then data[..Min(fault.value, |data|)] else data))
    {
      if offset >= I64 { return false; }
      var written := if fault.Some? then data[..Min(fault.value, |data|)] else data;
      content := Some(Overwritten(content.value, offset, written));
      return fault == None;
    }

    method Append(data: Bytes)
      requires content.Some?
      modifies this
      ensures content == Some(old(content.value) + data)
    {
      content := Some(content.value + data);
    }
  }

  method DownloadChunk(file: OsFile, offset: nat, size: nat, a: Attempt) returns (ok: bool)
    requires file.content.Some?
    modifies file
    ensures file.content.Some? && (file.content.value, ok) == AttemptEffect(old(file.content.value), offset, size, a)
    ensures var r := a.response;
      ok <==>
        && r.Response? && (r.status == 200 || r.status == 206)
        && (|r.body| >= size || (r.end == Eof && r.body != []) || r.end == UnexpectedEof)
        && offset < I64 && a.fault == None
    ensures ok ==> WrittenOver(old(file.content.value), file.content.value, offset, a.response.body[..Min(|a.response.body|, size)])
  {
    GoodAttempt(file.content.value, offset, size, a);
    var r := a.response;
    if r.ConnectionError? { return false; }
    if r.status != STATUS_PARTIAL && r.status != STATUS_OK { return false; }
    var (n, err) := ReadFull(r.body, r.end, size);
    if err.Some? && err.value != UnexpectedEof { return false; }
    ok := file.WriteAt(r.body[..n], offset, a.fault);
  }

  method DownloadChunkWithRetry(file: OsFile, offset: nat, size: nat, attempts: seq<Attempt>, cancelledAt: Option<nat>) returns (ok: bool)
    requires file.content.Some? && MAX_RETRIES <= |attempts|
    modifies file
    ensures file.content.Some?
    ensures (file.content.value, ok) == RetryEffect(old(file.content.value), offset, size, attempts, cancelledAt, 0)
    ensures ok <==>
      exists k :: 0 <= k < 3 && Good(attempts[k], offset, size) && !(cancelledAt.Some? && 0 < cancelledAt.value <= k)
  {
    RetrySucceedsIff(file.content.value, offset, size, attempts, cancelledAt, 0);
    var attempt := 0;
    while attempt < MAX_RETRIES
      invariant 0 <= attempt <= MAX_RETRIES && file.content.Some?
      invariant RetryEffect(file.content.value, offset, size, attempts, cancelledAt, attempt)
             == RetryEffect(old(file.content.value), offset, size, attempts, cancelledAt, 0)
    {
      if attempt > 0 {
        if cancelledAt == Some(attempt) { return false; }
      }
      var done := DownloadChunk(file, offset, size, attempts[attempt]);
      if done { return true; }
      attempt := attempt + 1;
    }
    return false;
  }

  // --------------------------------------------------- one plain GET, copied

  /** What successive reads of a body deliver; `Broken` is a read error other
      than the end of the body. */
  datatype Read = Data(bytes: Bytes) | Last(bytes: Bytes) | Broken(bytes: Bytes)

  function AllBytes(body: seq<Read>): Bytes {
    if body == [] then [] else AllBytes(body[..|body| - 1]) + body[|body| - 1].bytes
  }

  lemma OneMoreRead(body: seq<Read>, i: nat)
    requires i < |body|
    ensures AllBytes(body[..i + 1]) == AllBytes(body[..i]) + body[i].bytes
    ensures body[i].bytes == [] ==> AllBytes(body[..i + 1]) == AllBytes(body[..i])
  {
    assert body[..i + 1][..i] == body[..i];
    assert AllBytes(body[..i]) + [] == AllBytes(body[..i]);
  }

  /** The first read that is not just more data. */
  function LastRead(body: seq<Read>): (k: nat)
    ensures k <= |body|
    ensures forall j :: 0 <= j < k ==> body[j].Data?
    ensures k < |body| ==> !body[k].Data?
    decreases |body|
  {
    if body == [] || !body[0].Data? then 0 else 1 + LastRead(body[1..])
  }

  /** The disk refuses a write: which read delivered its bytes, and how many of
      them still got through. */
  datatype WriteFault = WriteFault(read: nat, written: nat)

  /** The fault meets a write; reads without bytes write nothing. */
  predicate FaultAt(body: seq<Read>, fault: Option<WriteFault>, i: nat)
    requires i < |body|
  {
    fault.Some? && fault.value.read == i && body[i].bytes != []
  }

  /** The copy gets to the end of the body: nobody cancels it before, and the
      disk takes every write. */
  predicate CopyCompletes(body: seq<Read>, cancelledAt: Option<nat>, fault: Option<WriteFault>) {
    var k := LastRead(body);
    && k < |body| && body[k].Last?
    && (cancelledAt.Some? ==> cancelledAt.value > k)
    && (forall i :: 0 <= i <= k ==> !FaultAt(body, fault, i))
  }

  lemma EndIsLastRead(body: seq<Read>, cancelledAt: Option<nat>, fault: Option<WriteFault>, k: nat)
    requires k < |body| && EndsAt(body, cancelledAt, fault, k)
    ensures k == LastRead(body) && CopyCompletes(body, cancelledAt, fault)
  {
    assert k == LastRead(body);
  }

  lemma CopyCompletesIff(body: seq<Read>, cancelledAt: Option<nat>, fault: Option<WriteFault>)
    ensures CopyCompletes(body, cancelledAt, fault) <==>
      exists k :: 0 <= k < |body| && EndsAt(body, cancelledAt, fault, k)
  {
    if CopyCompletes(body, cancelledAt, fault) {
      var k := LastRead(body);
      assert !FaultAt(body, fault, k);
      forall i | 0 <= i <= k && fault.Some? && fault.value.read == i ensures body[i].bytes == [] { assert !FaultAt(body, fault, i); }
      assert EndsAt(body, cancelledAt, fault, k);
    }
    if k :| 0 <= k < |body| && EndsAt(body, cancelledAt, fault, k) { EndIsLastRead(body, cancelledAt, fault, k); }
  }

  /** Read `k` is the clean end of the body, only data came before, and neither a
      cancellation nor a refused write stops the copy on the way. */
  predicate EndsAt(body: seq<Read>, cancelledAt: Option<nat>, fault: Option<WriteFault>, k: nat)
    requires k < |body|
  {
    && body[k].Last? && (forall i :: 0 <= i < k ==> body[i].Data?)
    && (cancelledAt.Some? ==> cancelledAt.value > k)
    && (fault.Some? ==> forall i :: 0 <= i <= k && fault.value.read == i ==> body[i].bytes == [])
  }

  /** The plain download: status 200 only, a fresh file, and the copy loop.  It
      succeeds just when the body came to its end and the disk held out, and the
      file then holds the whole body whatever it held before. */
  method DownloadSingleConnection(file: OsFile, status: int, createFails: bool, body: seq<Read>,
                                  cancelledAt: Option<nat>, fault: Option<WriteFault>) returns (ok: bool)
    modifies file
    ensures ok <==> status == STATUS_OK && !createFails && CopyCompletes(body, cancelledAt, fault)
    ensures ok ==> file.content == Some(AllBytes(body[..LastRead(body) + 1]))
    ensures ok <==> status == 200 && !createFails && exists k :: 0 <= k < |body| && EndsAt(body, cancelledAt, fault, k)
  {
    CopyCompletesIff(body, cancelledAt, fault);
    if status != STATUS_OK { return false; }
    if createFails { return false; }
    file.Create();
    var i := 0;
    while i < |body|
      invariant 0 <= i <= LastRead(body) && file.content == Some(AllBytes(body[..i]))
      invariant cancelledAt.Some? ==> cancelledAt.value >= i
      invariant forall j :: 0 <= j < i ==> !FaultAt(body, fault, j)
    {
      if cancelledAt == Some(i) {
        return false;
      }
      OneMoreRead(body, i);
      if body[i].bytes != [] {
        if fault.Some? && fault.value.read == i {
          assert FaultAt(body, fault, i);
          file.Append(body[i].bytes[..Min(fault.value.written, |body[i].bytes|)]);
          return false;
        }
        file.Append(body[i].bytes);
      }
      if body[i].Last? {
        return true;
      }
      if body[i].Broken? {
        return false;
      }
      i := i + 1;
    }
    return false;
  }
}
