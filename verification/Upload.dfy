/**
  Chunked uploads: sessions in memory, chunk files on disk. The running totals follow the
  slots through re-sends, the count test is a completeness test, and what `complete_upload`
  assembles is the last accepted payload of every slot, in order.
 */
module Upload {
  import opened Prelude

  newtype byte = x: int | 0 <= x < 256
  type Bytes = seq<byte>
  type Slots = map<nat, Bytes>

  const MAX_CHUNKS := 10000

  datatype Session = Session(
    name: string,
    totalChunks: nat,
    received: set<nat>,
    chunkSizes: map<nat, nat>,
    totalBytes: nat,
    createdAt: int)

  /** The staging directory of an upload: its chunk files and the assembled file. */
  datatype Folder = Folder(chunks: Slots, complete: Option<Bytes>, modifiedAt: int)

  datatype UploadError =
    | NameRequired
    | ChunkCountInvalid
    | UnknownSession
    | IndexOutOfRange
    | NotBase64
    | ChunkTooLarge
    | UploadTooLarge
    | MissingChunks(missing: set<nat>)
    | ChecksumMismatch

  // ---- Slots ----------------------------------------------------------------------------

  function SlotSize(slots: Slots, i: nat): nat {
    if i in slots then |slots[i]| else 0
  }

  /** The bytes held in slots 0..n-1. */
  function Size(slots: Slots, n: nat): nat {
    if n == 0 then 0 else Size(slots, n - 1) + SlotSize(slots, n - 1)
  }

  /** The slots 0..n-1 one after the other. */
  function Join(slots: Slots, n: nat): Bytes {
    if n == 0 then [] else Join(slots, n - 1) + (if n - 1 in slots then slots[n - 1] else [])
  }

  lemma {:induction false} JoinSize(slots: Slots, n: nat)
    ensures |Join(slots, n)| == Size(slots, n)
  {
    if n > 0 { JoinSize(slots, n - 1); }
  }

  /** Replacing a slot moves the total by the difference of the two payloads. */
  lemma {:induction false} SizeAfterStore(slots: Slots, i: nat, data: Bytes, n: nat)
    ensures Size(slots[i := data], n) == Size(slots, n) + (if i < n then |data| - SlotSize(slots, i) else 0)
  {
    if n > 0 { SizeAfterStore(slots, i, data, n - 1); }
  }

  /** What the other slots hold. */
  lemma {:induction false} SizeWithout(slots: Slots, i: nat, n: nat)
    ensures Size(slots - {i}, n) == Size(slots, n) - (if i < n then SlotSize(slots, i) else 0)
  {
    if n > 0 { SizeWithout(slots, i, n - 1); }
  }

  /** A received count of `n` among indices below `n` leaves no index out, and only then. */
  lemma CountIsCompleteness(received: set<nat>, n: nat)
    requires forall i | i in received :: i < n
    ensures |received| == n <==> forall i: nat :: i < n ==> i in received
  {
    var all := Upto(n);
    UptoSize(n);
    assert received <= all;
    assert all == received + (all - received);
    assert (forall i: nat :: i < n ==> i in received) ==> received == all;
  }

  function Upto(n: nat): (s: set<nat>)
    ensures forall i: nat :: i in s <==> i < n
  {
    if n == 0 then {} else Upto(n - 1) + {n - 1}
  }

  lemma {:induction false} UptoSize(n: nat)
    ensures |Upto(n)| == n
  {
    if n > 0 {
      UptoSize(n - 1);
      assert n - 1 !in Upto(n - 1);
    }
  }

  // ---- A sequence of stores -------------------------------------------------------------

  /** One call of `store_chunk`: an index and the decoded payload, or text that is not base64. */
  datatype Send = Send(index: int, data: Option<Bytes>)

  datatype Limits = Limits(maxChunk: nat, maxUpload: nat)

  predicate Accepts(slots: Slots, n: nat, limits: Limits, send: Send) {
    && 0 <= send.index < n
    && send.data.Some?
    && |send.data.value| <= limits.maxChunk
    && Size(slots, n) - SlotSize(slots, send.index) + |send.data.value| <= limits.maxUpload
  }

  /** What a chunk is answered: the number of slots filled with it, or its refusal for the index, the
      encoding, its size, or its size on top of what the other slots hold. */
  function ChunkVerdict(slots: Slots, n: nat, limits: Limits, send: Send): Result<nat, UploadError> {
    if send.index < 0 || n <= send.index then Err(IndexOutOfRange)
    else if send.data.None? then Err(NotBase64)
    else if limits.maxChunk < |send.data.value| then Err(ChunkTooLarge)
    else if limits.maxUpload < Size(slots - {send.index as nat}, n) + |send.data.value| then Err(UploadTooLarge)
    else Ok(|slots.Keys + {send.index as nat}|)
  }

  lemma VerdictAccepts(slots: Slots, n: nat, limits: Limits, send: Send)
    ensures ChunkVerdict(slots, n, limits, send).Ok? <==> Accepts(slots, n, limits, send)
    ensures 0 <= send.index < n ==>
      Size(slots - {send.index as nat}, n) == Size(slots, n) - SlotSize(slots, send.index as nat)
    ensures Accepts(slots, n, limits, send) ==>
      slots[send.index as nat := send.data.value].Keys == slots.Keys + {send.index as nat}
  {
    if 0 <= send.index < n { SizeWithout(slots, send.index as nat, n); }
  }

  function Store(slots: Slots, n: nat, limits: Limits, send: Send): Slots {
    if Accepts(slots, n, limits, send) then slots[send.index as nat := send.data.value] else slots
  }

  function StoreAll(slots: Slots, n: nat, limits: Limits, sends: seq<Send>): Slots {
    if sends == [] then slots
    else Store(StoreAll(slots, n, limits, sends[..|sends| - 1]), n, limits, sends[|sends| - 1])
  }

  /** Call `k` of the sequence is accepted, judged by the slots the calls before it left. */
  predicate AcceptedAt(slots: Slots, n: nat, limits: Limits, sends: seq<Send>, k: nat)
    requires k < |sends|
  {
    Accepts(StoreAll(slots, n, limits, sends[..k]), n, limits, sends[k])
  }

  /** Call `k` is the last accepted one for slot `i`. */
  ghost predicate LastFor(n: nat, limits: Limits, sends: seq<Send>, k: nat, i: nat) {
    && k < |sends| && sends[k].index == i && AcceptedAt(map[], n, limits, sends, k)
    && forall j | k < j < |sends| && sends[j].index == i :: !AcceptedAt(map[], n, limits, sends, j)
  }

  /** Slot `i` is filled exactly when some call for it was accepted, and holds what the last
      accepted one sent; indices and total stay within the limits. */
  lemma {:induction false} LastAcceptedWins(n: nat, limits: Limits, sends: seq<Send>, i: nat)
    ensures var slots := StoreAll(map[], n, limits, sends);
      && (i in slots <==> exists k: nat :: LastFor(n, limits, sends, k, i))
      && (forall k: nat :: LastFor(n, limits, sends, k, i) ==> i in slots && slots[i] == sends[k].data.value)
      && (i in slots ==> i < n)
      && Size(slots, n) <= limits.maxUpload
    decreases |sends|
  {
    if sends == [] {
      EmptySize(n);
    } else {
      var last := |sends| - 1;
      var rest := sends[..last];
      var before := StoreAll(map[], n, limits, rest);
      LastAcceptedWins(n, limits, rest, i);
      if AcceptedAt(map[], n, limits, sends, last) {
        SizeAfterStore(before, sends[last].index, sends[last].data.value, n);
      }
      if AcceptedAt(map[], n, limits, sends, last) && sends[last].index == i {
        assert LastFor(n, limits, sends, last, i);
      } else {
        SameLast(n, limits, sends, i);
        if i in before {
          var k: nat :| LastFor(n, limits, rest, k, i);
          assert LastFor(n, limits, sends, k, i);
        }
      }
    }
  }

  /** A call that is refused or for another slot changes nobody's last accepted call for `i`. */
  lemma SameLast(n: nat, limits: Limits, sends: seq<Send>, i: nat)
    requires sends != [] && !(AcceptedAt(map[], n, limits, sends, |sends| - 1) && sends[|sends| - 1].index == i)
    ensures forall k: nat :: LastFor(n, limits, sends, k, i) <==> LastFor(n, limits, sends[..|sends| - 1], k, i)
  {
    var rest := sends[..|sends| - 1];
    forall k | 0 <= k < |rest| ensures AcceptedAt(map[], n, limits, sends, k) == AcceptedAt(map[], n, limits, rest, k) {
      assert sends[..k] == rest[..k];
    }
  }

  lemma {:induction false} EmptySize(n: nat)
    ensures Size(map[], n) == 0
  {
    if n > 0 { EmptySize(n - 1); }
  }

  // ---- One session ----------------------------------------------------------------------

  /** Session metadata and staged files agree. */
  ghost predicate SessionOk(s: Session, f: Folder, limits: Limits) {
    && 1 <= s.totalChunks <= MAX_CHUNKS
    && s.received == f.chunks.Keys
    && s.chunkSizes.Keys == f.chunks.Keys
    && (forall i | i in f.chunks :: i < s.totalChunks && s.chunkSizes[i] == |f.chunks[i]|)
    && s.totalBytes == Size(f.chunks, s.totalChunks)
    && s.totalBytes <= limits.maxUpload
  }

  /** The size recorded for the slot a chunk replaces. */
  function RecordedSize(s: Session, i: nat): nat {
    if i in s.chunkSizes then s.chunkSizes[i] else 0
  }

  function Recorded(s: Session, i: nat, size: nat, total: nat): Session {
    s.(received := s.received + {i}, totalBytes := total, chunkSizes := s.chunkSizes[i := size])
  }

  /** With the difference of the sizes added, the metadata agrees with the replaced slot. */
  lemma RecordedOk(s: Session, f: Folder, limits: Limits, i: nat, data: Bytes, now: int)
    requires SessionOk(s, f, limits) && i < s.totalChunks
    ensures RecordedSize(s, i) == SlotSize(f.chunks, i) <= s.totalBytes
    ensures s.totalBytes - RecordedSize(s, i) + |data| <= limits.maxUpload ==>
      SessionOk(Recorded(s, i, |data|, s.totalBytes - RecordedSize(s, i) + |data|),
                f.(chunks := f.chunks[i := data], modifiedAt := now), limits)
  {
    SlotWithin(f.chunks, i, s.totalChunks);
    SizeAfterStore(f.chunks, i, data, s.totalChunks);
  }

  function Stale(sessions: map<string, Session>, cutoff: int): set<string> {
    set id | id in sessions && sessions[id].createdAt < cutoff
  }

  /** Directories that belong to no session and have not changed since the cutoff. */
  function Orphans(sessions: map<string, Session>, disk: map<string, Folder>, cutoff: int): set<string> {
    set id | id in disk && id !in sessions && disk[id].modifiedAt < cutoff
  }

  /** Of the sessions exactly those not started before the cutoff stay; of the directories exactly those
      of such sessions and, of the unknown ones, those not last changed before it. */
  ghost predicate Pruned(sessions: map<string, Session>, disk: map<string, Folder>,
                         keptSessions: map<string, Session>, keptDisk: map<string, Folder>, cutoff: int) {
    && (forall id :: id in keptSessions <==> id in sessions && sessions[id].createdAt >= cutoff)
    && (forall id | id in keptSessions :: keptSessions[id] == sessions[id])
    && (forall id :: id in keptDisk <==>
          id in disk && if id in sessions then sessions[id].createdAt >= cutoff else disk[id].modifiedAt >= cutoff)
    && (forall id | id in keptDisk :: keptDisk[id] == disk[id])
  }

  // ---- The manager ----------------------------------------------------------------------

  class ChunkedUploadManager {
    const limits: Limits
    var sessions: map<string, Session>
    var disk: map<string, Folder>

    ghost predicate Valid()
      reads this
    {
      forall id | id in sessions :: id in disk && SessionOk(sessions[id], disk[id], limits)
    }

    /** A manager starts without sessions over whatever directories a former one left: a restart
        forgets the sessions and keeps the files. */
    constructor (limits: Limits, disk: map<string, Folder>)
      ensures this.limits == limits && sessions == map[] && this.disk == disk && Valid()
    {
      this.limits := limits;
      this.disk := disk;
      sessions := map[];
    }

    /** `id` is the freshly drawn token. */
    method InitUpload(id: string, name: string, totalChunks: int, now: int) returns (r: Result<string, UploadError>)
      requires Valid() && id !in sessions && id !in disk
      modifies this
      ensures Valid()
      ensures r == if name == "" then Err(NameRequired)
                   else if !(1 <= totalChunks <= 10000) then Err(ChunkCountInvalid) else Ok(id)
      ensures r.Err? ==> sessions == old(sessions) && disk == old(disk)
      ensures r.Ok? ==> sessions == old(sessions)[id := Session(name, totalChunks, {}, map[], 0, now)]
      ensures r.Ok? ==> disk == old(disk)[id := Folder(map[], None, now)]
    {
      if name == "" { return Err(NameRequired); }
      if totalChunks <= 0 { return Err(ChunkCountInvalid); }
      if totalChunks > MAX_CHUNKS { return Err(ChunkCountInvalid); }
      EmptySize(totalChunks);
      disk := disk[id := Folder(map[], None, now)];
      sessions := sessions[id := Session(name, totalChunks, {}, map[], 0, now)];
      return Ok(id);
    }

    /** Writes the chunk file and then the metadata, with the total moved by the difference in size. */
    method PlaceChunk(id: string, index: nat, payload: Bytes, now: int)
      requires Valid() && id in sessions && index < sessions[id].totalChunks
      requires sessions[id].totalBytes - RecordedSize(sessions[id], index) + |payload| <= limits.maxUpload
      modifies this
      ensures Valid() && sessions.Keys == old(sessions).Keys && disk.Keys == old(disk).Keys
      ensures disk == old(disk)[id := old(disk)[id].(
        chunks := old(disk)[id].chunks[index := payload], modifiedAt := now)]
      ensures forall other | other in sessions && other != id :: sessions[other] == old(sessions)[other]
      ensures sessions[id].totalChunks == old(sessions)[id].totalChunks
        && sessions[id].name == old(sessions)[id].name && sessions[id].createdAt == old(sessions)[id].createdAt
    {
      var s := sessions[id];
      RecordedOk(s, disk[id], limits, index, payload, now);
      disk := disk[id := disk[id].(chunks := disk[id].chunks[index := payload], modifiedAt := now)];
      sessions := sessions[id := Recorded(s, index, |payload|, s.totalBytes - RecordedSize(s, index) + |payload|)];
    }

    /** The slots follow `Store`; a refused chunk changes nothing at all. A chunk is refused for its
        session, its index, its encoding, its size, or for what the other slots hold together with it;
        an accepted one replaces its slot and nothing else. */
    method StoreChunk(id: string, send: Send, now: int) returns (r: Result<nat, UploadError>)
      requires Valid()
      modifies this
      ensures Valid()
      ensures r.Ok? <==>
        id in old(sessions) && Accepts(old(disk)[id].chunks, old(sessions)[id].totalChunks, limits, send)
      ensures r.Err? ==> sessions == old(sessions) && disk == old(disk)
      ensures r.Ok? ==> sessions.Keys == old(sessions).Keys && disk.Keys == old(disk).Keys
      ensures r.Ok? ==> disk[id].chunks == Store(old(disk)[id].chunks, old(sessions)[id].totalChunks, limits, send)
      ensures r.Ok? ==> sessions[id].totalChunks == old(sessions)[id].totalChunks && r.value == |disk[id].chunks|
      ensures id !in old(sessions) ==> r == Err(UnknownSession)
      ensures id in old(sessions) ==>
        r == ChunkVerdict(old(disk)[id].chunks, old(sessions)[id].totalChunks, limits, send)
      ensures r.Ok? ==>
        && disk[id] == old(disk)[id].(chunks := old(disk)[id].chunks[send.index as nat := send.data.value],
                                      modifiedAt := now)
        && sessions[id].name == old(sessions)[id].name && sessions[id].createdAt == old(sessions)[id].createdAt
      ensures forall other | other != id ::
        (other in sessions ==> sessions[other] == old(sessions)[other])
            && (other in disk ==> disk[other] == old(disk)[other])
    {
      if id !in sessions { return Err(UnknownSession); }
      var s := sessions[id];
      VerdictAccepts(disk[id].chunks, s.totalChunks, limits, send);
      if send.index < 0 || send.index >= s.totalChunks { return Err(IndexOutOfRange); }
      if send.data.None? { return Err(NotBase64); }
      var index, payload := send.index as nat, send.data.value;
      if |payload| > limits.maxChunk { return Err(ChunkTooLarge); }
      RecordedOk(s, disk[id], limits, index, payload, now);
      var newTotal := s.totalBytes - RecordedSize(s, index) + |payload|;
      if newTotal > limits.maxUpload { return Err(UploadTooLarge); }
      PlaceChunk(id, index, payload, now);
      KeysSize(disk[id].chunks);
      return Ok(|sessions[id].received|);
    }

    /** With every chunk received the file is the join of the slots, `total_bytes` long; a
        missing chunk is named and nothing is written. The checksum is compared last. */
    method CompleteUpload(id: string, checksum: Option<string>, digest: Bytes -> string, lower: string -> string)
        returns (r: Result<Bytes, UploadError>)
      requires Valid()
      modifies this`disk
      ensures Valid()
      ensures id !in sessions ==> r == Err(UnknownSession) && disk == old(disk)
      ensures id in sessions ==>
        var n, slots := sessions[id].totalChunks, old(disk)[id].chunks;
        var file := Join(slots, n);
        if exists i: nat :: i < n && i !in slots then
          && disk == old(disk)
          && r.Err? && r.error.MissingChunks?
          && forall i: nat :: i in r.error.missing <==> i < n && i !in slots
        else
          && disk == old(disk)[id := old(disk)[id].(complete := Some(file))]
          && |file| == sessions[id].totalBytes
          && r == if checksum.Some? && lower(digest(file)) != lower(checksum.value) then Err(ChecksumMismatch)
              else Ok(file)
    {
      if id !in sessions { return Err(UnknownSession); }
      var s := sessions[id];
      ghost var slots := disk[id].chunks;
      CountIsCompleteness(s.received, s.totalChunks);
      if |s.received| != s.totalChunks {
        return Err(MissingChunks(set i: nat | i < s.totalChunks && i !in s.received));
      }
      var out: Bytes := [];
      for i := 0 to s.totalChunks
        invariant out == Join(slots, i)
      {
        out := out + disk[id].chunks[i];
      }
      JoinSize(slots, s.totalChunks);
      disk := disk[id := disk[id].(complete := Some(out))];
      if checksum.Some? && lower(digest(out)) != lower(checksum.value) { return Err(ChecksumMismatch); }
      return Ok(out);
    }

    /** Forgets the session and its staged files; an unknown id changes nothing. */
    method DiscardSession(id: string)
      requires Valid()
      modifies this
      ensures Valid()
      ensures sessions == old(sessions) - {id}
      ensures disk == if id in old(sessions) then old(disk) - {id} else old(disk)
    {
      if id in sessions {
        sessions := sessions - {id};
        disk := disk - {id};
      }
    }

    /** Sessions started before the cutoff go, with their directories. */
    method PruneSessions(cutoff: int) returns (stale: set<string>)
      requires Valid()
      modifies this
      ensures Valid()
      ensures stale == Stale(old(sessions), cutoff)
      ensures sessions == old(sessions) - stale && disk == old(disk) - stale
    {
      ghost var was, files := sessions, disk;
      stale := Stale(sessions, cutoff);
      var rest := stale;
      while rest != {}
        invariant rest <= stale && Valid()
        invariant sessions == was - (stale - rest) && disk == files - (stale - rest)
        decreases rest
      {
        var id :| id in rest;
        assert stale - (rest - {id}) == stale - rest + {id};
        rest := rest - {id};
        DiscardSession(id);
      }
      assert stale - rest == stale;
    }

    /** Directories that no session knows go when they have not changed since the cutoff. */
    method PruneOrphans(cutoff: int) returns (orphans: set<string>)
      requires Valid()
      modifies this`disk
      ensures Valid()
      ensures orphans == Orphans(sessions, old(disk), cutoff)
      ensures disk == old(disk) - orphans
    {
      ghost var files := disk;
      orphans := Orphans(sessions, disk, cutoff);
      var rest := orphans;
      while rest != {}
        invariant rest <= orphans && Valid()
        invariant disk == files - (orphans - rest)
        decreases rest
      {
        var id :| id in rest;
        assert orphans - (rest - {id}) == orphans - rest + {id};
        rest := rest - {id};
        disk := disk - {id};
      }
      assert orphans - rest == orphans;
    }

    /** Keeps exactly the sessions started since the cutoff, their directories, and the unknown
        directories changed since the cutoff; counts the directories that went. */
    method PruneStale(cutoff: int) returns (pruned: nat)
      requires Valid()
      modifies this
      ensures Valid()
      ensures sessions == old(sessions) - Stale(old(sessions), cutoff)
      ensures disk == old(disk) - Stale(old(sessions), cutoff) - Orphans(old(sessions), old(disk), cutoff)
      ensures |old(disk)| == |disk| + pruned
      ensures Pruned(old(sessions), old(disk), sessions, disk, cutoff)
    {
      ghost var files := disk;
      var stale := PruneSessions(cutoff);
      var orphans := PruneOrphans(cutoff);
      OrphansAfterPrune(old(sessions), files, stale, cutoff);
      RemovedCount(files, disk, stale, orphans);
      return |stale| + |orphans|;
    }
  }

  lemma {:induction false} StoreAllNext(slots: Slots, n: nat, limits: Limits, sends: seq<Send>, i: nat)
    requires i < |sends|
    ensures StoreAll(slots, n, limits, sends[..i + 1]) ==
        Store(StoreAll(slots, n, limits, sends[..i]), n, limits, sends[i])
  {
    assert sends[..i + 1][..i] == sends[..i];
  }

  /** Some send for the index was accepted. */
  ghost predicate AcceptedFor(n: nat, limits: Limits, sends: seq<Send>, i: nat) {
    exists k: nat :: LastFor(n, limits, sends, k, i)
  }

  lemma FilledMeansAccepted(n: nat, limits: Limits, sends: seq<Send>, i: nat)
    ensures i in StoreAll(map[], n, limits, sends) <==> AcceptedFor(n, limits, sends, i)
  {
    LastAcceptedWins(n, limits, sends, i);
  }

  lemma AllAccepted(n: nat, limits: Limits, sends: seq<Send>, slots: Slots)
    requires slots == StoreAll(map[], n, limits, sends)
    ensures (forall i: nat | i < n :: i in slots) <==> forall i: nat | i < n :: AcceptedFor(n, limits, sends, i)
  {
    if forall i: nat | i < n :: i in slots {
      forall i: nat | i < n ensures AcceptedFor(n, limits, sends, i) {
        assert i in slots;
        FilledMeansAccepted(n, limits, sends, i);
      }
    }
    if forall i: nat | i < n :: AcceptedFor(n, limits, sends, i) {
      forall i: nat | i < n ensures i in slots {
        assert AcceptedFor(n, limits, sends, i);
        FilledMeansAccepted(n, limits, sends, i);
      }
    }
  }

  /** Sends every chunk, ignoring refusals. */
  method SendAll(manager: ChunkedUploadManager, id: string, sends: seq<Send>, now: int)
    requires manager.Valid() && id in manager.sessions
    requires manager.disk[id].chunks == map[]
    modifies manager
    ensures manager.Valid() && id in manager.sessions && id in manager.disk
    ensures manager.sessions[id].totalChunks == old(manager.sessions[id].totalChunks)
    ensures manager.disk[id].chunks == StoreAll(map[], manager.sessions[id].totalChunks, manager.limits, sends)
  {
    ghost var n := manager.sessions[id].totalChunks;
    assert sends[..0] == [];
    for i := 0 to |sends|
      invariant manager.Valid() && id in manager.sessions && id in manager.disk
      invariant manager.sessions[id].totalChunks == n
      invariant manager.disk[id].chunks == StoreAll(map[], n, manager.limits, sends[..i])
    {
      StoreAllNext(map[], n, manager.limits, sends, i);
      var _ := manager.StoreChunk(id, sends[i], now);
    }
    assert sends[..|sends|] == sends;
  }

  /** The round trip of one upload: opened, sent in any order with any re-sends, completed. The
      file is the join of the last accepted payloads, `total_bytes` long and within the limit,
      exactly when every index had a send accepted. */
  method RoundTrip(manager: ChunkedUploadManager, id: string, name: string, n: int, sends: seq<Send>, now: int,
                   digest: Bytes -> string, lower: string -> string)
      returns (r: Result<Bytes, UploadError>)
    requires manager.Valid() && id !in manager.sessions && id !in manager.disk
    modifies manager
    ensures manager.Valid()
    ensures r.Ok? <==>
      && name != "" && 1 <= n <= MAX_CHUNKS
      && forall i: nat | i < n :: AcceptedFor(n, manager.limits, sends, i)
    ensures r.Ok? ==> r.value == Join(StoreAll(map[], n, manager.limits, sends), n)
    ensures r.Ok? ==>
      id in manager.sessions && |r.value| == manager.sessions[id].totalBytes <= manager.limits.maxUpload
  {
    var started := manager.InitUpload(id, name, n, now);
    if started.Err? { return Err(started.error); }
    SendAll(manager, id, sends, now);
    AllAccepted(n, manager.limits, sends, manager.disk[id].chunks);
    r := manager.CompleteUpload(id, None, digest, lower);
  }

  /** In that file the last accepted payload of every index stands right after those before it. */
  lemma PiecesInOrder(n: nat, limits: Limits, sends: seq<Send>, i: nat, k: nat)
    requires i < n && LastFor(n, limits, sends, k, i)
    ensures var slots := StoreAll(map[], n, limits, sends);
      && Size(slots, i) + |sends[k].data.value| <= |Join(slots, n)|
      && Join(slots, n)[Size(slots, i)..][..|sends[k].data.value|] == sends[k].data.value
  {
    LastAcceptedWins(n, limits, sends, i);
    SlotInJoin(StoreAll(map[], n, limits, sends), i, n);
  }

  /** Each slot lies in the joined file right after the slots before it. */
  lemma {:induction false} SlotInJoin(slots: Slots, i: nat, n: nat)
    requires i < n && i in slots
    ensures Size(slots, i) + |slots[i]| <= |Join(slots, n)|
    ensures Join(slots, n)[Size(slots, i)..][..|slots[i]|] == slots[i]
  {
    JoinSize(slots, n - 1);
    if i < n - 1 {
      SlotInJoin(slots, i, n - 1);
    }
  }

  /** Dropping sessions with their directories makes no orphan and hides none. */
  lemma OrphansAfterPrune(sessions: map<string, Session>, disk: map<string, Folder>, stale: set<string>, cutoff: int)
    requires stale <= sessions.Keys
    ensures Orphans(sessions - stale, disk - stale, cutoff) == Orphans(sessions, disk, cutoff)
  {
  }

  lemma RemovedCount(before: map<string, Folder>, after: map<string, Folder>, a: set<string>, b: set<string>)
    requires after == before - a - b && a <= before.Keys && b <= before.Keys && a !! b
    ensures |before| == |after| + |a| + |b|
  {
    assert before.Keys == after.Keys + (a + b);
    assert |a + b| == |a| + |b|;
    assert after.Keys !! a + b;
    KeysSize(before);
    KeysSize(after);
  }

  lemma KeysSize<K, V>(m: map<K, V>)
    ensures |m| == |m.Keys|
  {}

  /** One slot is part of the total. */
  lemma {:induction false} SlotWithin(slots: Slots, i: nat, n: nat)
    requires i < n
    ensures SlotSize(slots, i) <= Size(slots, n)
  {
    if i < n - 1 { SlotWithin(slots, i, n - 1); }
  }
}
