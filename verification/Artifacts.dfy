/**
 The artifact store: records with an expiry time over several backings, a clock and a file system that
 other programs share. Creating, reading and removing are asynchronous, so each is more than one event.
 */
module Artifacts {
  import opened Common
  import opened Utf8
  import Base64

  type Bytes = seq<byte>

  const INLINE_TEXT_THRESHOLD_BYTES: nat := 16 * 1024
  const INLINE_BINARY_THRESHOLD_BYTES: nat := 64 * 1024
  const DEFAULT_TTL_MS: int := 60 * 60 * 1000

  datatype Encoding = Utf8Text | Base64Blob

  datatype Backing =
    | Memory(data: Bytes)
    | TempFile(path: string)
    | LocalFile(path: string)
    | ProxmoxFile(target: string, path: string)

  datatype Meta = Meta(kind: string, mimeType: string, encoding: Encoding, expiresInMs: Option<int>)

  datatype Record = Record(
    artifactId: string, uri: string, kind: string, mimeType: string, backing: Backing,
    size: nat, encoding: Encoding, createdAt: int, expiresAt: Option<int>)

  datatype Error = UnknownArtifact(id: string) | ArtifactExpired(id: string) | ReadFailed | BadReference

  type Registry = map<string, Record>
  type Files = map<string, Bytes>
  type RemoteFiles = map<(string, string), Bytes>

  // ------------------------------------------------------------- records

  const URI_PREFIX: string := "proxmox://artifacts/"

  function Uri(id: string): string {
    URI_PREFIX + id
  }

  /** Zero means never; no value means the default. */
  function ExpiresAt(expiresInMs: Option<int>, now: int): Option<int> {
    if expiresInMs == Some(0) then None
    else Some(now + if expiresInMs.Some? then expiresInMs.value else DEFAULT_TTL_MS)
  }

  function NewRecord(id: string, meta: Meta, backing: Backing, size: nat, now: int): Record {
    Record(id, Uri(id), meta.kind, meta.mimeType, backing, size, meta.encoding, now, ExpiresAt(meta.expiresInMs, now))
  }

  /** Every field of the record of a new artifact: what the caller gave, its id and URI, and when its lifetime is over. */
  predicate Describes(r: Record, id: string, meta: Meta, backing: Backing, size: nat, now: int) {
    && r.artifactId == id && r.uri == "proxmox://artifacts/" + id && r.kind == meta.kind && r.mimeType == meta.mimeType
    && r.encoding == meta.encoding && r.backing == backing && r.size == size && r.createdAt == now
    && (meta.expiresInMs.None? ==> r.expiresAt == Some(now + 3_600_000))
    && (meta.expiresInMs.Some? && meta.expiresInMs.value != 0 ==> r.expiresAt == Some(now + meta.expiresInMs.value))
    && (meta.expiresInMs == Some(0) ==> r.expiresAt == None)
  }

  lemma NewRecordDescribes(id: string, meta: Meta, size: nat, now: int)
    ensures forall b :: Describes(NewRecord(id, meta, b, size, now), id, meta, b, size, now)
  {
  }

  predicate UsesTempFile(meta: Meta, size: nat, preferTempFile: bool) {
    preferTempFile
    || size > if meta.encoding.Utf8Text? then INLINE_TEXT_THRESHOLD_BYTES else INLINE_BINARY_THRESHOLD_BYTES
  }

  predicate IsExpired(r: Record, now: int) {
    r.expiresAt.Some? && r.expiresAt.value <= now
  }

  lemma LifetimeMeaning(id: string, meta: Meta, backing: Backing, size: nat, created: int, now: int)
    ensures IsExpired(NewRecord(id, meta, backing, size, created), now) <==> Outlived(meta, now - created)
  {
  }

  /** `get`: an expired record is dropped by the look-up that finds it. */
  function Get(artifacts: Registry, id: string, now: int): (Registry, Result<Record, Error>) {
    if id !in artifacts then (artifacts, Err(UnknownArtifact(id)))
    else if IsExpired(artifacts[id], now) then (artifacts - {id}, Err(ArtifactExpired(id)))
    else (artifacts, Ok(artifacts[id]))
  }

  function ReadBacking(files: Files, remote: RemoteFiles, backing: Backing): Result<Bytes, Error> {
    match backing
    case Memory(data) => Ok(data)
    case TempFile(path) => if path in files then Ok(files[path]) else Err(ReadFailed)
    case LocalFile(path) => if path in files then Ok(files[path]) else Err(ReadFailed)
    case ProxmoxFile(target, path) => if (target, path) in remote then Ok(remote[(target, path)]) else Err(ReadFailed)
  }

  // ---------------------------------------------------------- references

  datatype Reference = Reference(artifactId: Option<string>, resourceUri: Option<string>)

  predicate IsPlainSegment(s: string) {
    s != "" && forall i :: 0 <= i < |s| ==> s[i] != '/' && s[i] != '?' && s[i] != '#'
  }

  /** `resolveArtifactId`; an empty id or URI counts as none. */
  function Resolve(r: Reference): Result<string, Error> {
    if r.artifactId.Some? && r.artifactId.value != "" then Ok(r.artifactId.value)
    else if r.resourceUri.Some? && r.resourceUri.value != "" then
      var uri := r.resourceUri.value;
      if URI_PREFIX <= uri && IsPlainSegment(uri[|URI_PREFIX|..]) then Ok(uri[|URI_PREFIX|..]) else Err(BadReference)
    else Err(BadReference)
  }

  /** An artifact's own URI leads back to its id exactly when the id is one plain path segment. */
  lemma UriResolves(id: string)
    ensures Resolve(Reference(None, Some(Uri(id)))) == Ok(id) <==> id != "" && '/' !in id && '?' !in id && '#' !in id
    ensures Resolve(Reference(None, Some(Uri(id)))).Ok? <==> id != "" && '/' !in id && '?' !in id && '#' !in id
  {
    assert Uri(id)[|URI_PREFIX|..] == id && URI_PREFIX <= Uri(id);
  }

  /** A given id counts before a given URI; a URI counts exactly if it is that of a plain id. */
  lemma ReferenceMeaning(r: Reference, id: string)
    ensures r.artifactId.Some? && r.artifactId.value != "" ==> Resolve(r) == Ok(r.artifactId.value)
    ensures r.artifactId.None? || r.artifactId.value == "" ==>
              (Resolve(r) == Ok(id)
               <==> id != "" && '/' !in id && '?' !in id && '#' !in id && r.resourceUri == Some("proxmox://artifacts/" + id))
  {
    assert |URI_PREFIX| == |"proxmox://artifacts/"|;
    var uri := "proxmox://artifacts/" + id;
    assert uri[|URI_PREFIX|..] == id;
    if r.resourceUri.Some? && URI_PREFIX <= r.resourceUri.value {
      assert r.resourceUri.value == URI_PREFIX + r.resourceUri.value[|URI_PREFIX|..];
    }
  }

  /** Made ids are: a prefix and a UUID. */
  lemma MadeIdsArePlain(uuid: string)
    requires HexDigits(uuid)
    ensures Resolve(Reference(None, Some(Uri("artifact_" + uuid)))) == Ok("artifact_" + uuid)
  {
    UriResolves("artifact_" + uuid);
  }

  // -------------------------------------------------------------- events

  datatype Answer = Answer(id: string, result: Result<Bytes, Error>)

  /**
   `pending` holds records whose temp file is written but which are not registered yet, `reading` the
   records that started reads go by, `unlinking` the temp files that removals are about to delete. The
   last five fields are history: what each id was created with, every id and temp path ever taken, and
   the ids whose record was removed or dropped as expired.
   */
  datatype State = State(
    now: int, artifacts: Registry, files: Files, remote: RemoteFiles,
    pending: Registry, reading: map<nat, Record>, answers: map<nat, Answer>, unlinking: set<string>,
    origins: map<string, Bytes>, used: set<string>, owner: map<string, string>,
    removed: set<string>, evicted: set<string>)

  datatype Event =
    | Tick(ms: nat)
    | Create(id: string, meta: Meta, data: Bytes, preferTempFile: bool, path: string)
    | Register(id: string)
    | LinkLocal(id: string, meta: Meta, path: string, size: nat)
    | LinkRemote(id: string, meta: Meta, target: string, path: string, size: nat)
    | BeginRead(id: string, call: nat)
    | FinishRead(call: nat)
    | Remove(id: string)
    | Unlink(path: string)
    | OtherFile(path: string, content: Option<Bytes>)
    | OtherRemote(target: string, path: string, content: Option<Bytes>)

  function Initial(now: int, files: Files, remote: RemoteFiles): State {
    State(now, map[], files, remote, map[], map[], map[], {}, map[], {}, map[], {}, {})
  }

  function AddInMemory(s: State, r: Record, data: Bytes): State {
    s.(origins := s.origins[r.artifactId := data], used := s.used + {r.artifactId},
       artifacts := s.artifacts[r.artifactId := r])
  }

  function AddTempFile(s: State, r: Record, path: string, data: Bytes): State {
    s.(origins := s.origins[r.artifactId := data], used := s.used + {r.artifactId},
       files := s.files[path := data], owner := s.owner[path := r.artifactId],
       pending := s.pending[r.artifactId := r])
  }

  function CreateStep(s: State, e: Event): State
    requires e.Create?
  {
    if UsesTempFile(e.meta, |e.data|, e.preferTempFile) then
      AddTempFile(s, NewRecord(e.id, e.meta, TempFile(e.path), |e.data|, s.now), e.path, e.data)
    else AddInMemory(s, NewRecord(e.id, e.meta, Memory(e.data), |e.data|, s.now), e.data)
  }

  function LinkStep(s: State, id: string, meta: Meta, backing: Backing, size: nat): State {
    s.(used := s.used + {id}, artifacts := s.artifacts[id := NewRecord(id, meta, backing, size, s.now)])
  }

  function BeginReadStep(s: State, e: Event): State
    requires e.BeginRead?
  {
    var (artifacts, r) := Get(s.artifacts, e.id, s.now);
    if r.Ok? then s.(reading := s.reading[e.call := r.value])
    else s.(artifacts := artifacts,
            evicted := if r.error.ArtifactExpired? then s.evicted + {e.id} else s.evicted,
            answers := s.answers[e.call := Answer(e.id, Err(r.error))])
  }

  function FinishReadStep(s: State, e: Event): State
    requires e.FinishRead? && e.call in s.reading
  {
    var r := s.reading[e.call];
    s.(reading := s.reading - {e.call},
       answers := s.answers[e.call := Answer(r.artifactId, ReadBacking(s.files, s.remote, r.backing))])
  }

  /** The record goes at once; a managed temp file goes later. */
  function RemoveStep(s: State, id: string): State {
    if id !in s.artifacts then s
    else
      s.(artifacts := s.artifacts - {id},
         removed := s.removed + {id},
         unlinking := if s.artifacts[id].backing.TempFile? then s.unlinking + {s.artifacts[id].backing.path}
                      else s.unlinking)
  }

  function Put<K, V>(m: map<K, V>, k: K, v: Option<V>): map<K, V> {
    if v.Some? then m[k := v.value] else m - {k}
  }

  function Apply(s: State, e: Event): State
    requires Enabled(s, e)
  {
    match e
    case Tick(ms) => s.(now := s.now + ms)
    case Create(_, _, _, _, _) => CreateStep(s, e)
    case Register(id) => s.(artifacts := s.artifacts[id := s.pending[id]], pending := s.pending - {id})
    case LinkLocal(id, meta, path, size) => LinkStep(s, id, meta, LocalFile(path), size)
    case LinkRemote(id, meta, target, path, size) => LinkStep(s, id, meta, ProxmoxFile(target, path), size)
    case BeginRead(_, _) => BeginReadStep(s, e)
    case FinishRead(_) => FinishReadStep(s, e)
    case Remove(id) => RemoveStep(s, id)
    case Unlink(path) => s.(unlinking := s.unlinking - {path}, files := s.files - {path})
    case OtherFile(path, content) => s.(files := Put(s.files, path, content))
    case OtherRemote(target, path, content) => s.(remote := Put(s.remote, (target, path), content))
  }

  /** Ids and temp directories are fresh, and other programs leave the private temp directories alone. */
  predicate Enabled(s: State, e: Event) {
    match e
    case Create(id, _, _, _, path) => id !in s.used && path !in s.owner && path !in s.files
    case Register(id) => id in s.pending
    case LinkLocal(id, _, _, _) => id !in s.used
    case LinkRemote(id, _, _, _, _) => id !in s.used
    case BeginRead(_, call) => call !in s.reading && call !in s.answers
    case FinishRead(call) => call in s.reading
    case Unlink(path) => path in s.unlinking
    case OtherFile(path, _) => path !in s.owner
    case _ => true
  }

  /** The state after the events, if they can all happen in turn. */
  function Run(s: State, es: seq<Event>): Option<State>
    decreases |es|
  {
    if es == [] then Some(s) else if !Enabled(s, es[0]) then None else Run(Apply(s, es[0]), es[1..])
  }

  // ---------------------------------------------------------- invariants

  /** The temp file of `id` is there with the bytes `id` was created with, and nobody is deleting it. */
  predicate Holds(s: State, path: string, id: string) {
    && path in s.owner && s.owner[path] == id && id in s.origins
    && path in s.files && s.files[path] == s.origins[id] && path !in s.unlinking
  }

  predicate RecordOk(s: State, id: string, r: Record) {
    && r.artifactId == id && r.uri == Uri(id) && id in s.used && id !in s.removed && id !in s.evicted
    && (r.backing.Memory? ==> id in s.origins && s.origins[id] == r.backing.data)
    && (r.backing.TempFile? ==> Holds(s, r.backing.path, id))
    && (id in s.origins ==> r.backing.Memory? || r.backing.TempFile?)
  }

  /** A started read goes by the record as it was; the file behind it may be gone by now. */
  predicate ReadingOk(s: State, r: Record) {
    && r.artifactId in s.used && r.artifactId !in s.pending
    && (r.artifactId in s.artifacts ==> s.artifacts[r.artifactId] == r)
    && (r.backing.Memory? ==> r.artifactId in s.origins && s.origins[r.artifactId] == r.backing.data)
    && (r.backing.TempFile? ==> r.backing.path in s.owner && s.owner[r.backing.path] == r.artifactId)
    && (r.artifactId in s.origins ==> r.backing.Memory? || r.backing.TempFile?)
  }

  predicate PathOk(s: State, path: string)
    requires path in s.owner
  {
    var id := s.owner[path];
    && id in s.used && id in s.origins
    && (path in s.files ==> s.files[path] == s.origins[id])
    && (path !in s.files || path in s.unlinking <==> id in s.removed)
    && (id in s.artifacts ==> s.artifacts[id].backing == TempFile(path))
    && (id in s.pending ==> s.pending[id].backing == TempFile(path))
  }

  predicate AnswerOk(s: State, a: Answer) {
    a.result.Ok? ==> a.id in s.used && (a.id in s.origins ==> a.result.value == s.origins[a.id])
  }

  predicate RecordsInv(s: State) {
    && (forall id :: id in s.artifacts ==> RecordOk(s, id, s.artifacts[id]) && id !in s.pending)
    && (forall id :: id in s.pending ==> RecordOk(s, id, s.pending[id]) && s.pending[id].backing.TempFile?)
  }

  predicate ReadsInv(s: State) {
    && (forall c :: c in s.reading ==> ReadingOk(s, s.reading[c]))
    && (forall c :: c in s.answers ==> AnswerOk(s, s.answers[c]))
  }

  predicate HistoryInv(s: State) {
    && (forall path :: path in s.owner ==> PathOk(s, path))
    && (forall path :: path in s.unlinking ==> path in s.owner)
    && s.removed <= s.used && s.evicted <= s.used && s.removed !! s.evicted
    && (forall id :: id in s.origins ==> id in s.used)
  }

  predicate Inv(s: State) {
    RecordsInv(s) && ReadsInv(s) && HistoryInv(s)
  }

  /** A record as it is when its id is new. */
  predicate IsFresh(s: State, r: Record) {
    r.uri == Uri(r.artifactId) && r.artifactId !in s.used
  }

  lemma InMemoryKeepsRecords(s: State, r: Record, data: Bytes)
    requires Inv(s) && IsFresh(s, r) && r.backing == Memory(data)
    ensures RecordsInv(AddInMemory(s, r, data))
  {
    hide ReadsInv;
  }

  lemma InMemoryKeepsReads(s: State, r: Record, data: Bytes)
    requires Inv(s) && IsFresh(s, r) && r.backing == Memory(data)
    ensures ReadsInv(AddInMemory(s, r, data))
  {
  }

  lemma InMemoryKeepsHistory(s: State, r: Record, data: Bytes)
    requires Inv(s) && IsFresh(s, r) && r.backing == Memory(data)
    ensures HistoryInv(AddInMemory(s, r, data))
  {
    hide ReadsInv;
  }

  lemma InMemoryKeeps(s: State, r: Record, data: Bytes)
    requires Inv(s) && IsFresh(s, r) && r.backing == Memory(data)
    ensures Inv(AddInMemory(s, r, data))
  {
    InMemoryKeepsRecords(s, r, data);
    InMemoryKeepsReads(s, r, data);
    InMemoryKeepsHistory(s, r, data);
    hide RecordsInv, ReadsInv, HistoryInv;
  }

  /** A new temp file disturbs no record that was there. */
  lemma TempFileKeepsOld(s: State, r: Record, path: string, data: Bytes, id: string, before: Record)
    requires IsFresh(s, r) && r.backing == TempFile(path) && path !in s.owner && path !in s.files
    requires RecordOk(s, id, before)
    ensures id != r.artifactId && RecordOk(AddTempFile(s, r, path, data), id, before)
  {
  }

  lemma TempFileKeepsRecords(s: State, r: Record, path: string, data: Bytes)
    requires Inv(s) && IsFresh(s, r) && r.backing == TempFile(path) && path !in s.owner && path !in s.files
    ensures RecordsInv(AddTempFile(s, r, path, data))
  {
    var t := AddTempFile(s, r, path, data);
    forall id | id in s.artifacts ensures id != r.artifactId && RecordOk(t, id, s.artifacts[id]) {
      TempFileKeepsOld(s, r, path, data, id, s.artifacts[id]);
    }
    forall id | id in s.pending ensures id != r.artifactId && RecordOk(t, id, s.pending[id]) {
      TempFileKeepsOld(s, r, path, data, id, s.pending[id]);
    }
    assert RecordOk(t, r.artifactId, r) by {
      assert r.artifactId !in s.removed && r.artifactId !in s.evicted && path !in s.unlinking;
    }
    hide RecordOk, ReadsInv, HistoryInv;
  }

  lemma TempFileKeepsReads(s: State, r: Record, path: string, data: Bytes)
    requires Inv(s) && IsFresh(s, r) && r.backing == TempFile(path) && path !in s.owner && path !in s.files
    ensures ReadsInv(AddTempFile(s, r, path, data))
  {
    hide RecordsInv;
  }

  lemma TempFileKeepsHistory(s: State, r: Record, path: string, data: Bytes)
    requires Inv(s) && IsFresh(s, r) && r.backing == TempFile(path) && path !in s.owner && path !in s.files
    ensures HistoryInv(AddTempFile(s, r, path, data))
  {
    assert r.artifactId !in s.artifacts && r.artifactId !in s.pending;
    hide RecordsInv, ReadsInv;
  }

  lemma CreateKeeps(s: State, e: Event)
    requires Inv(s) && Enabled(s, e) && e.Create?
    ensures Inv(CreateStep(s, e))
  {
    var size := |e.data|;
    NewRecordFields(e.id, e.meta, size, s.now);
    hide NewRecord, RecordsInv, ReadsInv, HistoryInv, AddTempFile, AddInMemory;
    if UsesTempFile(e.meta, size, e.preferTempFile) {
      var r := NewRecord(e.id, e.meta, TempFile(e.path), size, s.now);
      TempFileKeepsRecords(s, r, e.path, e.data);
      TempFileKeepsReads(s, r, e.path, e.data);
      TempFileKeepsHistory(s, r, e.path, e.data);
    } else {
      InMemoryKeeps(s, NewRecord(e.id, e.meta, Memory(e.data), size, s.now), e.data);
    }
  }

  lemma NewRecordFields(id: string, meta: Meta, size: nat, now: int)
    ensures forall b :: NewRecord(id, meta, b, size, now).backing == b
    ensures forall b :: NewRecord(id, meta, b, size, now).artifactId == id
    ensures forall b :: NewRecord(id, meta, b, size, now).uri == Uri(id)
  {
  }

  lemma RegisterKeeps(s: State, id: string)
    requires Inv(s) && id in s.pending
    ensures Inv(s.(artifacts := s.artifacts[id := s.pending[id]], pending := s.pending - {id}))
  {
  }

  lemma LinkKeepsRecords(s: State, id: string, meta: Meta, backing: Backing, size: nat)
    requires Inv(s) && id !in s.used && (backing.LocalFile? || backing.ProxmoxFile?)
    ensures RecordsInv(LinkStep(s, id, meta, backing, size))
  {
    NewRecordFields(id, meta, size, s.now);
    hide NewRecord;
    hide ReadsInv;
  }

  lemma LinkKeepsReads(s: State, id: string, meta: Meta, backing: Backing, size: nat)
    requires Inv(s) && id !in s.used && (backing.LocalFile? || backing.ProxmoxFile?)
    ensures ReadsInv(LinkStep(s, id, meta, backing, size))
  {
    NewRecordFields(id, meta, size, s.now);
    hide NewRecord;
  }

  lemma LinkKeepsHistory(s: State, id: string, meta: Meta, backing: Backing, size: nat)
    requires Inv(s) && id !in s.used && (backing.LocalFile? || backing.ProxmoxFile?)
    ensures HistoryInv(LinkStep(s, id, meta, backing, size))
  {
    NewRecordFields(id, meta, size, s.now);
    hide NewRecord;
    hide ReadsInv;
  }

  lemma LinkKeeps(s: State, id: string, meta: Meta, backing: Backing, size: nat)
    requires Inv(s) && id !in s.used && (backing.LocalFile? || backing.ProxmoxFile?)
    ensures Inv(LinkStep(s, id, meta, backing, size))
  {
    LinkKeepsRecords(s, id, meta, backing, size);
    LinkKeepsReads(s, id, meta, backing, size);
    LinkKeepsHistory(s, id, meta, backing, size);
    hide RecordsInv, ReadsInv, HistoryInv;
  }

  lemma EvictKeeps(s: State, id: string)
    requires Inv(s) && id in s.artifacts
    ensures Inv(s.(artifacts := s.artifacts - {id}, evicted := s.evicted + {id}))
  {
    assert RecordOk(s, id, s.artifacts[id]);
  }

  lemma AnswerKeeps(s: State, call: nat, a: Answer)
    requires Inv(s) && AnswerOk(s, a)
    ensures Inv(s.(answers := s.answers[call := a]))
  {
  }

  lemma CaptureKeeps(s: State, call: nat, id: string)
    requires Inv(s) && id in s.artifacts
    ensures Inv(s.(reading := s.reading[call := s.artifacts[id]]))
  {
    assert RecordOk(s, id, s.artifacts[id]);
  }

  lemma BeginReadKeeps(s: State, e: Event)
    requires Inv(s) && e.BeginRead?
    ensures Inv(BeginReadStep(s, e))
  {
    hide RecordsInv, ReadsInv, HistoryInv;
    if e.id !in s.artifacts {
      AnswerKeeps(s, e.call, Answer(e.id, Err(UnknownArtifact(e.id))));
    } else if IsExpired(s.artifacts[e.id], s.now) {
      EvictKeeps(s, e.id);
      AnswerKeeps(s.(artifacts := s.artifacts - {e.id}, evicted := s.evicted + {e.id}), e.call,
                  Answer(e.id, Err(ArtifactExpired(e.id))));
    } else {
      CaptureKeeps(s, e.call, e.id);
    }
  }

  lemma FinishReadKeeps(s: State, e: Event)
    requires Inv(s) && e.FinishRead? && e.call in s.reading
    ensures Inv(FinishReadStep(s, e))
  {
    var r := s.reading[e.call];
    var t := s.(reading := s.reading - {e.call});
    assert ReadingOk(s, r);
    assert Inv(t);
    hide RecordsInv, ReadsInv;
    AnswerKeeps(t, e.call, Answer(r.artifactId, ReadBacking(s.files, s.remote, r.backing)));
  }

  lemma RemoveKeepsRecords(s: State, id: string)
    requires Inv(s)
    ensures RecordsInv(RemoveStep(s, id))
  {
    if id in s.artifacts { assert RecordOk(s, id, s.artifacts[id]); }
    hide ReadsInv;
  }

  lemma RemoveKeepsReads(s: State, id: string)
    requires Inv(s)
    ensures ReadsInv(RemoveStep(s, id))
  {
    if id in s.artifacts { assert RecordOk(s, id, s.artifacts[id]); }
  }

  lemma RemoveKeepsHistory(s: State, id: string)
    requires Inv(s)
    ensures HistoryInv(RemoveStep(s, id))
  {
    if id in s.artifacts { assert RecordOk(s, id, s.artifacts[id]); }
    hide ReadsInv;
  }

  lemma RemoveKeeps(s: State, id: string)
    requires Inv(s)
    ensures Inv(RemoveStep(s, id))
  {
    RemoveKeepsRecords(s, id);
    RemoveKeepsReads(s, id);
    RemoveKeepsHistory(s, id);
    hide RecordsInv, ReadsInv, HistoryInv;
  }

  lemma UnlinkKeeps(s: State, path: string)
    requires Inv(s) && path in s.unlinking
    ensures Inv(s.(unlinking := s.unlinking - {path}, files := s.files - {path}))
  {
  }

  lemma OtherFileKeepsRecords(s: State, path: string, content: Option<Bytes>)
    requires Inv(s) && path !in s.owner
    ensures RecordsInv(s.(files := Put(s.files, path, content)))
  {
    hide ReadsInv;
  }

  lemma OtherFileKeepsReads(s: State, path: string, content: Option<Bytes>)
    requires Inv(s) && path !in s.owner
    ensures ReadsInv(s.(files := Put(s.files, path, content)))
  {
  }

  lemma OtherFileKeepsHistory(s: State, path: string, content: Option<Bytes>)
    requires Inv(s) && path !in s.owner
    ensures HistoryInv(s.(files := Put(s.files, path, content)))
  {
    hide ReadsInv;
  }

  lemma OtherFileKeeps(s: State, path: string, content: Option<Bytes>)
    requires Inv(s) && path !in s.owner
    ensures Inv(s.(files := Put(s.files, path, content)))
  {
    OtherFileKeepsRecords(s, path, content);
    OtherFileKeepsReads(s, path, content);
    OtherFileKeepsHistory(s, path, content);
    hide RecordsInv, ReadsInv, HistoryInv;
  }

  lemma TickKeeps(s: State, now: int)
    requires Inv(s)
    ensures Inv(s.(now := now))
  {
  }

  lemma OtherRemoteKeeps(s: State, remote: RemoteFiles)
    requires Inv(s)
    ensures Inv(s.(remote := remote))
  {
  }

  lemma StepKeepsInv(s: State, e: Event)
    requires Inv(s) && Enabled(s, e)
    ensures Inv(Apply(s, e))
  {
    hide Inv, CreateStep, BeginReadStep, FinishReadStep, RemoveStep, LinkStep, Put;
    match e
    case Tick(ms) => TickKeeps(s, s.now + ms);
    case Create(_, _, _, _, _) => CreateKeeps(s, e);
    case Register(id) => RegisterKeeps(s, id);
    case LinkLocal(id, meta, path, size) => LinkKeeps(s, id, meta, LocalFile(path), size);
    case LinkRemote(id, meta, target, path, size) => LinkKeeps(s, id, meta, ProxmoxFile(target, path), size);
    case BeginRead(_, _) => BeginReadKeeps(s, e);
    case FinishRead(_) => FinishReadKeeps(s, e);
    case Remove(id) => RemoveKeeps(s, id);
    case Unlink(path) => UnlinkKeeps(s, path);
    case OtherFile(path, content) => OtherFileKeeps(s, path, content);
    case OtherRemote(target, path, content) => OtherRemoteKeeps(s, Put(s.remote, (target, path), content));
  }

  /** Every run, from an empty store on any file system, keeps the invariant. */
  lemma {:induction false} RunKeepsInv(s: State, es: seq<Event>)
    requires Inv(s) && Run(s, es).Some?
    ensures Inv(Run(s, es).value)
    decreases |es|
  {
    if es != [] {
      StepKeepsInv(s, es[0]);
      RunKeepsInv(Apply(s, es[0]), es[1..]);
    }
  }

  lemma InitialInv(now: int, files: Files, remote: RemoteFiles)
    ensures Inv(Initial(now, files, remote))
  {
  }

  // ------------------------------------------------------------ theorems

  /** What is remembered is never forgotten or changed, and time does not run backwards. */
  predicate Grows(s: State, t: State) {
    && s.now <= t.now && s.used <= t.used && s.evicted <= t.evicted && s.removed <= t.removed
    && (forall path :: path in s.owner ==> path in t.owner && t.owner[path] == s.owner[path])
    && (forall path :: path in s.owner && path !in s.files ==> path !in t.files)
    && (forall id :: id in s.used ==> (id in s.origins <==> id in t.origins))
    && (forall id :: id in s.used && id in s.origins ==> t.origins[id] == s.origins[id])
  }

  lemma StepGrows(s: State, e: Event)
    requires Enabled(s, e)
    ensures Grows(s, Apply(s, e))
  {
    if e.BeginRead? {
      BeginReadGrows(s, e);
      hide Grows, BeginReadStep;
    } else if e.Create? {
      CreateGrows(s, e);
      hide Grows, CreateStep;
    } else {
      hide NewRecord, ReadBacking, Put, BeginReadStep, CreateStep;
    }
  }

  lemma AddTempFileGrows(s: State, r: Record, path: string, data: Bytes)
    requires r.artifactId !in s.used && path !in s.owner
    ensures Grows(s, AddTempFile(s, r, path, data))
  {
  }

  lemma AddInMemoryGrows(s: State, r: Record, data: Bytes)
    requires r.artifactId !in s.used
    ensures Grows(s, AddInMemory(s, r, data))
  {
  }

  lemma CreateGrows(s: State, e: Event)
    requires Enabled(s, e) && e.Create?
    ensures Grows(s, CreateStep(s, e))
  {
    NewRecordFields(e.id, e.meta, |e.data|, s.now);
    hide Grows, AddTempFile, AddInMemory, NewRecord;
    if UsesTempFile(e.meta, |e.data|, e.preferTempFile) {
      AddTempFileGrows(s, NewRecord(e.id, e.meta, TempFile(e.path), |e.data|, s.now), e.path, e.data);
    } else {
      AddInMemoryGrows(s, NewRecord(e.id, e.meta, Memory(e.data), |e.data|, s.now), e.data);
    }
  }

  lemma BeginReadGrows(s: State, e: Event)
    requires e.BeginRead?
    ensures Grows(s, BeginReadStep(s, e))
  {
    hide Grows, IsExpired;
    if e.id !in s.artifacts {
      FilesUntouched(s, s.(answers := s.answers[e.call := Answer(e.id, Err(UnknownArtifact(e.id)))]));
    } else if IsExpired(s.artifacts[e.id], s.now) {
      FilesUntouched(s, s.(artifacts := s.artifacts - {e.id}, evicted := s.evicted + {e.id},
                           answers := s.answers[e.call := Answer(e.id, Err(ArtifactExpired(e.id)))]));
    } else {
      FilesUntouched(s, s.(reading := s.reading[e.call := s.artifacts[e.id]]));
    }
  }

  lemma FilesUntouched(s: State, t: State)
    requires t.now == s.now && t.used == s.used && t.removed == s.removed && s.evicted <= t.evicted
    requires t.owner == s.owner && t.files == s.files && t.origins == s.origins
    ensures Grows(s, t)
  {
  }

  lemma {:induction false} RunGrows(s: State, more: seq<Event>)
    requires Run(s, more).Some?
    ensures Grows(s, Run(s, more).value)
    decreases |more|
  {
    if more != [] {
      StepGrows(s, more[0]);
      hide Apply, Enabled;
      RunGrows(Apply(s, more[0]), more[1..]);
    }
  }

  /** A read that starts and finishes with nothing in between. */
  function ReadNow(s: State, id: string, call: nat): Result<Bytes, Error> {
    var begun := BeginReadStep(s, BeginRead(id, call));
    if call in begun.reading then FinishReadStep(begun, FinishRead(call)).answers[call].result
    else begun.answers[call].result
  }

  /**
   What call `call` has read or can read under this id is the data or fails, and does not fail while the id
   is registered and, for a read that has yet to begin, unexpired.
   */
  predicate ReadsOnlyAs(t: State, id: string, data: Bytes, call: nat) {
    && (call in t.answers && t.answers[call].id == id && t.answers[call].result.Ok?
        ==> t.answers[call].result.value == data)
    && (Enabled(t, BeginRead(id, call)) && id in t.artifacts && !IsExpired(t.artifacts[id], t.now)
        ==> ReadNow(t, id, call) == Ok(data))
    && (call in t.reading && t.reading[call].artifactId == id && id in t.artifacts
        ==> FinishReadStep(t, FinishRead(call)).answers[call] == Answer(id, Ok(data)))
  }

  /**
   However creation, reads, removals, expiry and other programs interleave: no read of an artifact ever
   returns anything but the bytes it was created with; while it is registered and has not expired a read
   does return them, whatever the backing; and so does a read under way as long as it stays registered.
   */
  lemma CreatedBytesReadBack(s: State, e: Event, more: seq<Event>, call: nat)
    requires Inv(s) && Enabled(s, e) && e.Create? && Run(Apply(s, e), more).Some?
    ensures ReadsOnlyAs(Run(Apply(s, e), more).value, e.id, e.data, call)
  {
    var t := Run(Apply(s, e), more).value;
    StepKeepsInv(s, e);
    RunKeepsInv(Apply(s, e), more);
    RunGrows(Apply(s, e), more);
    CreateOrigin(s, e);
    hide Apply, Run, Enabled;
    if e.id in t.artifacts {
      LiveReads(t, e.id, call);
    }
    if call in t.answers { AnswersOk(t, call); }
  }

  lemma CreateOrigin(s: State, e: Event)
    requires Enabled(s, e) && e.Create?
    ensures e.id in Apply(s, e).used && e.id in Apply(s, e).origins && Apply(s, e).origins[e.id] == e.data
  {
    assert Apply(s, e) == CreateStep(s, e);
    NewRecordFields(e.id, e.meta, |e.data|, s.now);
    hide Apply, Enabled, NewRecord, UsesTempFile;
  }

  lemma AnswersOk(t: State, call: nat)
    requires Inv(t) && call in t.answers
    ensures AnswerOk(t, t.answers[call])
  {
  }

  lemma LiveReads(t: State, id: string, call: nat)
    requires Inv(t) && id in t.artifacts && id in t.origins
    ensures call !in t.reading && call !in t.answers && !IsExpired(t.artifacts[id], t.now)
            ==> ReadNow(t, id, call) == Ok(t.origins[id])
    ensures call in t.reading && t.reading[call].artifactId == id
            ==> FinishReadStep(t, FinishRead(call)).answers[call] == Answer(id, Ok(t.origins[id]))
  {
    assert RecordOk(t, id, t.artifacts[id]);
    assert ReadBacking(t.files, t.remote, t.artifacts[id].backing) == Ok(t.origins[id]);
    if call in t.reading { assert ReadingOk(t, t.reading[call]); }
    hide RecordOk, Holds, ReadBacking, Inv;
  }

  /** Nothing can be read under this id any more. */
  predicate Dead(s: State, id: string) {
    id in s.used && id !in s.pending && (id in s.artifacts ==> IsExpired(s.artifacts[id], s.now))
  }

  predicate Concerns(e: Event, id: string) {
    (e.Create? || e.Register? || e.LinkLocal? || e.LinkRemote? || e.BeginRead? || e.Remove?) && e.id == id
  }

  /** An event leaves the registration of every id that it does not name alone. */
  predicate SameFor(s: State, t: State, id: string) {
    && (id in t.artifacts <==> id in s.artifacts) && (id in s.artifacts ==> t.artifacts[id] == s.artifacts[id])
    && (id in t.pending <==> id in s.pending) && (id in s.pending ==> t.pending[id] == s.pending[id])
  }

  lemma CreateFrame(s: State, e: Event, id: string)
    requires e.Create? && e.id != id
    ensures SameFor(s, CreateStep(s, e), id)
  {
    NewRecordFields(e.id, e.meta, |e.data|, s.now);
    hide NewRecord, UsesTempFile;
  }

  lemma BeginReadFrame(s: State, e: Event, id: string)
    requires e.BeginRead? && e.id != id
    ensures SameFor(s, BeginReadStep(s, e), id)
  {
  }

  lemma StepFrame(s: State, e: Event, id: string)
    requires Enabled(s, e) && !Concerns(e, id)
    ensures SameFor(s, Apply(s, e), id)
  {
    if e.Create? { CreateFrame(s, e, id); }
    if e.BeginRead? { BeginReadFrame(s, e, id); }
    hide NewRecord, ReadBacking, Put, BeginReadStep, CreateStep, IsExpired;
  }

  lemma StepStaysDead(s: State, e: Event, id: string)
    requires Enabled(s, e) && Dead(s, id)
    ensures Dead(Apply(s, e), id)
  {
    StepGrows(s, e);
    if Concerns(e, id) {
      assert e.BeginRead? || e.Remove?;
      hide NewRecord, CreateStep, LinkStep, FinishReadStep, Put;
    } else {
      StepFrame(s, e, id);
      hide Apply, Enabled;
    }
  }

  /** A removed id, and an expired one whether or not a read has noticed, fails every read ever after. */
  lemma {:induction false} DeadForever(s: State, more: seq<Event>, id: string, call: nat)
    requires Run(s, more).Some? && Dead(s, id)
    ensures var t := Run(s, more).value;
            Dead(t, id) && (Enabled(t, BeginRead(id, call)) ==> ReadNow(t, id, call).Err?)
    decreases |more|
  {
    if more != [] {
      StepStaysDead(s, more[0], id);
      hide Apply, ReadNow, Dead;
      DeadForever(Apply(s, more[0]), more[1..], id, call);
    }
  }

  /** While it is registered, a created artifact reads back until it expires. */
  lemma ReadsUnlessExpired(s: State, id: string, call: nat)
    requires Inv(s) && id in s.artifacts && id in s.origins && Enabled(s, BeginRead(id, call))
    ensures ReadNow(s, id, call) == Ok(s.origins[id]) <==> !IsExpired(s.artifacts[id], s.now)
  {
    LiveReads(s, id, call);
    hide Inv;
  }

  /** What happens to other ids, and to files outside the store, does not change what a created id reads as. */
  lemma OthersUnaffected(s: State, e: Event, id: string)
    requires Inv(s) && Enabled(s, e) && id in s.artifacts && id in s.origins && !Concerns(e, id)
    ensures var t := Apply(s, e);
            && id in t.artifacts && t.artifacts[id] == s.artifacts[id]
            && ReadBacking(t.files, t.remote, t.artifacts[id].backing) == Ok(s.origins[id])
  {
    StepKeepsInv(s, e);
    StepGrows(s, e);
    StepFrame(s, e, id);
    var t := Apply(s, e);
    assert RecordOk(s, id, s.artifacts[id]);
    hide Apply, Inv;
    StillReads(t, id);
  }

  lemma StillReads(t: State, id: string)
    requires Inv(t) && id in t.artifacts && id in t.origins
    ensures ReadBacking(t.files, t.remote, t.artifacts[id].backing) == Ok(t.origins[id])
  {
    assert RecordOk(t, id, t.artifacts[id]);
  }

  /**
   A temp file is deleted, or about to be, exactly when its artifact was removed while registered, and once
   deleted it stays deleted. So dropping an expired record leaves its temp file behind for good, with the
   bytes it was created with.
   */
  lemma TempFileGoesIffRemoved(s: State, more: seq<Event>, path: string)
    requires Inv(s) && Run(s, more).Some? && path in s.owner
    ensures var t := Run(s, more).value;
            && path in t.owner && t.owner[path] == s.owner[path]
            && (path in t.unlinking || path !in t.files <==> s.owner[path] in t.removed)
            && (path !in s.files ==> path !in t.files)
            && (s.owner[path] in s.removed ==> s.owner[path] in t.removed)
            && (s.owner[path] in s.evicted ==> Holds(t, path, s.owner[path]))
  {
    RunKeepsInv(s, more);
    RunGrows(s, more);
    var t := Run(s, more).value;
    hide Run, RecordsInv, ReadsInv;
    assert PathOk(t, path);
  }

  /** After a removal the pending deletion can happen, and then the temp file is gone. */
  lemma RemovalDeletes(s: State, id: string)
    requires Inv(s) && id in s.artifacts && s.artifacts[id].backing.TempFile?
    ensures var path := s.artifacts[id].backing.path;
            && path in s.owner && s.owner[path] == id
            && Run(s, [Remove(id), Unlink(path)]).Some?
            && path !in Run(s, [Remove(id), Unlink(path)]).value.files
  {
    assert RecordOk(s, id, s.artifacts[id]);
    var path := s.artifacts[id].backing.path;
    var t := RemoveStep(s, id);
    RunTwo(s, Remove(id), Unlink(path));
    assert Apply(s, Remove(id)) == t && Enabled(t, Unlink(path));
    hide Run, RecordOk, Inv;
  }

  lemma RunOne(s: State, e: Event)
    requires Enabled(s, e)
    ensures Run(s, [e]) == Some(Apply(s, e))
  {
    assert [e][1..] == [];
    hide Apply, Enabled;
  }

  lemma RunTwo(s: State, e: Event, f: Event)
    requires Enabled(s, e) && Enabled(Apply(s, e), f)
    ensures Run(s, [e, f]) == Some(Apply(Apply(s, e), f))
  {
    assert [e, f][1..] == [f];
    RunOne(Apply(s, e), f);
    hide Apply, Enabled;
  }

  // ---------------------------------------------- calls as runs of events

  /** The part of a state that the manager and the file system hold at the time of a call. */
  predicate Mirrors(s: State, artifacts: Registry, files: Files, now: int) {
    s.artifacts == artifacts && s.files == files && s.now == now
  }

  /** A call with nothing in between: it does what these events do, wherever the first of them can happen. */
  ghost predicate Follows(before: Registry, filesBefore: Files, after: Registry, filesAfter: Files, now: int, es: seq<Event>) {
    es != [] && forall s :: Mirrors(s, before, filesBefore, now) && Inv(s) && Enabled(s, es[0]) ==> Ends(s, es, after, filesAfter, now)
  }

  predicate Ends(s: State, es: seq<Event>, artifacts: Registry, files: Files, now: int) {
    Run(s, es).Some? && Inv(Run(s, es).value) && Mirrors(Run(s, es).value, artifacts, files, now)
  }

  function CreateEvents(e: Event): seq<Event>
    requires e.Create?
  {
    if UsesTempFile(e.meta, |e.data|, e.preferTempFile) then [e, Register(e.id)] else [e]
  }

  function Created(e: Event, now: int): Record
    requires e.Create?
  {
    NewRecord(e.id, e.meta, if UsesTempFile(e.meta, |e.data|, e.preferTempFile) then TempFile(e.path) else Memory(e.data),
              |e.data|, now)
  }

  lemma CreateEnds(s: State, e: Event)
    requires Inv(s) && Enabled(s, e) && e.Create?
    ensures Ends(s, CreateEvents(e), s.artifacts[e.id := Created(e, s.now)],
                 if UsesTempFile(e.meta, |e.data|, e.preferTempFile) then s.files[e.path := e.data] else s.files, s.now)
  {
    NewRecordFields(e.id, e.meta, |e.data|, s.now);
    assert Apply(s, e) == CreateStep(s, e);
    if UsesTempFile(e.meta, |e.data|, e.preferTempFile) {
      var t := CreateStep(s, e);
      assert Enabled(t, Register(e.id)) && Apply(t, Register(e.id)).artifacts == s.artifacts[e.id := Created(e, s.now)];
      assert Apply(t, Register(e.id)).files == t.files && Apply(t, Register(e.id)).now == t.now;
      RunTwo(s, e, Register(e.id));
    } else {
      RunOne(s, e);
    }
    RunKeepsInv(s, CreateEvents(e));
    hide NewRecord, UsesTempFile, Run, Inv, Apply, Enabled;
  }

  lemma CreateFollows(before: Registry, files: Files, e: Event, now: int)
    requires e.Create?
    ensures Follows(before, files, before[e.id := Created(e, now)],
                    if UsesTempFile(e.meta, |e.data|, e.preferTempFile) then files[e.path := e.data] else files, now,
                    CreateEvents(e))
  {
    hide Enabled, Inv, Created, Ends;
    forall s | Mirrors(s, before, files, now) && Inv(s) && Enabled(s, e)
      ensures Ends(s, CreateEvents(e), before[e.id := Created(e, now)],
                   if UsesTempFile(e.meta, |e.data|, e.preferTempFile) then files[e.path := e.data] else files, now)
    {
      CreateEnds(s, e);
    }
  }

  lemma LinkFollows(before: Registry, files: Files, e: Event, now: int)
    requires e.LinkLocal? || e.LinkRemote?
    ensures var backing := if e.LinkLocal? then LocalFile(e.path) else ProxmoxFile(e.target, e.path);
            Follows(before, files, before[e.id := NewRecord(e.id, e.meta, backing, e.size, now)], files, now, [e])
  {
    hide NewRecord, Inv;
    forall s | Mirrors(s, before, files, now) && Inv(s) && Enabled(s, e)
      ensures Run(s, [e]) == Some(Apply(s, e)) && Inv(Apply(s, e))
    {
      RunOne(s, e);
      StepKeepsInv(s, e);
    }
    hide Run;
  }

  function RemoveEvents(artifacts: Registry, id: string): seq<Event> {
    if id in artifacts && artifacts[id].backing.TempFile? then [Remove(id), Unlink(artifacts[id].backing.path)]
    else [Remove(id)]
  }

  function FilesAfterRemoval(artifacts: Registry, files: Files, id: string): Files {
    if id in artifacts && artifacts[id].backing.TempFile? then files - {artifacts[id].backing.path} else files
  }

  lemma RemoveRuns(s: State, id: string)
    requires Inv(s) && id in s.artifacts && s.artifacts[id].backing.TempFile?
    ensures var path := s.artifacts[id].backing.path;
            Run(s, [Remove(id), Unlink(path)])
            == Some(RemoveStep(s, id).(unlinking := s.unlinking + {path} - {path}, files := s.files - {path}))
  {
    var path := s.artifacts[id].backing.path;
    assert Apply(s, Remove(id)) == RemoveStep(s, id) && Enabled(RemoveStep(s, id), Unlink(path));
    RunTwo(s, Remove(id), Unlink(path));
    hide Run, Inv;
  }

  lemma RemoveEnds(s: State, id: string)
    requires Inv(s)
    ensures Ends(s, RemoveEvents(s.artifacts, id), s.artifacts - {id}, FilesAfterRemoval(s.artifacts, s.files, id), s.now)
  {
    if id in s.artifacts && s.artifacts[id].backing.TempFile? {
      RemoveRuns(s, id);
    } else {
      RunOne(s, Remove(id));
      assert Apply(s, Remove(id)) == RemoveStep(s, id);
      assert id !in s.artifacts ==> s.artifacts - {id} == s.artifacts;
    }
    RunKeepsInv(s, RemoveEvents(s.artifacts, id));
    hide Run, Inv, Apply, Enabled;
  }

  lemma RemoveFollows(before: Registry, files: Files, id: string, now: int)
    ensures Follows(before, files, before - {id}, FilesAfterRemoval(before, files, id), now, RemoveEvents(before, id))
  {
    hide Inv, Ends;
    forall s | Mirrors(s, before, files, now) && Inv(s)
      ensures Ends(s, RemoveEvents(before, id), before - {id}, FilesAfterRemoval(before, files, id), now)
    {
      RemoveEnds(s, id);
    }
  }

  function ReadEvents(artifacts: Registry, id: string, now: int, call: nat): seq<Event> {
    if id in artifacts && !IsExpired(artifacts[id], now) then [BeginRead(id, call), FinishRead(call)] else [BeginRead(id, call)]
  }

  function ReadResult(artifacts: Registry, files: Files, remote: RemoteFiles, id: string, now: int): Result<Bytes, Error> {
    var (after, found) := Get(artifacts, id, now);
    if found.Ok? then ReadBacking(files, remote, found.value.backing) else Err(found.error)
  }

  /** A read does what its events do, and returns what they answer. */
  ghost predicate ReadFollows(before: Registry, after: Registry, files: Files, remote: RemoteFiles, now: int, id: string,
                              r: Result<Bytes, Error>)
  {
    forall s, call ::
      Mirrors(s, before, files, now) && s.remote == remote && Inv(s) && Enabled(s, BeginRead(id, call))
      ==> ReadEnds(s, id, call, after, r)
  }

  predicate ReadEnds(s: State, id: string, call: nat, after: Registry, r: Result<Bytes, Error>) {
    var es := ReadEvents(s.artifacts, id, s.now, call);
    Ends(s, es, after, s.files, s.now) && call in Run(s, es).value.answers && Run(s, es).value.answers[call] == Answer(id, r)
  }

  lemma LiveReadEnds(s: State, id: string, call: nat)
    requires Inv(s) && Enabled(s, BeginRead(id, call)) && id in s.artifacts && !IsExpired(s.artifacts[id], s.now)
    ensures ReadEnds(s, id, call, s.artifacts, ReadBacking(s.files, s.remote, s.artifacts[id].backing))
  {
    assert RecordOk(s, id, s.artifacts[id]);
    var begun := s.(reading := s.reading[call := s.artifacts[id]]);
    assert Apply(s, BeginRead(id, call)) == begun;
    RunTwo(s, BeginRead(id, call), FinishRead(call));
    RunKeepsInv(s, ReadEvents(s.artifacts, id, s.now, call));
    assert Apply(begun, FinishRead(call)) == FinishReadStep(begun, FinishRead(call));
    hide Run, Inv, RecordOk, ReadBacking, Apply, Enabled;
  }

  lemma DeadReadEnds(s: State, id: string, call: nat)
    requires Inv(s) && Enabled(s, BeginRead(id, call)) && (id in s.artifacts ==> IsExpired(s.artifacts[id], s.now))
    ensures ReadEnds(s, id, call, s.artifacts - {id}, Err(if id in s.artifacts then ArtifactExpired(id) else UnknownArtifact(id)))
  {
    RunOne(s, BeginRead(id, call));
    RunKeepsInv(s, ReadEvents(s.artifacts, id, s.now, call));
    assert Apply(s, BeginRead(id, call)) == BeginReadStep(s, BeginRead(id, call));
    assert id !in s.artifacts ==> s.artifacts - {id} == s.artifacts;
    hide Run, Inv, Apply, Enabled;
  }

  lemma ReadEndsSo(s: State, id: string, call: nat)
    requires Inv(s) && Enabled(s, BeginRead(id, call))
    ensures ReadEnds(s, id, call, Get(s.artifacts, id, s.now).0, ReadResult(s.artifacts, s.files, s.remote, id, s.now))
  {
    hide ReadEnds, Inv, Enabled, ReadBacking;
    if id in s.artifacts && !IsExpired(s.artifacts[id], s.now) {
      LiveReadEnds(s, id, call);
    } else {
      DeadReadEnds(s, id, call);
      assert id !in s.artifacts ==> s.artifacts - {id} == s.artifacts;
    }
  }

  lemma ReadFollowsSo(before: Registry, files: Files, remote: RemoteFiles, now: int, id: string)
    ensures ReadFollows(before, Get(before, id, now).0, files, remote, now, id, ReadResult(before, files, remote, id, now))
  {
    hide Inv, ReadEnds, ReadResult, Get, Enabled;
    forall s, call | Mirrors(s, before, files, now) && s.remote == remote && Inv(s) && Enabled(s, BeginRead(id, call))
      ensures ReadEnds(s, id, call, Get(before, id, now).0, ReadResult(before, files, remote, id, now))
    {
      ReadEndsSo(s, id, call);
    }
  }

  /** A look-up alone does what the first half of a read does. */
  lemma FindFollows(before: Registry, files: Files, id: string, now: int, call: nat)
    ensures Follows(before, files, Get(before, id, now).0, files, now, [BeginRead(id, call)])
  {
    hide Inv, Enabled;
    forall s | Mirrors(s, before, files, now) && Inv(s) && Enabled(s, BeginRead(id, call))
      ensures Ends(s, [BeginRead(id, call)], Get(before, id, now).0, files, now)
    {
      RunOne(s, BeginRead(id, call));
      StepKeepsInv(s, BeginRead(id, call));
      assert Apply(s, BeginRead(id, call)) == BeginReadStep(s, BeginRead(id, call));
    }
    hide Run, Apply;
  }

  lemma {:induction false} RunConcat(s: State, a: seq<Event>, b: seq<Event>)
    ensures Run(s, a + b) == if Run(s, a).None? then None else Run(Run(s, a).value, b)
    decreases |a|
  {
    if a == [] {
      assert a + b == b;
    } else {
      assert (a + b)[0] == a[0] && (a + b)[1..] == a[1..] + b;
      if Enabled(s, a[0]) {
        hide Apply, Enabled;
        RunConcat(Apply(s, a[0]), a[1..], b);
      }
    }
  }

  /** What was published by a call is read back for as long as it lives, whatever happens after the call. */
  lemma PublishedBytesReadBack(s: State, e: Event, more: seq<Event>, call: nat)
    requires Inv(s) && e.Create? && Enabled(s, e) && Run(s, CreateEvents(e) + more).Some?
    ensures ReadsOnlyAs(Run(s, CreateEvents(e) + more).value, e.id, e.data, call)
  {
    var rest := CreateEvents(e)[1..] + more;
    assert CreateEvents(e) + more == [e] + rest;
    RunConcat(s, [e], rest);
    RunOne(s, e);
    hide Apply, Enabled, Run, ReadsOnlyAs, CreateEvents;
    CreatedBytesReadBack(s, e, rest, call);
  }

  // ------------------------------------------------- whole runs

  /** The record under this id, registered or about to be, is `r`. */
  predicate FiledAs(s: State, id: string, r: Record) {
    id in s.used && (id in s.artifacts ==> s.artifacts[id] == r) && (id in s.pending ==> s.pending[id] == r)
  }

  lemma CreateFiles(s: State, e: Event)
    requires Inv(s) && Enabled(s, e) && e.Create?
    ensures FiledAs(Apply(s, e), e.id, Created(e, s.now))
  {
    assert e.id !in s.artifacts && e.id !in s.pending;
    NewRecordFields(e.id, e.meta, |e.data|, s.now);
    hide NewRecord, Inv;
  }

  lemma OwnStepKeepsFiled(s: State, e: Event, r: Record)
    requires (e.Register? || e.BeginRead? || e.Remove?) && Enabled(s, e) && FiledAs(s, e.id, r)
    ensures FiledAs(Apply(s, e), e.id, r)
  {
    if e.BeginRead? {
      assert Apply(s, e) == BeginReadStep(s, e);
      hide Apply, Enabled, IsExpired;
    } else if e.Remove? {
      assert Apply(s, e) == RemoveStep(s, e.id);
      hide Apply, Enabled;
    }
  }

  lemma UsedStaysUsed(s: State, e: Event)
    requires Enabled(s, e)
    ensures s.used <= Apply(s, e).used
    ensures e.Create? || e.LinkLocal? || e.LinkRemote? ==> e.id !in s.used
  {
    StepGrows(s, e);
    hide Apply;
  }

  lemma SameForFiled(s: State, t: State, id: string, r: Record)
    requires FiledAs(s, id, r) && SameFor(s, t, id) && s.used <= t.used
    ensures FiledAs(t, id, r)
  {
  }

  lemma StepKeepsFiled(s: State, e: Event, id: string, r: Record)
    requires Enabled(s, e) && FiledAs(s, id, r)
    ensures FiledAs(Apply(s, e), id, r)
  {
    UsedStaysUsed(s, e);
    if Concerns(e, id) {
      assert !e.Create? && !e.LinkLocal? && !e.LinkRemote?;
      hide Apply, Enabled, FiledAs;
      OwnStepKeepsFiled(s, e, r);
    } else {
      StepFrame(s, e, id);
      hide Apply, Enabled, FiledAs, SameFor;
      SameForFiled(s, Apply(s, e), id, r);
    }
  }

  lemma {:induction false} RunKeepsFiled(s: State, es: seq<Event>, id: string, r: Record)
    requires Run(s, es).Some? && FiledAs(s, id, r)
    ensures FiledAs(Run(s, es).value, id, r)
    decreases |es|
  {
    if es != [] {
      StepKeepsFiled(s, es[0], id, r);
      hide Apply, Enabled, FiledAs;
      RunKeepsFiled(Apply(s, es[0]), es[1..], id, r);
    }
  }

  /** What a link reads as: whatever is in the file it names at the time of the read. */
  function LinkedContent(t: State, e: Event): Result<Bytes, Error>
    requires e.LinkLocal? || e.LinkRemote?
  {
    if e.LinkLocal? then if e.path in t.files then Ok(t.files[e.path]) else Err(ReadFailed)
    else if (e.target, e.path) in t.remote then Ok(t.remote[(e.target, e.path)]) else Err(ReadFailed)
  }

  function Linked(e: Event, now: int): Record
    requires e.LinkLocal? || e.LinkRemote?
  {
    NewRecord(e.id, e.meta, if e.LinkLocal? then LocalFile(e.path) else ProxmoxFile(e.target, e.path), e.size, now)
  }

  lemma LinkFiles(s: State, e: Event)
    requires Inv(s) && Enabled(s, e) && (e.LinkLocal? || e.LinkRemote?)
    ensures FiledAs(Apply(s, e), e.id, Linked(e, s.now))
  {
    assert e.id !in s.pending;
    hide NewRecord, Inv;
  }

  /**
   A linked file is not copied: while the link is registered and its lifetime has not passed, a read gives
   what the named file holds at that moment, on this machine or on the target, or fails if there is none.
   */
  lemma LinksReadThrough(s: State, e: Event, more: seq<Event>, call: nat)
    requires Inv(s) && Enabled(s, e) && (e.LinkLocal? || e.LinkRemote?) && Run(Apply(s, e), more).Some?
    ensures var t := Run(Apply(s, e), more).value;
            e.id in t.artifacts && Enabled(t, BeginRead(e.id, call)) && !Outlived(e.meta, t.now - s.now)
            ==> ReadNow(t, e.id, call) == LinkedContent(t, e)
  {
    LinkFiles(s, e);
    RunKeepsFiled(Apply(s, e), more, e.id, Linked(e, s.now));
    var t := Run(Apply(s, e), more).value;
    LifetimeMeaning(e.id, e.meta, Linked(e, s.now).backing, e.size, s.now, t.now);
    NewRecordFields(e.id, e.meta, e.size, s.now);
    hide Run, Apply, Inv, IsExpired, Outlived, NewRecord;
  }

  predicate HexDigits(uuid: string) {
    forall i :: 0 <= i < |uuid| ==> uuid[i] == '-' || '0' <= uuid[i] <= '9' || 'a' <= uuid[i] <= 'f'
  }

  /** A lifetime of zero never ends; any other, an hour unless given, is over once that time has passed. */
  predicate Outlived(meta: Meta, elapsed: int) {
    match meta.expiresInMs
    case None => elapsed >= 3_600_000
    case Some(ms) => ms != 0 && elapsed >= ms
  }

  /**
   From an empty store on any file system, whatever else happens before and after: an artifact with a made
   id is found by its own URI, never reads as other bytes than it was created with, and as long as it is
   registered a read returns them if and only if its lifetime has not passed since its creation.
   */
  lemma ArtifactLivesItsLifetime(now: int, files: Files, remote: RemoteFiles, earlier: seq<Event>, e: Event,
                                 more: seq<Event>, uuid: string, call: nat)
    requires e.Create? && e.id == "artifact_" + uuid && HexDigits(uuid)
    requires Run(Initial(now, files, remote), earlier).Some?
    requires var s := Run(Initial(now, files, remote), earlier).value; Enabled(s, e) && Run(Apply(s, e), more).Some?
    ensures var s := Run(Initial(now, files, remote), earlier).value;
            var t := Run(Apply(s, e), more).value;
            && ReadsOnlyAs(t, e.id, e.data, call)
            && (e.id in t.artifacts && Enabled(t, BeginRead(e.id, call)) ==>
                  && Resolve(Reference(None, Some(t.artifacts[e.id].uri))) == Ok(e.id)
                  && (ReadNow(t, e.id, call) == Ok(e.data) <==> !Outlived(e.meta, t.now - s.now)))
  {
    hide *;
    InitialInv(now, files, remote);
    RunKeepsInv(Initial(now, files, remote), earlier);
    var s := Run(Initial(now, files, remote), earlier).value;
    CreatedBytesReadBack(s, e, more, call);
    CreatedStaysFiled(s, e, more);
    var t := Run(Apply(s, e), more).value;
    if e.id in t.artifacts && Enabled(t, BeginRead(e.id, call)) {
      FiledReads(t, e, s.now, uuid, call);
    }
  }

  lemma CreatedStaysFiled(s: State, e: Event, more: seq<Event>)
    requires Inv(s) && Enabled(s, e) && e.Create? && Run(Apply(s, e), more).Some?
    ensures var t := Run(Apply(s, e), more).value;
            Inv(t) && FiledAs(t, e.id, Created(e, s.now)) && e.id in t.origins && t.origins[e.id] == e.data
  {
    CreateFiles(s, e);
    CreateOrigin(s, e);
    StepKeepsInv(s, e);
    RunKeepsInv(Apply(s, e), more);
    RunKeepsFiled(Apply(s, e), more, e.id, Created(e, s.now));
    RunGrows(Apply(s, e), more);
    hide Run, Apply, Enabled, Inv, FiledAs, Created;
  }

  lemma FiledReads(t: State, e: Event, created: int, uuid: string, call: nat)
    requires Inv(t) && e.Create? && e.id == "artifact_" + uuid && HexDigits(uuid)
    requires FiledAs(t, e.id, Created(e, created)) && e.id in t.origins && t.origins[e.id] == e.data
    requires e.id in t.artifacts && Enabled(t, BeginRead(e.id, call))
    ensures Resolve(Reference(None, Some(t.artifacts[e.id].uri))) == Ok(e.id)
    ensures ReadNow(t, e.id, call) == Ok(e.data) <==> !Outlived(e.meta, t.now - created)
  {
    NewRecordFields(e.id, e.meta, |e.data|, created);
    MadeIdsArePlain(uuid);
    LifetimeMeaning(e.id, e.meta, Created(e, created).backing, |e.data|, created, t.now);
    ReadsUnlessExpired(t, e.id, call);
    hide ReadNow, Resolve, IsExpired, Inv, Outlived, Enabled, NewRecord;
  }

  // -------------------------------------------------------------- manager

  class FileSystem {
    var files: Files

    constructor (existing: Files)
      ensures files == existing
    {
      files := existing;
    }
  }

  datatype Content = TextContent(uri: string, mimeType: string, text: string)
                   | BlobContent(uri: string, mimeType: string, blob: string)

  /** How `readResource` presents bytes. */
  function ContentOf(r: Record, data: Bytes): Content {
    if r.encoding.Utf8Text? then TextContent(r.uri, r.mimeType, Decode(data))
    else BlobContent(r.uri, r.mimeType, Base64.Encode(data))
  }

  /** Text artifacts are presented as the text they encode, others as padded base64, under the record's URI and type. */
  ghost predicate Presents(r: Record, data: Bytes, c: Content) {
    && c.uri == r.uri && c.mimeType == r.mimeType
    && (r.encoding.Utf8Text? ==> c.TextContent? && forall text :: data == Encode(text) ==> c.text == text)
    && (r.encoding.Base64Blob? ==> c.BlobContent? && Base64.Encodes(Base64.STANDARD, true, data, c.blob))
  }

  lemma ContentPresents(r: Record, data: Bytes)
    ensures Presents(r, data, ContentOf(r, data))
  {
    Base64.EncodersFollowTheTables(data);
    forall text | data == Encode(text) ensures Decode(data) == text {
      DecodeEncode(text);
    }
    hide Encode, Decode, Base64.Encode, Base64.Encodes;
  }

  /** The bytes a client gets out of a resource. */
  function BytesOf(c: Content): Bytes {
    if c.TextContent? then Encode(c.text) else Base64.Decode(c.blob)
  }

  /** A resource carries the artifact's exact bytes, whether it is binary or was made from text. */
  lemma ResourceCarriesBytes(r: Record, data: Bytes, text: string)
    requires r.encoding.Utf8Text? ==> data == Encode(text)
    ensures BytesOf(ContentOf(r, data)) == data
  {
    if r.encoding.Utf8Text? {
      DecodeEncode(text);
    } else {
      Base64.DecodeEncode(data);
    }
  }

  class ArtifactManager {
    var artifacts: Registry

    constructor ()
      ensures artifacts == map[]
    {
      artifacts := map[];
    }

    /** `id` and `path` are the fresh names that the runtime makes. */
    method CreateBinaryArtifact(fs: FileSystem, id: string, path: string, meta: Meta, data: Bytes,
                                preferTempFile: bool, now: int) returns (r: Record)
      modifies this, fs
      ensures var temp := UsesTempFile(meta, |data|, preferTempFile);
              && r == NewRecord(id, meta, if temp then TempFile(path) else Memory(data), |data|, now)
              && fs.files == if temp then old(fs.files)[path := data] else old(fs.files)
      ensures var temp := preferTempFile || |data| > (if meta.encoding.Utf8Text? then 16_384 else 65_536);
              && Describes(r, id, meta, if temp then TempFile(path) else Memory(data), |data|, now)
              && (temp ==> path in fs.files && fs.files[path] == data)
      ensures artifacts == old(artifacts)[id := r]
      ensures forall remote :: ReadBacking(fs.files, remote, r.backing) == Ok(data)
      ensures Follows(old(artifacts), old(fs.files), artifacts, fs.files, now,
                      CreateEvents(Create(id, meta, data, preferTempFile, path)))
    {
      var shouldUseTempFile :=
        preferTempFile
        || (if meta.encoding.Utf8Text? then |data| > INLINE_TEXT_THRESHOLD_BYTES else |data| > INLINE_BINARY_THRESHOLD_BYTES);
      if shouldUseTempFile {
        fs.files := fs.files[path := data];
        r := NewRecord(id, meta, TempFile(path), |data|, now);
      } else {
        r := NewRecord(id, meta, Memory(data), |data|, now);
      }
      artifacts := artifacts[id := r];
      NewRecordDescribes(id, meta, |data|, now);
      hide NewRecord, CreateEvents, Follows, Describes;
      CreateFollows(old(artifacts), old(fs.files), Create(id, meta, data, preferTempFile, path), now);
    }

    /** Text is stored as its UTF-8 encoding. */
    method CreateTextArtifact(fs: FileSystem, id: string, path: string, kind: string, mimeType: string, text: string,
                              expiresInMs: Option<int>, preferTempFile: bool, now: int) returns (r: Record)
      modifies this, fs
      ensures var meta := Meta(kind, mimeType, Utf8Text, expiresInMs);
              var temp := UsesTempFile(meta, |Encode(text)|, preferTempFile);
              && r == NewRecord(id, meta, if temp then TempFile(path) else Memory(Encode(text)), |Encode(text)|, now)
              && fs.files == if temp then old(fs.files)[path := Encode(text)] else old(fs.files)
      ensures var temp := preferTempFile || |Encode(text)| > 16_384;
              Describes(r, id, Meta(kind, mimeType, Utf8Text, expiresInMs),
                        if temp then TempFile(path) else Memory(Encode(text)), |Encode(text)|, now)
      ensures artifacts == old(artifacts)[id := r]
      ensures forall remote :: ReadBacking(fs.files, remote, r.backing) == Ok(Encode(text))
      ensures Follows(old(artifacts), old(fs.files), artifacts, fs.files, now,
                      CreateEvents(Create(id, Meta(kind, mimeType, Utf8Text, expiresInMs), Encode(text), preferTempFile, path)))
    {
      hide Follows, CreateEvents, Encode, Describes, NewRecord;
      r := CreateBinaryArtifact(fs, id, path, Meta(kind, mimeType, Utf8Text, expiresInMs), Encode(text), preferTempFile, now);
    }

    method LinkLocalFile(id: string, meta: Meta, path: string, size: nat, now: int) returns (r: Record)
      modifies this
      ensures r == NewRecord(id, meta, LocalFile(path), size, now) && artifacts == old(artifacts)[id := r]
      ensures Describes(r, id, meta, LocalFile(path), size, now)
      ensures forall files :: Follows(old(artifacts), files, artifacts, files, now, [LinkLocal(id, meta, path, size)])
    {
      hide Follows;
      r := NewRecord(id, meta, LocalFile(path), size, now);
      artifacts := artifacts[id := r];
      forall files ensures Follows(old(artifacts), files, artifacts, files, now, [LinkLocal(id, meta, path, size)]) {
        LinkFollows(old(artifacts), files, LinkLocal(id, meta, path, size), now);
      }
    }

    method LinkProxmoxFile(id: string, meta: Meta, target: string, path: string, size: nat, now: int) returns (r: Record)
      modifies this
      ensures r == NewRecord(id, meta, ProxmoxFile(target, path), size, now) && artifacts == old(artifacts)[id := r]
      ensures Describes(r, id, meta, ProxmoxFile(target, path), size, now)
      ensures forall files :: Follows(old(artifacts), files, artifacts, files, now, [LinkRemote(id, meta, target, path, size)])
    {
      hide Follows;
      r := NewRecord(id, meta, ProxmoxFile(target, path), size, now);
      artifacts := artifacts[id := r];
      forall files ensures Follows(old(artifacts), files, artifacts, files, now, [LinkRemote(id, meta, target, path, size)]) {
        LinkFollows(old(artifacts), files, LinkRemote(id, meta, target, path, size), now);
      }
    }

    /** Rejects what is unknown or expired, and drops what is expired. */
    method Find(id: string, now: int) returns (r: Result<Record, Error>)
      modifies this
      ensures (artifacts, r) == Get(old(artifacts), id, now)
      ensures id !in old(artifacts) ==> r == Err(UnknownArtifact(id)) && artifacts == old(artifacts)
      ensures id in old(artifacts) ==>
                var expiry := old(artifacts)[id].expiresAt;
                if expiry.None? || now < expiry.value then r == Ok(old(artifacts)[id]) && artifacts == old(artifacts)
                else r == Err(ArtifactExpired(id)) && artifacts == old(artifacts) - {id}
      ensures forall files, call :: Follows(old(artifacts), files, artifacts, files, now, [BeginRead(id, call)])
    {
      hide Follows;
      forall files, call
        ensures Follows(artifacts, files, Get(artifacts, id, now).0, files, now, [BeginRead(id, call)])
      {
        FindFollows(artifacts, files, id, now, call);
      }
      if id !in artifacts {
        return Err(UnknownArtifact(id));
      }
      var record := artifacts[id];
      if record.expiresAt.Some? && record.expiresAt.value <= now {
        artifacts := artifacts - {id};
        return Err(ArtifactExpired(id));
      }
      return Ok(record);
    }

    method ReadArtifactBuffer(fs: FileSystem, remote: RemoteFiles, reference: Reference, now: int)
      returns (r: Result<Bytes, Error>)
      modifies this
      ensures var id := Resolve(reference);
              if id.Err? then r == Err(id.error) && artifacts == old(artifacts)
              else var (after, found) := Get(old(artifacts), id.value, now);
                   && artifacts == after
                   && r == if found.Ok? then ReadBacking(fs.files, remote, found.value.backing) else Err(found.error)
      ensures Resolve(reference).Ok? ==>
                ReadFollows(old(artifacts), artifacts, fs.files, remote, now, Resolve(reference).value, r)
    {
      hide ReadFollows;
      var id := Resolve(reference);
      if id.Err? {
        return Err(id.error);
      }
      ReadFollowsSo(artifacts, fs.files, remote, now, id.value);
      var record := Find(id.value, now);
      if record.Err? {
        return Err(record.error);
      }
      match record.value.backing {
        case Memory(data) => r := Ok(data);
        case TempFile(path) => r := if path in fs.files then Ok(fs.files[path]) else Err(ReadFailed);
        case LocalFile(path) => r := if path in fs.files then Ok(fs.files[path]) else Err(ReadFailed);
        case ProxmoxFile(target, path) =>
          r := if (target, path) in remote then Ok(remote[(target, path)]) else Err(ReadFailed);
      }
    }

    /** The look-up is made twice with nothing in between, so the second finds what the first found. */
    method ReadResource(fs: FileSystem, remote: RemoteFiles, id: string, now: int) returns (r: Result<Content, Error>)
      modifies this
      ensures var (after, found) := Get(old(artifacts), id, now);
              && artifacts == after
              && (found.Err? ==> r == Err(found.error))
              && (found.Ok? && id == "" ==> r == Err(BadReference))
              && (found.Ok? && id != "" ==>
                    var data := ReadBacking(fs.files, remote, found.value.backing);
                    r == if data.Ok? then Ok(ContentOf(found.value, data.value)) else Err(data.error))
      ensures r.Ok? ==>
                && id in old(artifacts)
                && exists data :: ReadBacking(fs.files, remote, old(artifacts)[id].backing) == Ok(data)
                                  && Presents(old(artifacts)[id], data, r.value)
      ensures ReadFollows(old(artifacts), artifacts, fs.files, remote, now, id, ReadResult(old(artifacts), fs.files, remote, id, now))
    {
      hide ContentOf, ReadBacking, IsExpired, ReadFollows, Presents;
      ReadFollowsSo(artifacts, fs.files, remote, now, id);
      var record := Find(id, now);
      if record.Err? {
        return Err(record.error);
      }
      var data := ReadArtifactBuffer(fs, remote, Reference(Some(id), None), now);
      if data.Err? {
        return Err(data.error);
      }
      ContentPresents(record.value, data.value);
      r := Ok(ContentOf(record.value, data.value));
    }

    method RemoveArtifact(fs: FileSystem, id: string)
      modifies this, fs
      ensures forall now :: Follows(old(artifacts), old(fs.files), artifacts, fs.files, now, RemoveEvents(old(artifacts), id))
      ensures artifacts == old(artifacts) - {id}
      ensures fs.files == if id in old(artifacts) && old(artifacts)[id].backing.TempFile?
                          then old(fs.files) - {old(artifacts)[id].backing.path} else old(fs.files)
    {
      hide Follows, RemoveEvents;
      if id in artifacts {
        var record := artifacts[id];
        artifacts := artifacts - {id};
        if record.backing.TempFile? {
          fs.files := fs.files - {record.backing.path};
        }
      }
      assert artifacts == old(artifacts) - {id} && fs.files == FilesAfterRemoval(old(artifacts), old(fs.files), id);
      forall now ensures Follows(old(artifacts), old(fs.files), artifacts, fs.files, now, RemoveEvents(old(artifacts), id)) {
        RemoveFollows(old(artifacts), old(fs.files), id, now);
      }
    }
  }

  /**
   `artifactResult`: small text is returned inline, anything else is published. Either way what the client
   can get out of the answer is exactly the data, and published text is always behind a temp file.
   */
  method ArtifactResult(manager: ArtifactManager, fs: FileSystem, id: string, path: string, kind: string,
                        mimeType: string, data: Bytes, preferTempFile: bool, now: int)
    returns (inlined: Option<string>, published: Option<Record>)
    modifies manager, fs
    ensures inlined.Some? <==> published.None?
    ensures inlined.Some? <==> IsProbablyText(data) && |data| <= 16 * 1024
    ensures inlined.Some? ==> Encode(inlined.value) == data
    ensures inlined.Some? ==> manager.artifacts == old(manager.artifacts) && fs.files == old(fs.files)
    ensures published.Some? ==>
              && manager.artifacts == old(manager.artifacts)[id := published.value]
              && (forall remote :: ReadBacking(fs.files, remote, published.value.backing) == Ok(data))
              && published.value.size == |data| && published.value.expiresAt == Some(now + 3_600_000)
              && published.value.artifactId == id && published.value.kind == kind && published.value.mimeType == mimeType
              && BytesOf(ContentOf(published.value, data)) == data
              && (IsProbablyText(data) ==> published.value.backing == TempFile(path))
              && (!IsProbablyText(data) ==>
                    (published.value.backing.TempFile? <==> preferTempFile || |data| > 64 * 1024))
    ensures published.Some? ==>
              Follows(old(manager.artifacts), old(fs.files), manager.artifacts, fs.files, now,
                      CreateEvents(Create(id, Meta(kind, mimeType, if IsProbablyText(data) then Utf8Text else Base64Blob, None),
                                          data, preferTempFile, path)))
  {
    hide Follows, CreateEvents;
    hide Encode, Decode, Base64.Encode, Base64.Decode, ReadBacking;
    inlined, published := None, None;
    if IsProbablyText(data) {
      EncodedBack(data);
      if |data| <= 16 * 1024 {
        return Some(Decode(data)), None;
      }
      var r := manager.CreateTextArtifact(fs, id, path, kind, mimeType, Decode(data), None, preferTempFile, now);
      published := Some(r);
    } else {
      Base64.DecodeEncode(data);
      var r := manager.CreateBinaryArtifact(fs, id, path, Meta(kind, mimeType, Base64Blob, None), data, preferTempFile, now);
      published := Some(r);
    }
  }

  lemma EncodedBack(data: Bytes)
    requires IsProbablyText(data)
    ensures Encode(Decode(data)) == data
  {
    if data != [] {
      EncodeDecode(data);
    }
  }

  /** `isProbablyTextBuffer`: decoding as UTF-8 yields no replacement character. */
  predicate IsProbablyText(data: Bytes) {
    data == [] || REPLACEMENT !in Decode(data)
  }

  /** Exactly the encodings of texts without U+FFFD count as text. */
  lemma TextMeansCleanUtf8(data: Bytes)
    ensures IsProbablyText(data) <==> exists text :: REPLACEMENT !in text && Encode(text) == data
  {
    CleanDecoding(data);
    assert data == [] ==> Decode(data) == "";
  }
}
