/** The repository over one flat key-value store, and its refinement of the two abstract maps. */
module FlatStore {
  import opened MountTypes
  import opened Paths
  import opened Repository
  import opened Base64Url

  const MOUNTS := "mounts/"
  const MOUNT_PATHS := "mount-paths/"
  const SCHEMA_VERSION := "meta/schema-version"
  const MAX_CONFLICT_RETRIES := 10

  /** A stored value: encoding a record is taken to be invertible. */
  datatype StoredValue = RecordValue(record: MountRecord) | OwnerValue(id: string) | VersionValue(version: nat)

  type Kv = map<string, StoredValue>

  function MountKey(id: string): string {
    MOUNTS + id
  }

  function PathKey(path: string): string
    requires Bytes(path)
  {
    MOUNT_PATHS + Encode(path)
  }

  predicate HasPrefix(key: string, prefix: string) {
    prefix <= key
  }

  // ---------------------------------------------------------------- key spaces

  lemma KeySpacesDisjoint(id: string, path: string)
    requires Bytes(path)
    ensures MountKey(id) != PathKey(path) && MountKey(id) != SCHEMA_VERSION && PathKey(path) != SCHEMA_VERSION
    ensures HasPrefix(MountKey(id), MOUNTS) && !HasPrefix(PathKey(path), MOUNTS) && !HasPrefix(SCHEMA_VERSION, MOUNTS)
    ensures HasPrefix(PathKey(path), MOUNT_PATHS) && !HasPrefix(MountKey(id), MOUNT_PATHS)
    ensures !HasPrefix(SCHEMA_VERSION, MOUNT_PATHS)
  {
    assert MountKey(id)[5] == 's' && PathKey(path)[5] == '-';
    assert MountKey(id)[1] == 'o' && PathKey(path)[1] == 'o' && SCHEMA_VERSION[1] == 'e';
    assert MOUNTS[5] == 's' && MOUNT_PATHS[5] == '-' && MOUNTS[1] == 'o' && MOUNT_PATHS[1] == 'o';
  }

  lemma MountKeyInjective(id1: string, id2: string)
    requires MountKey(id1) == MountKey(id2)
    ensures id1 == id2
  {
    assert MountKey(id1)[|MOUNTS|..] == id1 && MountKey(id2)[|MOUNTS|..] == id2;
  }

  lemma PathKeyInjective(p1: string, p2: string)
    requires Bytes(p1) && Bytes(p2) && PathKey(p1) == PathKey(p2)
    ensures p1 == p2
  {
    assert PathKey(p1)[|MOUNT_PATHS|..] == Encode(p1) && PathKey(p2)[|MOUNT_PATHS|..] == Encode(p2);
    EncodeInjective(p1, p2);
  }

  // ---------------------------------------------------------------- transactions

  datatype TxnError = Refused(error: RepoError) | Corrupt | Conflict | StorageFault | Cancelled

  datatype Verdict = Commit(kv: Kv, writes: bool) | Abort(error: TxnError)

  /** Create's transaction body. */
  function CreateTxn(kv: Kv, record: MountRecord): Verdict
    requires Bytes(Path(record))
  {
    if MountKey(record.info.id) in kv then Abort(Refused(IdConflict))
    else if PathKey(Path(record)) in kv then Abort(Refused(PathConflict))
    else
      var kv1 := kv[MountKey(record.info.id) := RecordValue(record)];
      Commit(kv1[PathKey(Path(record)) := OwnerValue(record.info.id)], true)
  }

  function UpdateTxn(kv: Kv, record: MountRecord): Verdict {
    if MountKey(record.info.id) !in kv then Abort(Refused(NotFound))
    else Commit(kv[MountKey(record.info.id) := RecordValue(record)], true)
  }

  /** A stored path that is not made of bytes does not occur; the guard only makes the function total. */
  function DeleteTxn(kv: Kv, id: string): Verdict {
    if MountKey(id) !in kv then Commit(kv, false)
    else match kv[MountKey(id)]
      case RecordValue(record) =>
        if Bytes(Path(record)) then Commit(kv - {MountKey(id)} - {PathKey(Path(record))}, true)
        else Commit(kv - {MountKey(id)}, true)
      case _ => Abort(Corrupt)
  }

  predicate ByteOp(op: Op) {
    op.DoDelete? || Bytes(op.record.info.config.path)
  }

  predicate ValidOp(op: Op) {
    if op.DoDelete? then op.id != "" else ValidForWrite(op.record)
  }

  function Execute(kv: Kv, op: Op): Verdict
    requires ByteOp(op)
  {
    match op
    case DoCreate(record) => CleanBytes(record.info.config.path); CreateTxn(kv, record)
    case DoUpdate(record) => UpdateTxn(kv, record)
    case DoDelete(id) => DeleteTxn(kv, id)
  }

  /** A committed operation applied once; an operation that is invalid or aborts changes nothing. */
  function ApplyOnce(kv: Kv, op: Op): Kv
    requires ByteOp(op)
  {
    if ValidOp(op) && Execute(kv, op).Commit? then Execute(kv, op).kv else kv
  }

  predicate ByteOps(ops: seq<Op>) {
    forall i :: 0 <= i < |ops| ==> ByteOp(ops[i])
  }

  function Replay(kv: Kv, ops: seq<Op>): Kv
    requires ByteOps(ops)
    decreases |ops|
  {
    if ops == [] then kv else Replay(ApplyOnce(kv, ops[0]), ops[1..])
  }

  // ---------------------------------------------------------------- refinement

  /** The mount keys of the store are exactly those of `records`. */
  ghost predicate HoldsRecords(kv: Kv, records: map<string, MountRecord>) {
    && (forall id :: id in records <==> MountKey(id) in kv)
    && (forall id :: id in records ==> HoldsRecord(kv, id, records[id]))
  }

  ghost predicate HoldsRecord(kv: Kv, id: string, record: MountRecord) {
    && MountKey(id) in kv && kv[MountKey(id)] == RecordValue(record)
    && record.info.id == id && Bytes(Path(record))
  }

  /** The path keys of the store are exactly those of `paths`. */
  ghost predicate HoldsPaths(kv: Kv, paths: map<string, string>) {
    && (forall p :: p in paths ==> Bytes(p) && HoldsOwner(kv, p, paths[p]))
    && (forall p :: Bytes(p) && PathKey(p) in kv ==> p in paths)
  }

  ghost predicate HoldsOwner(kv: Kv, path: string, id: string)
    requires Bytes(path)
  {
    PathKey(path) in kv && kv[PathKey(path)] == OwnerValue(id)
  }

  /** The store holds exactly this repository, besides the schema version. */
  ghost predicate Represents(kv: Kv, repo: Repo) {
    HoldsRecords(kv, repo.records) && HoldsPaths(kv, repo.paths)
  }

  /** A store represents at most one repository. */
  lemma RepresentsUnique(kv: Kv, r1: Repo, r2: Repo)
    requires Represents(kv, r1) && Represents(kv, r2)
    ensures r1 == r2
  {
    assert forall id :: id in r1.records ==> HoldsRecord(kv, id, r1.records[id]);
    assert forall id :: id in r2.records ==> HoldsRecord(kv, id, r2.records[id]);
    assert r1.records == r2.records;
    assert forall p :: p in r1.paths ==> HoldsOwner(kv, p, r1.paths[p]);
    assert forall p :: p in r2.paths ==> HoldsOwner(kv, p, r2.paths[p]);
    assert r1.paths == r2.paths;
  }

  lemma SetRecord(kv: Kv, records: map<string, MountRecord>, record: MountRecord)
    requires HoldsRecords(kv, records) && Bytes(Path(record))
    ensures HoldsRecords(kv[MountKey(record.info.id) := RecordValue(record)], records[record.info.id := record])
  {
    var id := record.info.id;
    forall x | MountKey(x) == MountKey(id) ensures x == id {
      MountKeyInjective(x, id);
    }
    forall x | x in records ensures HoldsRecord(kv, x, records[x]) {
    }
    var kv', records' := kv[MountKey(id) := RecordValue(record)], records[id := record];
    forall x | x in records' ensures HoldsRecord(kv', x, records'[x]) {
    }
  }

  lemma RemoveRecord(kv: Kv, records: map<string, MountRecord>, id: string)
    requires HoldsRecords(kv, records)
    ensures HoldsRecords(kv - {MountKey(id)}, records - {id})
  {
    forall x | MountKey(x) == MountKey(id) ensures x == id {
      MountKeyInjective(x, id);
    }
    forall x | x in records ensures HoldsRecord(kv, x, records[x]) {
    }
  }

  /** Writing or removing a mount key leaves the path keys alone. */
  lemma PathsApart(kv: Kv, paths: map<string, string>, id: string, value: StoredValue)
    requires HoldsPaths(kv, paths)
    ensures HoldsPaths(kv[MountKey(id) := value], paths) && HoldsPaths(kv - {MountKey(id)}, paths)
  {
    forall p | Bytes(p) ensures PathKey(p) != MountKey(id) {
      KeySpacesDisjoint(id, p);
    }
    forall p | p in paths ensures HoldsOwner(kv, p, paths[p]) {
    }
  }

  /** Writing or removing a path key leaves the mount keys alone. */
  lemma RecordsApart(kv: Kv, records: map<string, MountRecord>, path: string, value: StoredValue)
    requires HoldsRecords(kv, records) && Bytes(path)
    ensures HoldsRecords(kv[PathKey(path) := value], records) && HoldsRecords(kv - {PathKey(path)}, records)
  {
    forall x ensures MountKey(x) != PathKey(path) {
      KeySpacesDisjoint(x, path);
    }
    forall x | x in records ensures HoldsRecord(kv, x, records[x]) {
    }
  }

  lemma SetPath(kv: Kv, paths: map<string, string>, path: string, id: string)
    requires HoldsPaths(kv, paths) && Bytes(path)
    ensures HoldsPaths(kv[PathKey(path) := OwnerValue(id)], paths[path := id])
  {
    forall p | Bytes(p) && PathKey(p) == PathKey(path) ensures p == path {
      PathKeyInjective(p, path);
    }
    forall p | p in paths ensures HoldsOwner(kv, p, paths[p]) {
    }
  }

  lemma RemovePath(kv: Kv, paths: map<string, string>, path: string)
    requires HoldsPaths(kv, paths) && Bytes(path)
    ensures HoldsPaths(kv - {PathKey(path)}, paths - {path})
  {
    forall p | Bytes(p) && PathKey(p) == PathKey(path) ensures p == path {
      PathKeyInjective(p, path);
    }
    forall p | p in paths ensures HoldsOwner(kv, p, paths[p]) {
    }
  }

  lemma CreateRefines(kv: Kv, repo: Repo, record: MountRecord)
    requires Represents(kv, repo) && Bytes(Path(record)) && Create(repo, record).Stored?
    ensures CreateTxn(kv, record).Commit? && Represents(CreateTxn(kv, record).kv, Create(repo, record).repo)
  {
    var id, path := record.info.id, Path(record);
    var kv1 := kv[MountKey(id) := RecordValue(record)];
    SetRecord(kv, repo.records, record);
    PathsApart(kv, repo.paths, id, RecordValue(record));
    RecordsApart(kv1, repo.records[id := record], path, OwnerValue(id));
    SetPath(kv1, repo.paths, path, id);
  }

  lemma UpdateRefines(kv: Kv, repo: Repo, record: MountRecord)
    requires Represents(kv, repo) && Bytes(Path(record)) && Update(repo, record).Stored?
    ensures UpdateTxn(kv, record).Commit? && Represents(UpdateTxn(kv, record).kv, Update(repo, record).repo)
  {
    SetRecord(kv, repo.records, record);
    PathsApart(kv, repo.paths, record.info.id, RecordValue(record));
  }

  lemma DeleteRefines(kv: Kv, repo: Repo, id: string)
    requires Represents(kv, repo) && id != ""
    ensures DeleteTxn(kv, id).Commit? && Represents(DeleteTxn(kv, id).kv, Perform(repo, DoDelete(id)))
  {
    if id in repo.records {
      var record := repo.records[id];
      assert HoldsRecord(kv, id, record);
      var kv1 := kv - {MountKey(id)};
      RemoveRecord(kv, repo.records, id);
      PathsApart(kv, repo.paths, id, OwnerValue(id));
      RecordsApart(kv1, repo.records - {id}, Path(record), OwnerValue(id));
      RemovePath(kv1, repo.paths, Path(record));
    }
  }

  /** Each transaction decides and acts on the store as the operation does on the two maps. */
  lemma ExecuteRefines(kv: Kv, repo: Repo, op: Op)
    requires Represents(kv, repo) && ByteOp(op) && ValidOp(op)
    ensures match Outcomes(repo, op)
      case Stored(repo') => Execute(kv, op).Commit? && Represents(Execute(kv, op).kv, repo')
      case Rejected(error) => Execute(kv, op) == Abort(Refused(error))
  {
    if op.DoDelete? {
      DeleteRefines(kv, repo, op.id);
    } else {
      CleanBytes(op.record.info.config.path);
      if Outcomes(repo, op).Stored? {
        if op.DoCreate? {
          CreateRefines(kv, repo, op.record);
        } else {
          UpdateRefines(kv, repo, op.record);
        }
      } else if op.DoCreate? && op.record.info.id !in repo.records {
        assert HoldsOwner(kv, Path(op.record), repo.paths[Path(op.record)]);
      }
    }
  }

  lemma ApplyOnceRefines(kv: Kv, repo: Repo, op: Op)
    requires Represents(kv, repo) && ByteOp(op)
    ensures Represents(ApplyOnce(kv, op), Perform(repo, op))
  {
    if ValidOp(op) {
      ExecuteRefines(kv, repo, op);
    }
  }

  lemma {:induction false} ReplayRefines(kv: Kv, repo: Repo, ops: seq<Op>)
    requires Represents(kv, repo) && ByteOps(ops)
    ensures Represents(Replay(kv, ops), PerformAll(repo, ops))
    decreases |ops|
  {
    if ops != [] {
      ApplyOnceRefines(kv, repo, ops[0]);
      ReplayRefines(ApplyOnce(kv, ops[0]), Perform(repo, ops[0]), ops[1..]);
    }
  }
}
