/** The mount repository as two maps: records by mount ID, and the index of cleaned mount paths. */
module Repository {
  import opened MountTypes
  import opened Paths

  datatype Repo = Repo(records: map<string, MountRecord>, paths: map<string, string>)

  datatype RepoError = IdConflict | PathConflict | NotFound | Invalid

  datatype Outcome = Stored(repo: Repo) | Rejected(error: RepoError)

  const EMPTY := Repo(map[], map[])

  function Path(record: MountRecord): string {
    Clean(record.info.config.path)
  }

  predicate ValidForWrite(record: MountRecord) {
    record.info.id != "" && Rooted(record.info.config.path)
  }

  function Create(repo: Repo, record: MountRecord): Outcome {
    if !ValidForWrite(record) then Rejected(Invalid)
    else if record.info.id in repo.records then Rejected(IdConflict)
    else if Path(record) in repo.paths then Rejected(PathConflict)
    else Stored(Repo(repo.records[record.info.id := record], repo.paths[Path(record) := record.info.id]))
  }

  function Update(repo: Repo, record: MountRecord): Outcome {
    if !ValidForWrite(record) then Rejected(Invalid)
    else if record.info.id !in repo.records then Rejected(NotFound)
    else Stored(repo.(records := repo.records[record.info.id := record]))
  }

  function Delete(repo: Repo, id: string): Outcome {
    if id == "" then Rejected(Invalid)
    else if id !in repo.records then Stored(repo)
    else Stored(Repo(repo.records - {id}, repo.paths - {Path(repo.records[id])}))
  }

  /** Every record is a valid one, stored under its own ID. */
  predicate Keyed(repo: Repo) {
    forall id :: id in repo.records ==> repo.records[id].info.id == id && ValidForWrite(repo.records[id])
  }

  /** Records and path index are exact inverses of each other on cleaned paths. */
  predicate Consistent(repo: Repo) {
    && Keyed(repo)
    && (forall id :: id in repo.records ==>
          && Path(repo.records[id]) in repo.paths && repo.paths[Path(repo.records[id])] == id)
    && (forall p :: p in repo.paths ==>
          repo.paths[p] in repo.records && Path(repo.records[repo.paths[p]]) == p)
  }

  lemma CreateKeepsConsistent(repo: Repo, record: MountRecord)
    requires Consistent(repo) && Create(repo, record).Stored?
    ensures Consistent(Create(repo, record).repo)
  {
  }

  lemma DeleteKeepsConsistent(repo: Repo, id: string)
    requires Consistent(repo) && Delete(repo, id).Stored?
    ensures Consistent(Delete(repo, id).repo)
  {
  }

  /** An Update keeps the index exact if and only if it keeps the record's cleaned path. */
  lemma UpdateKeepsConsistentIff(repo: Repo, record: MountRecord)
    requires Consistent(repo) && Update(repo, record).Stored?
    ensures Consistent(Update(repo, record).repo) <==> Path(record) == Path(repo.records[record.info.id])
  {
    var repo' := Update(repo, record).repo;
    var was := Path(repo.records[record.info.id]);
    assert was in repo'.paths && repo'.paths[was] == record.info.id;
    assert repo'.records[record.info.id] == record;
  }

  /** Deleting what was just created restores the repository. */
  lemma DeleteUndoesCreate(repo: Repo, record: MountRecord)
    requires Consistent(repo) && Create(repo, record).Stored?
    ensures Delete(Create(repo, record).repo, record.info.id) == Stored(repo)
  {
    var created := Create(repo, record).repo;
    assert created.records - {record.info.id} == repo.records;
    assert created.paths - {Path(record)} == repo.paths;
  }

  /** The path of `record`, cleaned, is that of no record in the repository. */
  ghost predicate PathUnused(repo: Repo, record: MountRecord) {
    forall id :: id in repo.records ==> Clean(repo.records[id].info.config.path) != Clean(record.info.config.path)
  }

  lemma PathUnusedIff(repo: Repo, record: MountRecord)
    requires Consistent(repo)
    ensures PathUnused(repo, record) <==> Path(record) !in repo.paths
  {
    if Path(record) in repo.paths {
      assert repo.paths[Path(record)] in repo.records;
    }
  }

  /** A record is created exactly if it has an ID and an absolute path, and both are unused. */
  lemma CreateIff(repo: Repo, record: MountRecord)
    requires Consistent(repo)
    ensures var id, path := record.info.id, record.info.config.path;
      && (Create(repo, record).Stored? <==>
          id != "" && path != "" && path[0] == '/' && id !in repo.records && PathUnused(repo, record))
      && (Create(repo, record) == Rejected(Invalid) <==> id == "" || path == "" || path[0] != '/')
      && (Create(repo, record) == Rejected(IdConflict) <==> id in repo.records && path != "" && path[0] == '/')
      && (Create(repo, record).Stored? ==> Create(repo, record).repo.records == repo.records[id := record])
  {
    PathUnusedIff(repo, record);
  }

  /** A record is updated exactly if it has an ID and an absolute path, and the ID is stored; nothing else changes. */
  lemma UpdateIff(repo: Repo, record: MountRecord)
    ensures var id, path := record.info.id, record.info.config.path;
      && (Update(repo, record).Stored? <==> id != "" && path != "" && path[0] == '/' && id in repo.records)
      && (Update(repo, record) == Rejected(NotFound) <==>
          id != "" && path != "" && path[0] == '/' && id !in repo.records)
      && (Update(repo, record).Stored? ==>
            Update(repo, record).repo == Repo(repo.records[id := record], repo.paths))
  {
  }

  /** Deleting needs an ID, and leaves neither its record nor its path behind; all others stay. */
  lemma DeleteIff(repo: Repo, id: string)
    requires Consistent(repo)
    ensures Delete(repo, id).Stored? <==> id != ""
    ensures Delete(repo, id).Stored? ==>
      var r := Delete(repo, id).repo;
      && r.records == (map x | x in repo.records && x != id :: repo.records[x])
      && r.paths == (map p | p in repo.paths && repo.paths[p] != id :: repo.paths[p])
  {
    if id in repo.records {
      var path := Path(repo.records[id]);
      assert forall p :: p in repo.paths ==> (repo.paths[p] == id <==> p == path);
    }
  }

  lemma PathsUnique(repo: Repo, id1: string, id2: string)
    requires Consistent(repo) && id1 in repo.records && id2 in repo.records
    requires Path(repo.records[id1]) == Path(repo.records[id2])
    ensures id1 == id2
  {
    assert repo.paths[Path(repo.records[id1])] == id1;
  }

  // ---------------------------------------------------------------- sequences of operations

  datatype Op = DoCreate(record: MountRecord) | DoUpdate(record: MountRecord) | DoDelete(id: string)

  function Outcomes(repo: Repo, op: Op): Outcome {
    match op
    case DoCreate(record) => Create(repo, record)
    case DoUpdate(record) => Update(repo, record)
    case DoDelete(id) => Delete(repo, id)
  }

  /** A rejected operation changes nothing. */
  function Perform(repo: Repo, op: Op): Repo {
    if Outcomes(repo, op).Stored? then Outcomes(repo, op).repo else repo
  }

  /** The immutable-path contract, op by op. */
  ghost predicate KeepsPaths(repo: Repo, ops: seq<Op>)
    decreases |ops|
  {
    ops == [] ||
    (&& (ops[0].DoUpdate? && ops[0].record.info.id in repo.records ==>
           Path(ops[0].record) == Path(repo.records[ops[0].record.info.id]))
     && KeepsPaths(Perform(repo, ops[0]), ops[1..]))
  }

  ghost function PerformAll(repo: Repo, ops: seq<Op>): Repo
    decreases |ops|
  {
    if ops == [] then repo else PerformAll(Perform(repo, ops[0]), ops[1..])
  }

  lemma {:induction false} OperationsKeepConsistent(repo: Repo, ops: seq<Op>)
    requires Consistent(repo) && KeepsPaths(repo, ops)
    ensures Consistent(PerformAll(repo, ops))
    decreases |ops|
  {
    if ops != [] {
      match ops[0] {
        case DoCreate(record) =>
          if Create(repo, record).Stored? {
            CreateKeepsConsistent(repo, record);
          }
        case DoUpdate(record) =>
          if Update(repo, record).Stored? {
            UpdateKeepsConsistentIff(repo, record);
          }
        case DoDelete(id) =>
          if Delete(repo, id).Stored? {
            DeleteKeepsConsistent(repo, id);
          }
      }
      OperationsKeepConsistent(Perform(repo, ops[0]), ops[1..]);
    }
  }
}
