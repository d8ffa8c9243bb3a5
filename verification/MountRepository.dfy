/** The repository object: its bounded conflict retry, its writes and its listing. */
module MountRepository {
  import opened MountTypes
  import opened Paths
  import opened Repository
  import opened Options
  import opened FlatStore

  // ---------------------------------------------------------------- conflicts

  datatype CommitResult = Commits | Conflicts | Faults

  /** One attempt: the transactions of others that commit before it, and what becomes of it. */
  datatype Turn = Turn(others: seq<Op>, commit: CommitResult)

  datatype WriteResult = Written | WriteFailed(error: TxnError)

  ghost predicate ByteTurns(turns: nat -> Turn) {
    forall k: nat :: ByteOps(turns(k).others)
  }

  /** Everything that others commit during the first `n` attempts. */
  function Interference(turns: nat -> Turn, n: nat): seq<Op> {
    if n == 0 then [] else Interference(turns, n - 1) + turns(n - 1).others
  }

  lemma {:induction false} InterferenceBytes(turns: nat -> Turn, n: nat)
    requires ByteTurns(turns)
    ensures ByteOps(Interference(turns, n))
  {
    if n > 0 {
      InterferenceBytes(turns, n - 1);
    }
  }

  lemma {:induction false} ReplayConcat(kv: Kv, a: seq<Op>, b: seq<Op>)
    requires ByteOps(a) && ByteOps(b)
    ensures ByteOps(a + b) && Replay(kv, a + b) == Replay(Replay(kv, a), b)
    decreases |a|
  {
    if a == [] {
      assert a + b == b;
    } else {
      ReplayConcat(ApplyOnce(kv, a[0]), a[1..], b);
      assert (a + b)[1..] == a[1..] + b;
    }
  }

  /** The transaction commits: the store works, the body does not abort, and if it writes nobody got in between. */
  predicate Lands(turn: Turn, verdict: Verdict) {
    turn.commit != Faults && verdict.Commit? && (turn.commit == Commits || !verdict.writes)
  }

  /** Somebody got in between a transaction that reads and writes. */
  predicate Collides(turn: Turn, verdict: Verdict) {
    turn.commit == Conflicts && verdict.Commit? && verdict.writes
  }

  /** What the transaction body of attempt `k` decides, after all that others have committed by then. */
  function VerdictAt(kv: Kv, op: Op, turns: nat -> Turn, k: nat): Verdict
    requires ByteOp(op) && ByteTurns(turns)
  {
    InterferenceBytes(turns, k + 1);
    Execute(Replay(kv, Interference(turns, k + 1)), op)
  }

  ghost predicate AllCollide(kv: Kv, op: Op, turns: nat -> Turn, n: nat)
    requires ByteOp(op) && ByteTurns(turns)
  {
    forall k :: 0 <= k < n ==> Collides(turns(k), VerdictAt(kv, op, turns, k))
  }

  /** What one attempt reports of its transaction, and what it leaves in the store. */
  ghost predicate Reported(before: Kv, verdict: Verdict, turn: Turn, result: WriteResult, kv': Kv) {
    && (result == Written <==> Lands(turn, verdict))
    && (result == WriteFailed(Conflict) <==> Collides(turn, verdict))
    && match result
       case Written => verdict.Commit? && kv' == verdict.kv
       case WriteFailed(error) =>
         && kv' == before
         && (error.Conflict? || (error.StorageFault? && turn.commit == Faults) || verdict == Abort(error))
  }

  /**
   * How a write ended after `n` attempts: all but the last collided, and so did the last only if no attempt was left.
   * On success the operation took effect exactly once, after what others committed; on error not at all, and the
   * error says why.
   */
  ghost predicate Ended(kv: Kv, op: Op, turns: nat -> Turn, n: nat, result: WriteResult, kv': Kv)
    requires ByteOp(op) && ByteTurns(turns)
  {
    InterferenceBytes(turns, n);
    && 1 <= n <= MAX_CONFLICT_RETRIES && AllCollide(kv, op, turns, n - 1)
    && (n < MAX_CONFLICT_RETRIES ==> result != WriteFailed(Conflict))
    && Reported(Replay(kv, Interference(turns, n)), VerdictAt(kv, op, turns, n - 1), turns(n - 1), result, kv')
  }

  ghost predicate Tried(kv: Kv, op: Op, turn: Turn, result: WriteResult, kv': Kv)
    requires ByteOp(op) && ByteOps(turn.others)
  {
    var before := Replay(kv, turn.others);
    Reported(before, Execute(before, op), turn, result, kv')
  }

  /** `n` attempts have collided, and only the others have written. */
  ghost predicate Conflicted(kv: Kv, op: Op, turns: nat -> Turn, n: nat, kv': Kv)
    requires ByteOp(op) && ByteTurns(turns)
  {
    InterferenceBytes(turns, n);
    kv' == Replay(kv, Interference(turns, n)) && AllCollide(kv, op, turns, n)
  }

  /** The verdict of attempt `n`, from the store that the attempts before it left. */
  lemma VerdictNow(kv: Kv, op: Op, turns: nat -> Turn, n: nat)
    requires ByteOp(op) && ByteTurns(turns)
    ensures ByteOps(Interference(turns, n)) && ByteOps(Interference(turns, n + 1))
    ensures var before := Replay(Replay(kv, Interference(turns, n)), turns(n).others);
      before == Replay(kv, Interference(turns, n + 1)) && VerdictAt(kv, op, turns, n) == Execute(before, op)
  {
    InterferenceBytes(turns, n);
    InterferenceBytes(turns, n + 1);
    ReplayConcat(kv, Interference(turns, n), turns(n).others);
    assert Interference(turns, n + 1) == Interference(turns, n) + turns(n).others;
  }

  lemma OneMoreCollides(kv: Kv, op: Op, turns: nat -> Turn, n: nat)
    requires ByteOp(op) && ByteTurns(turns)
    requires AllCollide(kv, op, turns, n) && Collides(turns(n), VerdictAt(kv, op, turns, n))
    ensures AllCollide(kv, op, turns, n + 1)
  {
  }

  lemma TriedEnds(kv: Kv, kv1: Kv, op: Op, turns: nat -> Turn, n: nat, result: WriteResult, kv': Kv)
    requires ByteOp(op) && ByteTurns(turns) && n < MAX_CONFLICT_RETRIES
    requires Conflicted(kv, op, turns, n, kv1) && Tried(kv1, op, turns(n), result, kv')
    ensures result == WriteFailed(Conflict) ==> Conflicted(kv, op, turns, n + 1, kv')
    ensures result != WriteFailed(Conflict) || n + 1 == MAX_CONFLICT_RETRIES ==>
      Ended(kv, op, turns, n + 1, result, kv')
  {
    VerdictNow(kv, op, turns, n);
    if result == WriteFailed(Conflict) {
      OneMoreCollides(kv, op, turns, n);
    }
  }

  /** Attempt `k` commits, and all before it collided. */
  ghost predicate FirstToLand(kv: Kv, op: Op, turns: nat -> Turn, k: nat)
    requires ByteOp(op) && ByteTurns(turns)
  {
    AllCollide(kv, op, turns, k) && Lands(turns(k), VerdictAt(kv, op, turns, k))
  }

  /** What an ending says of its attempts, apart from the store. */
  ghost predicate Tally(kv: Kv, op: Op, turns: nat -> Turn, n: nat, result: WriteResult, max: nat)
    requires ByteOp(op) && ByteTurns(turns)
  {
    && 1 <= n <= max && AllCollide(kv, op, turns, n - 1) && (n < max ==> result != WriteFailed(Conflict))
    && (result == Written <==> FirstToLand(kv, op, turns, n - 1))
    && (result == WriteFailed(Conflict) <==> Collides(turns(n - 1), VerdictAt(kv, op, turns, n - 1)))
  }

  lemma EndedTally(kv: Kv, op: Op, turns: nat -> Turn, n: nat, result: WriteResult, kv': Kv)
    requires ByteOp(op) && ByteTurns(turns) && Ended(kv, op, turns, n, result, kv')
    ensures Tally(kv, op, turns, n, result, 10)
  {
  }

  /** All before the last attempt collided, so no other attempt can be the first that commits. */
  lemma LastAttempt(kv: Kv, op: Op, turns: nat -> Turn, n: nat, result: WriteResult, max: nat, k: nat)
    requires ByteOp(op) && ByteTurns(turns) && Tally(kv, op, turns, n, result, max)
    requires k < max && FirstToLand(kv, op, turns, k)
    ensures k == n - 1
  {
  }

  lemma AllCollideIff(kv: Kv, op: Op, turns: nat -> Turn, n: nat, result: WriteResult, max: nat)
    requires ByteOp(op) && ByteTurns(turns) && Tally(kv, op, turns, n, result, max)
    ensures result == WriteFailed(Conflict) <==> AllCollide(kv, op, turns, max)
  {
  }

  lemma TallySucceedsIff(kv: Kv, op: Op, turns: nat -> Turn, n: nat, result: WriteResult, max: nat)
    requires ByteOp(op) && ByteTurns(turns) && Tally(kv, op, turns, n, result, max)
    ensures result == Written <==> exists k: nat :: k < max && FirstToLand(kv, op, turns, k)
  {
    if k: nat :| k < max && FirstToLand(kv, op, turns, k) {
      LastAttempt(kv, op, turns, n, result, max, k);
    }
  }

  /**
   * Exactly when a write succeeds: one of the first ten attempts commits, and all before it collided. It reports a
   * conflict exactly if all ten collided.
   */
  lemma WriteSucceedsIff(kv: Kv, op: Op, turns: nat -> Turn, n: nat, result: WriteResult, kv': Kv)
    requires ByteOp(op) && ByteTurns(turns) && Ended(kv, op, turns, n, result, kv')
    ensures result == Written <==> exists k: nat :: k < 10 && FirstToLand(kv, op, turns, k)
    ensures result == WriteFailed(Conflict) <==> AllCollide(kv, op, turns, 10)
  {
    EndedTally(kv, op, turns, n, result, kv');
    TallySucceedsIff(kv, op, turns, n, result, 10);
    AllCollideIff(kv, op, turns, n, result, 10);
  }

  /** A transaction that reads only is the deletion of a record that is not there. */
  lemma WritesUnlessMissing(kv: Kv, repo: Repo, op: Op)
    requires Represents(kv, repo) && ByteOp(op) && Execute(kv, op).Commit?
    ensures Execute(kv, op).writes <==> !(op.DoDelete? && op.id !in repo.records)
  {
  }

  /** What an attempt reports, told of the abstract repository that it finds. */
  ghost predicate AbstractlyReported(before: Repo, op: Op, turn: Turn, result: WriteResult, kv': Kv) {
    && (result == Written <==>
        && Outcomes(before, op).Stored? && turn.commit != Faults
        && (turn.commit == Conflicts ==> op.DoDelete? && op.id !in before.records))
    && match result
       case Written => Outcomes(before, op).Stored? && Represents(kv', Outcomes(before, op).repo)
       case WriteFailed(error) =>
         Represents(kv', before) && (error.Refused? ==> Outcomes(before, op) == Rejected(error.error))
  }

  lemma ReportedRefines(kv: Kv, before: Repo, op: Op, turn: Turn, result: WriteResult, kv': Kv)
    requires Represents(kv, before) && ByteOp(op) && ValidOp(op)
    requires Reported(kv, Execute(kv, op), turn, result, kv')
    ensures AbstractlyReported(before, op, turn, result, kv')
  {
    ExecuteRefines(kv, before, op);
    if Execute(kv, op).Commit? {
      WritesUnlessMissing(kv, before, op);
    }
  }

  /**
   * The same ending told of the abstract repository: the operation is applied exactly once on success and not at all
   * on error; and the last attempt succeeds exactly if the repository accepts the operation, the store works, and
   * nobody got in between or there was nothing to delete.
   */
  lemma EndedRefines(kv: Kv, repo: Repo, op: Op, turns: nat -> Turn, n: nat, result: WriteResult, kv': Kv)
    requires Represents(kv, repo) && ByteOp(op) && ValidOp(op) && ByteTurns(turns)
    requires Ended(kv, op, turns, n, result, kv')
    ensures AbstractlyReported(PerformAll(repo, Interference(turns, n)), op, turns(n - 1), result, kv')
  {
    InterferenceBytes(turns, n);
    ReplayRefines(kv, repo, Interference(turns, n));
    ReportedRefines(Replay(kv, Interference(turns, n)), PerformAll(repo, Interference(turns, n)), op, turns(n - 1),
                    result, kv');
  }

  // ---------------------------------------------------------------- listing

  /** Byte order, in which the store iterates over its keys. */
  predicate Less(a: string, b: string)
    decreases |a|
  {
    b != "" && (a == "" || a[0] < b[0] || (a[0] == b[0] && Less(a[1..], b[1..])))
  }

  ghost predicate Ordered(keys: seq<string>) {
    forall i, j :: 0 <= i < j < |keys| ==> Less(keys[i], keys[j])
  }

  lemma {:induction false} LessIrreflexive(a: string)
    ensures !Less(a, a)
  {
    if a != "" {
      LessIrreflexive(a[1..]);
    }
  }

  /** A key that starts with the prefix is not below it. */
  lemma {:induction false} PrefixNotBelow(key: string, prefix: string)
    requires HasPrefix(key, prefix)
    ensures !Less(key, prefix)
    decreases |key|
  {
    if prefix != "" {
      assert HasPrefix(key[1..], prefix[1..]);
      PrefixNotBelow(key[1..], prefix[1..]);
    }
  }

  /** The keys that start with the prefix are contiguous: none lies beyond one that is above the prefix without it. */
  lemma {:induction false} PrefixContiguous(a: string, b: string, prefix: string)
    requires !Less(a, prefix) && Less(a, b) && HasPrefix(b, prefix)
    ensures HasPrefix(a, prefix)
    decreases |prefix|
  {
    if prefix != "" {
      assert a != "" && b[0] == prefix[0];
      assert a[0] == prefix[0];
      assert HasPrefix(b[1..], prefix[1..]);
      PrefixContiguous(a[1..], b[1..], prefix[1..]);
      assert a == [a[0]] + a[1..] && prefix == [prefix[0]] + prefix[1..];
    }
  }

  ghost predicate Enumerates(keys: seq<string>, kv: Kv) {
    Ordered(keys) && forall k :: k in keys <==> k in kv
  }

  /** The listing is the records of `repo`, each once. */
  ghost predicate ListsExactly(records: seq<MountRecord>, repo: Repo) {
    && (forall i :: 0 <= i < |records| ==>
          records[i].info.id in repo.records && repo.records[records[i].info.id] == records[i])
    && (forall i, j :: 0 <= i < j < |records| ==> records[i].info.id != records[j].info.id)
    && (forall id :: id in repo.records ==> repo.records[id] in records)
  }

  /** `keys[lo..hi]` is the run of mount keys, and `records` are their values. */
  ghost predicate Window(kv: Kv, keys: seq<string>, lo: nat, hi: nat, records: seq<MountRecord>) {
    && lo <= hi <= |keys| && |records| == hi - lo
    && (forall i :: 0 <= i < lo ==> !HasPrefix(keys[i], MOUNTS))
    && (forall i :: lo <= i < hi ==>
          HasPrefix(keys[i], MOUNTS) && keys[i] in kv && kv[keys[i]] == RecordValue(records[i - lo]))
    && (forall i :: hi <= i < |keys| ==> !HasPrefix(keys[i], MOUNTS))
  }

  lemma KeyOfRecord(kv: Kv, repo: Repo, key: string)
    requires HoldsRecords(kv, repo.records) && key in kv && HasPrefix(key, MOUNTS)
    ensures var id := key[|MOUNTS|..];
      key == MountKey(id) && id in repo.records && kv[key] == RecordValue(repo.records[id])
      && repo.records[id].info.id == id
  {
    assert key == MountKey(key[|MOUNTS|..]);
    assert HoldsRecord(kv, key[|MOUNTS|..], repo.records[key[|MOUNTS|..]]);
  }

  lemma WindowIsExact(kv: Kv, repo: Repo, keys: seq<string>, lo: nat, hi: nat, records: seq<MountRecord>)
    requires HoldsRecords(kv, repo.records) && Enumerates(keys, kv) && Window(kv, keys, lo, hi, records)
    ensures ListsExactly(records, repo)
  {
    forall i | 0 <= i < |records|
      ensures records[i].info.id in repo.records && repo.records[records[i].info.id] == records[i]
      ensures keys[lo + i] == MountKey(records[i].info.id)
    {
      KeyOfRecord(kv, repo, keys[lo + i]);
    }
    forall i, j | 0 <= i < j < |records|
      ensures records[i].info.id != records[j].info.id
    {
      assert Less(keys[lo + i], keys[lo + j]);
      LessIrreflexive(keys[lo + i]);
    }
    forall id | id in repo.records
      ensures repo.records[id] in records
    {
      assert MountKey(id) in keys && HasPrefix(MountKey(id), MOUNTS);
      var i :| 0 <= i < |keys| && keys[i] == MountKey(id);
      assert lo <= i < hi;
      assert HoldsRecord(kv, id, repo.records[id]);
      assert records[i - lo] == repo.records[id];
    }
  }

  // ---------------------------------------------------------------- the object

  class MountRepository {
    var kv: Kv

    constructor ()
      ensures kv == map[SCHEMA_VERSION := VersionValue(1)] && Represents(kv, EMPTY)
    {
      kv := map[SCHEMA_VERSION := VersionValue(1)];
      new;
      forall id, p | Bytes(p)
        ensures MountKey(id) != SCHEMA_VERSION && PathKey(p) != SCHEMA_VERSION
      {
        KeySpacesDisjoint(id, p);
      }
      forall id
        ensures MountKey(id) != SCHEMA_VERSION
      {
        KeySpacesDisjoint(id, "");
      }
    }

    /** db.Update: others commit first, then the transaction runs and commits, conflicts or fails. */
    method Try(op: Op, turn: Turn) returns (result: WriteResult)
      requires ByteOp(op) && ByteOps(turn.others)
      modifies this
      ensures Tried(old(kv), op, turn, result, kv)
    {
      kv := Replay(kv, turn.others);
      var verdict := Execute(kv, op);
      if turn.commit == Faults {
        return WriteFailed(StorageFault);
      } else if verdict.Abort? {
        return WriteFailed(verdict.error);
      } else if turn.commit == Conflicts && verdict.writes {
        return WriteFailed(Conflict);
      }
      kv := verdict.kv;
      return Written;
    }

    method UpdateWithConflictRetry(op: Op, turns: nat -> Turn) returns (result: WriteResult, ghost n: nat)
      requires ByteOp(op) && ByteTurns(turns)
      modifies this
      ensures Ended(old(kv), op, turns, n, result, kv)
    {
      result, n := Written, 0;  // what a loop of no turns would report
      var attempt := 0;
      while attempt < MAX_CONFLICT_RETRIES
        invariant 0 <= attempt <= MAX_CONFLICT_RETRIES && n == attempt
        invariant Conflicted(old(kv), op, turns, attempt, kv)
        invariant attempt == MAX_CONFLICT_RETRIES ==> Ended(old(kv), op, turns, n, result, kv)
      {
        ghost var before := kv;
        result := Try(op, turns(attempt));
        n := attempt + 1;
        TriedEnds(old(kv), before, op, turns, attempt, result, kv);
        if result != WriteFailed(Conflict) {
          return;
        }
        attempt := attempt + 1;
      }
    }

    method Create(record: MountRecord, cancelled: bool, turns: nat -> Turn) returns (result: WriteResult, ghost n: nat)
      requires ByteOp(DoCreate(record)) && ByteTurns(turns)
      modifies this
      ensures cancelled ==> result == WriteFailed(Cancelled) && kv == old(kv)
      ensures !cancelled && !ValidForWrite(record) ==> result == WriteFailed(Refused(Invalid)) && kv == old(kv)
      ensures !cancelled && ValidForWrite(record) ==> Ended(old(kv), DoCreate(record), turns, n, result, kv)
    {
      n := 0;
      if cancelled {
        result := WriteFailed(Cancelled);
      } else if !ValidForWrite(record) {
        result := WriteFailed(Refused(Invalid));
      } else {
        result, n := UpdateWithConflictRetry(DoCreate(record), turns);
      }
    }

    method Update(record: MountRecord, cancelled: bool, turns: nat -> Turn) returns (result: WriteResult, ghost n: nat)
      requires ByteOp(DoUpdate(record)) && ByteTurns(turns)
      modifies this
      ensures cancelled ==> result == WriteFailed(Cancelled) && kv == old(kv)
      ensures !cancelled && !ValidForWrite(record) ==> result == WriteFailed(Refused(Invalid)) && kv == old(kv)
      ensures !cancelled && ValidForWrite(record) ==> Ended(old(kv), DoUpdate(record), turns, n, result, kv)
    {
      n := 0;
      if cancelled {
        result := WriteFailed(Cancelled);
      } else if !ValidForWrite(record) {
        result := WriteFailed(Refused(Invalid));
      } else {
        result, n := UpdateWithConflictRetry(DoUpdate(record), turns);
      }
    }

    method Delete(id: string, cancelled: bool, turns: nat -> Turn) returns (result: WriteResult, ghost n: nat)
      requires ByteTurns(turns)
      modifies this
      ensures cancelled ==> result == WriteFailed(Cancelled) && kv == old(kv)
      ensures !cancelled && id == "" ==> result == WriteFailed(Refused(Invalid)) && kv == old(kv)
      ensures !cancelled && id != "" ==> Ended(old(kv), DoDelete(id), turns, n, result, kv)
    {
      n := 0;
      if cancelled {
        result := WriteFailed(Cancelled);
      } else if id == "" {
        result := WriteFailed(Refused(Invalid));
      } else {
        result, n := UpdateWithConflictRetry(DoDelete(id), turns);
      }
    }

    /** Seek to the prefix, then read while the prefix lasts; `keys` is the store's iteration order. */
    method List(keys: seq<string>) returns (r: Option<seq<MountRecord>>)
      requires Enumerates(keys, kv)
      ensures r.Some? ==> forall repo: Repo :: HoldsRecords(kv, repo.records) ==> ListsExactly(r.value, repo)
      ensures r.None? ==> exists k :: k in kv && HasPrefix(k, MOUNTS) && !kv[k].RecordValue?
    {
      var i := 0;
      while i < |keys| && Less(keys[i], MOUNTS)
        invariant 0 <= i <= |keys|
        invariant forall j :: 0 <= j < i ==> Less(keys[j], MOUNTS)
      {
        i := i + 1;
      }
      ghost var lo := i;
      forall j | 0 <= j < lo
        ensures !HasPrefix(keys[j], MOUNTS)
      {
        if HasPrefix(keys[j], MOUNTS) {
          PrefixNotBelow(keys[j], MOUNTS);
        }
      }
      var records: seq<MountRecord> := [];
      while i < |keys| && HasPrefix(keys[i], MOUNTS)
        invariant lo <= i <= |keys| && |records| == i - lo
        invariant forall j :: lo <= j < i ==>
          HasPrefix(keys[j], MOUNTS) && keys[j] in kv && kv[keys[j]] == RecordValue(records[j - lo])
      {
        assert keys[i] in kv;
        if !kv[keys[i]].RecordValue? {
          return None;
        }
        records := records + [kv[keys[i]].record];
        i := i + 1;
      }
      NoPrefixBeyond(keys, lo, i);
      assert Window(kv, keys, lo, i, records);
      forall repo: Repo | HoldsRecords(kv, repo.records)
        ensures ListsExactly(records, repo)
      {
        WindowIsExact(kv, repo, keys, lo, i, records);
      }
      r := Some(records);
    }
  }

  lemma NoPrefixBeyond(keys: seq<string>, lo: nat, hi: nat)
    requires Ordered(keys) && lo <= hi <= |keys|
    requires lo < |keys| ==> !Less(keys[lo], MOUNTS)
    requires hi < |keys| ==> !HasPrefix(keys[hi], MOUNTS)
    ensures forall j :: hi <= j < |keys| ==> !HasPrefix(keys[j], MOUNTS)
  {
    forall j | hi <= j < |keys|
      ensures !HasPrefix(keys[j], MOUNTS)
    {
      if j > hi && HasPrefix(keys[j], MOUNTS) {
        NotBelow(keys, lo, hi, MOUNTS);
        PrefixContiguous(keys[hi], keys[j], MOUNTS);
      }
    }
  }

  lemma {:induction false} LessTransitive(a: string, b: string, c: string)
    requires Less(a, b) && Less(b, c)
    ensures Less(a, c)
    decreases |a|
  {
    if a != "" && a[0] == b[0] && b[0] == c[0] {
      LessTransitive(a[1..], b[1..], c[1..]);
    }
  }

  lemma NotBelow(keys: seq<string>, lo: nat, hi: nat, bound: string)
    requires Ordered(keys) && lo <= hi < |keys| && !Less(keys[lo], bound)
    ensures !Less(keys[hi], bound)
  {
    if lo < hi && Less(keys[hi], bound) {
      LessTransitive(keys[lo], keys[hi], bound);
    }
  }
}
