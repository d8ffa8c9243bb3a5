/**
 * Who may write which record: the daemon with each entry reduced to what durability depends on.
 * `Durable` refines this machine, and its invariant is proved here, record by record: `foreign` holds the IDs
 * whose record an entry that does not own it has overwritten in this life of the process.
 */
module Ledger {
  import opened MountTypes
  import opened Repository

  /** One entry object. `path` is its cleaned mount path; `idle`: no goroutine or timer, and no child to come. */
  datatype Face = Face(
    id: string, config: MountConfig, path: string, owns: bool, registered: bool, unmounting: bool, accepted: bool,
    superseded: bool, idle: bool)

  datatype Phase = Down | Booting | Serving

  datatype Book = Book(
    repo: Repo, faces: seq<Face>, registry: map<string, nat>, phase: Phase, listed: set<MountRecord>,
    final: set<string>, hasty: set<string>, foreign: set<string>, moved: bool)

  // ---------------------------------------------------------------- the invariant

  predicate FaceOk(f: Face) {
    && (f.accepted ==> f.superseded && f.unmounting)
    && (f.unmounting ==> f.superseded)
    && (!f.registered ==> f.accepted)
    && (!f.owns ==> f.accepted || f.idle)
  }

  predicate FacesOk(b: Book) {
    forall i :: 0 <= i < |b.faces| ==> FaceOk(b.faces[i])
  }

  predicate RegistryOk(b: Book) {
    && (forall id :: id in b.registry ==>
          b.registry[id] < |b.faces| && b.faces[b.registry[id]].id == id && b.faces[b.registry[id]].registered)
    && (forall i :: 0 <= i < |b.faces| && b.faces[i].registered ==>
          b.faces[i].id in b.registry && b.registry[b.faces[i].id] == i)
  }

  predicate PhaseOk(b: Book) {
    && (b.phase == Down ==> b.faces == [] && b.registry == map[] && b.listed == {})
    && (b.phase == Booting ==> forall i :: 0 <= i < |b.faces| ==>
          b.faces[i].registered && !b.faces[i].superseded && b.faces[i].owns)
    && (b.phase != Serving ==> b.foreign == {})
    && (forall r :: r in b.listed && !r.tombstone ==> b.phase == Booting)
  }

  /** The record of an owner has its configuration, and is final exactly when its Unmount was accepted. */
  predicate HoldsRight(b: Book, f: Face) {
    && f.id in b.repo.records
    && (f.id !in b.foreign ==>
          && b.repo.records[f.id].info.config == f.config
          && (f.accepted <==> f.id in b.final)
          && (f.id in b.hasty ==> f.superseded))
  }

  ghost predicate OwnersOk(b: Book) {
    && (forall i :: 0 <= i < |b.faces| && b.faces[i].owns ==> HoldsRight(b, b.faces[i]))
    && (forall i, j :: 0 <= i < j < |b.faces| && b.faces[i].owns && b.faces[j].owns ==> b.faces[i].id != b.faces[j].id)
    && (forall i :: 0 <= i < |b.faces| && b.faces[i].registered && !b.faces[i].owns && b.faces[i].accepted ==>
          b.faces[i].id !in b.foreign ==> b.faces[i].id !in b.repo.records)
  }

  predicate Tombstone(b: Book, id: string) {
    id in b.repo.records && b.repo.records[id].tombstone
  }

  /** The tombstones are those that are final and those written while an Unmount was in flight. */
  ghost predicate MarksOk(b: Book) {
    forall id :: id !in b.foreign ==>
      && (Tombstone(b, id) <==> id in b.final || id in b.hasty)
      && !(id in b.final && id in b.hasty)
  }

  /** Nothing reconciliation has listed can make it touch an ordinary record, or remount a changed one. */
  ghost predicate ListedOk(b: Book) {
    && (forall r :: r in b.listed && r.tombstone && r.info.id !in b.registry && r.info.id in b.repo.records ==>
          r.info.id !in b.foreign ==> b.repo.records[r.info.id].tombstone)
    && (forall r :: r in b.listed && !r.tombstone && r.info.id !in b.registry ==>
          r.info.id in b.repo.records && b.repo.records[r.info.id] == r)
    && (forall r1, r2 :: r1 in b.listed && r2 in b.listed && r1.info.id == r2.info.id ==> r1 == r2)
  }

  predicate PathsDistinct(b: Book)
    requires RegistryOk(b)
  {
    forall x, y :: x in b.registry && y in b.registry && x != y ==>
      b.faces[b.registry[x]].path != b.faces[b.registry[y]].path
  }

  ghost predicate Shape(b: Book) {
    FacesOk(b) && RegistryOk(b) && PhaseOk(b) && (!b.moved ==> PathsDistinct(b))
  }

  ghost predicate Rights(b: Book) {
    OwnersOk(b) && MarksOk(b) && ListedOk(b)
  }

  ghost predicate RepoOk(b: Book) {
    Keyed(b.repo) && (!b.moved ==> Consistent(b.repo))
  }

  ghost predicate Inv(b: Book) {
    Shape(b) && Rights(b) && RepoOk(b)
  }

  // ---------------------------------------------------------------- steps of an entry

  /** `f` and `g` are the same entry, with the same rights. */
  predicate SameRights(f: Face, g: Face) {
    && g.id == f.id && g.config == f.config && g.path == f.path
    && g.owns == f.owns && g.registered == f.registered && g.accepted == f.accepted
  }

  predicate CanMove(b: Book, i: nat, g: Face) {
    && i < |b.faces| && b.phase != Down && FaceOk(g)
    && (g.superseded == b.faces[i].superseded || b.phase == Serving) && (b.faces[i].superseded ==> g.superseded)
  }

  lemma MoveKeeps(b: Book, i: nat, g: Face)
    requires Inv(b) && CanMove(b, i, g) && SameRights(b.faces[i], g)
    ensures Inv(b.(faces := b.faces[i := g]))
  {
    MoveKeepsShape(b, i, g);
    MoveKeepsRights(b, i, g);
  }

  lemma MoveKeepsShape(b: Book, i: nat, g: Face)
    requires Shape(b) && CanMove(b, i, g) && SameRights(b.faces[i].(owns := g.owns, accepted := g.accepted), g)
    requires b.phase == Booting ==> g.owns
    ensures Shape(b.(faces := b.faces[i := g]))
  {
    assert PhaseOk(b.(faces := b.faces[i := g]));
  }

  lemma MoveKeepsRights(b: Book, i: nat, g: Face)
    requires Rights(b) && CanMove(b, i, g) && SameRights(b.faces[i], g)
    ensures Rights(b.(faces := b.faces[i := g]))
  {
    var b' := b.(faces := b.faces[i := g]);
    assert MarksOk(b') && ListedOk(b');
    forall j | 0 <= j < |b'.faces| && b'.faces[j].owns
      ensures HoldsRight(b', b'.faces[j])
    {
      assert HoldsRight(b, b.faces[j]);
    }
  }

  function Created(b: Book, i: nat, record: MountRecord, g: Face): Book
    requires i < |b.faces| && Create(b.repo, record).Stored?
  {
    b.(repo := Create(b.repo, record).repo, faces := b.faces[i := g])
  }

  predicate Writes(f: Face, record: MountRecord) {
    record.info.id == f.id && record.info.config == f.config
  }

  /** Mount's Create. A new record cannot have been overwritten before. */
  lemma CreateKeeps(b: Book, i: nat, record: MountRecord, g: Face)
    requires Inv(b) && CanMove(b, i, g) && b.faces[i].registered && !b.faces[i].accepted && !record.tombstone
    requires SameRights(b.faces[i].(owns := true), g) && Writes(b.faces[i], record) && Create(b.repo, record).Stored?
    ensures Inv(Created(b, i, record, g))
  {
    MoveKeepsShape(b, i, g);
    if !b.moved {
      CreateKeepsConsistent(b.repo, record);
    }
    CreateKeepsOwners(b, i, record, g);
    CreateKeepsMarks(b, i, record, g);
  }

  lemma CreateKeepsOwners(b: Book, i: nat, record: MountRecord, g: Face)
    requires FacesOk(b) && RegistryOk(b) && OwnersOk(b) && MarksOk(b)
    requires i < |b.faces| && b.faces[i].registered && !b.faces[i].accepted
    requires SameRights(b.faces[i].(owns := true), g) && Writes(b.faces[i], record) && Create(b.repo, record).Stored?
    ensures OwnersOk(Created(b, i, record, g))
  {
    var b' := Created(b, i, record, g);
    forall j | 0 <= j < |b.faces| && b.faces[j].owns
      ensures b.faces[j].id != record.info.id
    {
      assert HoldsRight(b, b.faces[j]);
    }
    assert record.info.id !in b.foreign ==> !Tombstone(b, record.info.id);
    forall j | 0 <= j < |b'.faces| && b'.faces[j].owns
      ensures HoldsRight(b', b'.faces[j])
    {
      assert j != i ==> HoldsRight(b, b.faces[j]);
    }
  }

  lemma CreateKeepsMarks(b: Book, i: nat, record: MountRecord, g: Face)
    requires RegistryOk(b) && MarksOk(b) && ListedOk(b) && i < |b.faces| && b.faces[i].registered
    requires Writes(b.faces[i], record) && Create(b.repo, record).Stored? && !record.tombstone
    ensures MarksOk(Created(b, i, record, g)) && ListedOk(Created(b, i, record, g))
  {
    var b' := Created(b, i, record, g);
    forall id | id !in b'.foreign
      ensures Tombstone(b', id) <==> Tombstone(b, id)
    {
    }
  }

  /** A successful Update by entry `i`: whose record it was, and what it leaves there. */
  function Updated(b: Book, i: nat, record: MountRecord, g: Face): Book
    requires i < |b.faces| && Update(b.repo, record).Stored?
  {
    var id := record.info.id;
    b.(repo := Update(b.repo, record).repo, faces := b.faces[i := g],
       final := if g.accepted && !b.faces[i].accepted then b.final + {id} else b.final,
       hasty := if record.tombstone && !g.accepted then b.hasty + {id} else b.hasty - {id},
       foreign := if b.faces[i].owns then b.foreign else b.foreign + {id},
       moved := b.moved || Path(record) != Path(b.repo.records[id]))
  }

  predicate CanUpdate(b: Book, i: nat, record: MountRecord, g: Face) {
    && CanMove(b, i, g) && Writes(b.faces[i], record) && Update(b.repo, record).Stored?
    && SameRights(b.faces[i].(accepted := g.accepted), g)
    && (b.faces[i].accepted ==> g.accepted)
    && (if b.faces[i].accepted == g.accepted then record.tombstone == b.faces[i].unmounting
        else record.tombstone && b.phase == Serving && b.faces[i].registered)
  }

  lemma UpdateKeeps(b: Book, i: nat, record: MountRecord, g: Face)
    requires Inv(b) && CanUpdate(b, i, record, g)
    ensures Inv(Updated(b, i, record, g))
  {
    UpdateKeepsShape(b, i, record, g);
    UpdateKeepsRepo(b, i, record, g);
    UpdateKeepsOwners(b, i, record, g);
    UpdateKeepsMarks(b, i, record, g);
    UpdateKeepsListed(b, i, record, g);
  }

  lemma UpdateKeepsShape(b: Book, i: nat, record: MountRecord, g: Face)
    requires Shape(b) && CanUpdate(b, i, record, g)
    ensures Shape(Updated(b, i, record, g))
  {
    MoveKeepsShape(b, i, g);
    assert PhaseOk(b.(faces := b.faces[i := g]));
  }

  lemma UpdateKeepsRepo(b: Book, i: nat, record: MountRecord, g: Face)
    requires RepoOk(b) && i < |b.faces| && Update(b.repo, record).Stored?
    ensures RepoOk(Updated(b, i, record, g))
  {
    if !b.moved {
      UpdateKeepsConsistentIff(b.repo, record);
    }
  }

  lemma UpdateKeepsOwners(b: Book, i: nat, record: MountRecord, g: Face)
    requires FacesOk(b) && RegistryOk(b) && OwnersOk(b) && MarksOk(b) && CanUpdate(b, i, record, g)
    ensures OwnersOk(Updated(b, i, record, g))
  {
    var b' := Updated(b, i, record, g);
    forall j | 0 <= j < |b'.faces| && b'.faces[j].owns
      ensures HoldsRight(b', b'.faces[j])
    {
      assert HoldsRight(b, b.faces[j]);
      if j != i && b.faces[j].id == record.info.id {
        assert !b.faces[i].owns;
      }
    }
  }

  lemma UpdateKeepsMarks(b: Book, i: nat, record: MountRecord, g: Face)
    requires FacesOk(b) && OwnersOk(b) && MarksOk(b) && CanUpdate(b, i, record, g)
    ensures MarksOk(Updated(b, i, record, g))
  {
    var b' := Updated(b, i, record, g);
    var own := record.info.id;
    if b.faces[i].owns {
      assert HoldsRight(b, b.faces[i]);
    }
    forall id | id !in b'.foreign
      ensures Tombstone(b', id) <==> id in b'.final || id in b'.hasty
      ensures !(id in b'.final && id in b'.hasty)
    {
      assert id != own ==> (Tombstone(b', id) <==> Tombstone(b, id));
    }
  }

  lemma UpdateKeepsListed(b: Book, i: nat, record: MountRecord, g: Face)
    requires FacesOk(b) && RegistryOk(b) && PhaseOk(b) && ListedOk(b) && CanUpdate(b, i, record, g)
    ensures ListedOk(Updated(b, i, record, g))
  {
  }

  function Disown(faces: seq<Face>, id: string): (r: seq<Face>)
    ensures |r| == |faces|
    ensures forall i :: 0 <= i < |r| ==> r[i] == faces[i].(owns := faces[i].owns && faces[i].id != id)
  {
    seq(|faces|, i requires 0 <= i < |faces| => faces[i].(owns := faces[i].owns && faces[i].id != id))
  }

  function Deleted(b: Book, id: string): Book {
    var outcome := Delete(b.repo, id);
    if outcome.Stored? then
      b.(repo := outcome.repo, faces := Disown(b.faces, id), final := b.final - {id}, hasty := b.hasty - {id},
         foreign := b.foreign - {id})
    else b
  }

  /** The ID is managed by nobody, or by an entry that is being removed. */
  predicate CanDelete(b: Book, id: string) {
    && (forall i :: 0 <= i < |b.faces| && b.faces[i].id == id ==> b.faces[i].accepted && b.phase == Serving)
    && (forall r :: r in b.listed && !r.tombstone ==> r.info.id != id)
  }

  lemma DeleteKeeps(b: Book, id: string)
    requires Inv(b) && CanDelete(b, id)
    ensures Inv(Deleted(b, id))
  {
    if Delete(b.repo, id).Stored? {
      DeleteKeepsShape(b, id);
      if !b.moved {
        DeleteKeepsConsistent(b.repo, id);
      }
      DeleteKeepsOwners(b, id);
      DeleteKeepsMarks(b, id);
    }
  }

  lemma DeleteKeepsShape(b: Book, id: string)
    requires Shape(b) && CanDelete(b, id)
    ensures Shape(Deleted(b, id))
  {
  }

  lemma DeleteKeepsOwners(b: Book, id: string)
    requires OwnersOk(b) && Delete(b.repo, id).Stored?
    ensures OwnersOk(Deleted(b, id))
  {
    var b' := Deleted(b, id);
    forall j | 0 <= j < |b'.faces| && b'.faces[j].owns
      ensures HoldsRight(b', b'.faces[j])
    {
      assert b'.faces[j] == b.faces[j] && HoldsRight(b, b.faces[j]);
    }
  }

  lemma DeleteKeepsMarks(b: Book, id: string)
    requires MarksOk(b) && ListedOk(b) && CanDelete(b, id) && Delete(b.repo, id).Stored?
    ensures MarksOk(Deleted(b, id)) && ListedOk(Deleted(b, id))
  {
    var b' := Deleted(b, id);
    forall x | x !in b'.foreign && x != id
      ensures x !in b.foreign && (Tombstone(b', x) <==> Tombstone(b, x))
    {
    }
  }

  function Unregistered(b: Book, i: nat, g: Face): Book
    requires i < |b.faces|
  {
    b.(faces := b.faces[i := g], registry := b.registry - {g.id})
  }

  lemma UnregisterKeeps(b: Book, i: nat, g: Face)
    requires Inv(b) && CanMove(b, i, g) && SameRights(b.faces[i].(registered := false), g)
    requires b.phase == Serving && b.faces[i].registered && b.faces[i].accepted
    ensures Inv(Unregistered(b, i, g))
  {
    UnregisterKeepsShape(b, i, g);
    UnregisterKeepsOwners(b, i, g);
    UnregisterKeepsListed(b, i, g);
  }

  lemma UnregisterKeepsShape(b: Book, i: nat, g: Face)
    requires Shape(b) && CanMove(b, i, g) && SameRights(b.faces[i].(registered := false), g)
    requires b.phase == Serving && b.faces[i].registered
    ensures Shape(Unregistered(b, i, g))
  {
  }

  lemma UnregisterKeepsOwners(b: Book, i: nat, g: Face)
    requires OwnersOk(b) && MarksOk(b) && CanMove(b, i, g) && SameRights(b.faces[i].(registered := false), g)
    ensures OwnersOk(Unregistered(b, i, g)) && MarksOk(Unregistered(b, i, g))
  {
    var b' := Unregistered(b, i, g);
    forall j | 0 <= j < |b'.faces| && b'.faces[j].owns
      ensures HoldsRight(b', b'.faces[j])
    {
      assert HoldsRight(b, b.faces[j]);
    }
    assert forall id :: Tombstone(b', id) <==> Tombstone(b, id);
  }

  /** The record left behind, if any, is a tombstone. */
  lemma UnregisterKeepsListed(b: Book, i: nat, g: Face)
    requires Shape(b) && Rights(b) && CanMove(b, i, g) && SameRights(b.faces[i].(registered := false), g)
    requires b.phase == Serving && b.faces[i].registered && b.faces[i].accepted
    ensures ListedOk(Unregistered(b, i, g))
  {
    var id := b.faces[i].id;
    if b.faces[i].owns {
      assert HoldsRight(b, b.faces[i]);
    }
    assert id !in b.foreign && id in b.repo.records ==> Tombstone(b, id);
  }

  // ---------------------------------------------------------------- new entries

  function Added(b: Book, g: Face): Book {
    b.(faces := b.faces + [g], registry := b.registry[g.id := |b.faces|])
  }

  /** Mount: a new entry that does not own a record yet. */
  lemma MountKeeps(b: Book, g: Face)
    requires Inv(b) && b.phase == Serving && g.id !in b.registry
    requires FaceOk(g) && g.registered && !g.owns && !g.accepted
    requires forall id :: id in b.registry ==> b.faces[b.registry[id]].path != g.path
    ensures Inv(Added(b, g))
  {
    AddKeepsShape(b, g);
    AddKeepsOwners(b, g);
    assert ListedOk(Added(b, g));
  }

  lemma AddKeepsShape(b: Book, g: Face)
    requires Shape(b) && b.phase != Down && g.id !in b.registry && FaceOk(g) && g.registered
    requires b.phase == Booting ==> g.owns && !g.superseded
    requires !b.moved ==> forall id :: id in b.registry ==> b.faces[b.registry[id]].path != g.path
    ensures Shape(Added(b, g))
  {
  }

  lemma AddKeepsOwners(b: Book, g: Face)
    requires OwnersOk(b) && MarksOk(b) && (!g.owns ==> !g.accepted)
    requires g.owns ==> HoldsRight(b, g) && forall i :: 0 <= i < |b.faces| ==> b.faces[i].id != g.id
    ensures OwnersOk(Added(b, g)) && MarksOk(Added(b, g))
  {
    var b' := Added(b, g);
    forall j | 0 <= j < |b'.faces| && b'.faces[j].owns
      ensures HoldsRight(b', b'.faces[j])
    {
      assert if j < |b.faces| then HoldsRight(b, b.faces[j]) else b'.faces[j] == g;
    }
    assert forall id :: Tombstone(b', id) <==> Tombstone(b, id);
  }

  /** remount: a new entry for a listed ordinary record. */
  lemma RemountKeeps(b: Book, g: Face, record: MountRecord)
    requires Inv(b) && record in b.listed && !record.tombstone && record.info.id !in b.registry
    requires FaceOk(g) && g.registered && g.owns && !g.accepted && !g.superseded && Writes(g, record)
    requires !b.moved ==> forall id :: id in b.registry ==> b.faces[b.registry[id]].path != g.path
    requires b.phase == Booting
    ensures Inv(Added(b, g))
  {
    AddKeepsShape(b, g);
    assert b.repo.records[g.id] == record && !Tombstone(b, g.id);
    assert forall i :: 0 <= i < |b.faces| ==> b.faces[i].id != g.id;
    AddKeepsOwners(b, g);
    assert ListedOk(Added(b, g));
  }

  // ---------------------------------------------------------------- starting, listing, crashing

  function Listing(repo: Repo, restore: bool): set<MountRecord> {
    set id | id in repo.records && (restore || repo.records[id].tombstone) :: repo.records[id]
  }

  function Tombstones(repo: Repo): set<string> {
    set id | id in repo.records && repo.records[id].tombstone
  }

  lemma ListKeeps(b: Book, restore: bool)
    requires Inv(b) && (if restore then b.phase == Down else b.phase != Booting)
    ensures Inv(b.(phase := if b.phase == Down then Booting else b.phase, listed := Listing(b.repo, restore)))
  {
    var b' := b.(phase := if b.phase == Down then Booting else b.phase, listed := Listing(b.repo, restore));
    assert Shape(b');
    ListingOk(b.repo, restore);
    SameMarks(b, b');
  }

  /** Who owns what does not depend on the phase or the listing. */
  lemma SameMarks(b: Book, b': Book)
    requires OwnersOk(b) && MarksOk(b)
    requires b'.repo == b.repo && b'.faces == b.faces && b'.final == b.final && b'.hasty == b.hasty
    requires b'.foreign == b.foreign
    ensures OwnersOk(b') && MarksOk(b')
  {
    forall j | 0 <= j < |b'.faces| && b'.faces[j].owns
      ensures HoldsRight(b', b'.faces[j])
    {
      assert HoldsRight(b, b.faces[j]);
    }
    assert forall id :: Tombstone(b', id) <==> Tombstone(b, id);
  }

  lemma ListingOk(repo: Repo, restore: bool)
    requires Keyed(repo)
    ensures forall r :: r in Listing(repo, restore) ==>
      r.info.id in repo.records && repo.records[r.info.id] == r && (restore || r.tombstone)
  {
  }

  lemma ServeKeeps(b: Book)
    requires Inv(b) && b.phase == Booting && b.listed == {}
    ensures Inv(b.(phase := Serving))
  {
    SameMarks(b, b.(phase := Serving));
  }

  lemma HandledKeeps(b: Book, record: MountRecord)
    requires Inv(b)
    ensures Inv(b.(listed := b.listed - {record}))
  {
    assert Shape(b.(listed := b.listed - {record}));
    SameMarks(b, b.(listed := b.listed - {record}));
  }

  lemma CrashKeeps(b: Book)
    requires Inv(b)
    ensures Inv(Book(b.repo, [], map[], Down, {}, Tombstones(b.repo), {}, {}, !Consistent(b.repo)))
  {
  }
}
