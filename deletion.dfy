/** The delete-resource mutation shared by the admin panel and the dashboard: look the id up
    in the list the page loaded, remove the stored file, then delete the row; the first
    failure ends the mutation. */
module Deletion {
  import opened Records
  import opened Store

  /** `list.find(r => r.id === id)`: the first loaded row with that id. */
  function FindById(list: seq<Resource>, id: ResourceId): (found: Option<Resource>)
    ensures found.None? <==> forall r :: r in list ==> r.id != id
    ensures found.Some? ==> found.value in list && found.value.id == id
    ensures found.Some? ==> exists k :: 0 <= k < |list| && list[k] == found.value
                                        && forall j :: 0 <= j < k ==> list[j].id != id
  {
    if list == [] then None
    else if list[0].id == id then Some(list[0])
    else
      var found := FindById(list[1..], id);
      assert forall r :: r in list ==> r == list[0] || r in list[1..];
      if found.Some? then
        var k :| 0 <= k < |list[1..]| && list[1..][k] == found.value
                 && forall j :: 0 <= j < k ==> list[1..][j].id != id;
        assert list[k + 1] == found.value;
        assert forall j :: 0 <= j < k + 1 ==> list[j].id != id;
        found
      else
        found
  }

  /** What a delete leads to. */
  datatype DeleteOutcome = Deleted | NotFound | StorageError | DatabaseError

  /** The outcome of deleting `id` with `loaded` on screen, and the backend's new state.
      A row that is found has its file removed first; its row is deleted only after that
      succeeds. A failed row delete leaves the row behind with its file already gone. */
  ghost predicate DeleteEffect(
    loaded: Option<seq<Resource>>, id: ResourceId,
    blobs: map<string, FileDesc>, rows: map<ResourceId, Resource>, calls: seq<Call>,
    removeAccept: bool, deleteAccept: bool,
    outcome: DeleteOutcome,
    blobs': map<string, FileDesc>, rows': map<ResourceId, Resource>, calls': seq<Call>)
  {
    match FindById(loaded.GetOr([]), id)
    case None =>
      outcome == NotFound && blobs' == blobs && rows' == rows && calls' == calls
    case Some(r) =>
      && outcome == (if !removeAccept then StorageError else if !deleteAccept then DatabaseError else Deleted)
      && blobs' == (if removeAccept then blobs - {r.fileUrl} else blobs)
      && rows' == (if removeAccept && deleteAccept then rows - {id} else rows)
      && calls' == calls + (if removeAccept then [RemoveBlob(r.fileUrl), DeleteRow(id)] else [RemoveBlob(r.fileUrl)])
  }

  /** `deleteResourceMutation.mutationFn(id)`. `loaded` is the page's list (absent until the
      query has answered); the flags are the storage service's and the table's verdicts. */
  method DeleteResource(loaded: Option<seq<Resource>>, id: ResourceId, db: Backend,
                        removeAccept: bool, deleteAccept: bool)
    returns (outcome: DeleteOutcome)
    requires db.Valid()
    modifies db
    ensures db.Valid()
    ensures DeleteEffect(loaded, id, old(db.blobs), old(db.rows), old(db.calls),
                         removeAccept, deleteAccept, outcome, db.blobs, db.rows, db.calls)
    ensures outcome == Deleted ==> forall k :: k in db.rows ==> db.rows[k].id != id
  {
    var found := FindById(loaded.GetOr([]), id);
    if found.None? {
      return NotFound;
    }
    var resource := found.value;
    var removed := db.Remove(resource.fileUrl, removeAccept);
    if !removed {
      return StorageError;
    }
    var deleted := db.Delete(id, deleteAccept);
    assert db.calls == old(db.calls) + [RemoveBlob(resource.fileUrl), DeleteRow(id)];
    outcome := if deleted then Deleted else DatabaseError;
  }

  /** A completed delete removes exactly the row's file and the row, and nothing else. */
  lemma DeletedMeansBothGone(
    loaded: Option<seq<Resource>>, id: ResourceId,
    blobs: map<string, FileDesc>, rows: map<ResourceId, Resource>, calls: seq<Call>,
    removeAccept: bool, deleteAccept: bool,
    blobs': map<string, FileDesc>, rows': map<ResourceId, Resource>, calls': seq<Call>)
    requires DeleteEffect(loaded, id, blobs, rows, calls, removeAccept, deleteAccept, Deleted, blobs', rows', calls')
    ensures FindById(loaded.GetOr([]), id).Some?
    ensures var r := FindById(loaded.GetOr([]), id).value;
            && r.fileUrl !in blobs' && id !in rows'
            && (forall k :: k in blobs && k != r.fileUrl ==> k in blobs' && blobs'[k] == blobs[k])
            && (forall k :: k in rows && k != id ==> k in rows' && rows'[k] == rows[k])
            && blobs'.Keys <= blobs.Keys && rows'.Keys <= rows.Keys
  {
  }

  /** A failed file removal leaves the bucket and the table untouched, and the removal is the
      only call made. */
  lemma StorageErrorKeepsRow(
    loaded: Option<seq<Resource>>, id: ResourceId,
    blobs: map<string, FileDesc>, rows: map<ResourceId, Resource>, calls: seq<Call>,
    removeAccept: bool, deleteAccept: bool, outcome: DeleteOutcome,
    blobs': map<string, FileDesc>, rows': map<ResourceId, Resource>, calls': seq<Call>)
    requires DeleteEffect(loaded, id, blobs, rows, calls, removeAccept, deleteAccept, outcome, blobs', rows', calls')
    requires !removeAccept
    ensures outcome != Deleted
    ensures rows' == rows && blobs' == blobs
    ensures FindById(loaded.GetOr([]), id).None? ==> calls' == calls
    ensures FindById(loaded.GetOr([]), id).Some? ==>
              calls' == calls + [RemoveBlob(FindById(loaded.GetOr([]), id).value.fileUrl)]
  {
  }
}
