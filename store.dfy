/** The hosted backend as the pages see it: the `educational-resources` storage bucket
    (a map from storage key to the stored file) and the `resources` table (a map from
    row id to row). Each remote operation takes an `accept` flag that stands for the
    service's own verdict (network, policy, quota): the operation fails when it is false.
    `calls` records, in order, every remote call the pages issue. */
module Store {
  import opened Records

  /** A remote call issued against the bucket, the table or the counter procedure. */
  datatype Call =
    | UploadBlob(key: string)
    | InsertRow(id: ResourceId)
    | RemoveBlob(key: string)
    | DeleteRow(id: ResourceId)
    | IncrementDownloads(id: ResourceId)

  /** The row stored under `id` with its download counter raised by one. */
  function Bumped(rows: map<ResourceId, Resource>, id: ResourceId): (r: Resource)
    requires id in rows
    ensures r.downloadCount == rows[id].downloadCount + 1
    ensures r.(downloadCount := rows[id].downloadCount) == rows[id]
  {
    rows[id].(downloadCount := rows[id].downloadCount + 1)
  }

  class Backend {
    var blobs: map<string, FileDesc>
    var rows: map<ResourceId, Resource>
    var calls: seq<Call>

    /** Every row is stored under its own primary key. */
    ghost predicate Valid()
      reads this
    {
      forall id :: id in rows ==> rows[id].id == id
    }

    constructor ()
      ensures Valid()
      ensures blobs == map[] && rows == map[] && calls == []
    {
      blobs := map[];
      rows := map[];
      calls := [];
    }

    /** `storage.upload(key, file)`: refused when the key is already taken (no upsert). */
    method Upload(key: string, file: FileDesc, accept: bool) returns (ok: bool)
      requires Valid()
      modifies this
      ensures Valid()
      ensures ok == (accept && key !in old(blobs))
      ensures blobs == if ok then old(blobs)[key := file] else old(blobs)
      ensures rows == old(rows)
      ensures calls == old(calls) + [UploadBlob(key)]
    {
      ok := accept && key !in blobs;
      if ok {
        blobs := blobs[key := file];
      }
      calls := calls + [UploadBlob(key)];
    }

    /** `from('resources').insert(row)`: refused when the primary key is already taken. */
    method Insert(row: Resource, accept: bool) returns (ok: bool)
      requires Valid()
      modifies this
      ensures Valid()
      ensures ok == (accept && row.id !in old(rows))
      ensures rows == if ok then old(rows)[row.id := row] else old(rows)
      ensures blobs == old(blobs)
      ensures calls == old(calls) + [InsertRow(row.id)]
    {
      ok := accept && row.id !in rows;
      if ok {
        rows := rows[row.id := row];
      }
      calls := calls + [InsertRow(row.id)];
    }

    /** `storage.remove([key])`: removing an absent key succeeds and changes nothing. */
    method Remove(key: string, accept: bool) returns (ok: bool)
      requires Valid()
      modifies this
      ensures Valid()
      ensures ok == accept
      ensures blobs == if ok then old(blobs) - {key} else old(blobs)
      ensures rows == old(rows)
      ensures calls == old(calls) + [RemoveBlob(key)]
    {
      ok := accept;
      if ok {
        blobs := blobs - {key};
      }
      calls := calls + [RemoveBlob(key)];
    }

    /** `from('resources').delete().eq('id', id)`: deleting an absent id succeeds and changes nothing. */
    method Delete(id: ResourceId, accept: bool) returns (ok: bool)
      requires Valid()
      modifies this
      ensures Valid()
      ensures ok == accept
      ensures rows == if ok then old(rows) - {id} else old(rows)
      ensures blobs == old(blobs)
      ensures calls == old(calls) + [DeleteRow(id)]
    {
      ok := accept;
      if ok {
        rows := rows - {id};
      }
      calls := calls + [DeleteRow(id)];
    }

    /** `rpc('increment_download_count', { resource_id: id })`. The procedure's body is not
        part of this model: it either raises the row's counter by one or leaves the table as it was. */
    method IncrementDownloadCount(id: ResourceId, accept: bool) returns (ok: bool)
      requires Valid()
      modifies this
      ensures Valid()
      ensures ok == (accept && id in old(rows))
      ensures rows == if ok then old(rows)[id := Bumped(old(rows), id)] else old(rows)
      ensures blobs == old(blobs)
      ensures calls == old(calls) + [IncrementDownloads(id)]
    {
      ok := accept && id in rows;
      if ok {
        rows := rows[id := Bumped(rows, id)];
      }
      calls := calls + [IncrementDownloads(id)];
    }
  }
}
