/** The signed-in user's dashboard: the list of their own uploads, its two statistics cards
    and the delete button on each row. */
module Dashboard {
  import opened Records
  import opened Seqs
  import opened Stats
  import opened Store
  import opened Deletion

  /** The dashboard's query: nothing without a user, otherwise the rows whose uploader is the
      user, ordered by `created_at` descending. */
  function OwnResources(user: Option<UserId>, table: seq<Resource>): (rs: seq<Resource>)
    ensures user.None? ==> rs == []
    ensures SortedDesc(rs, CreatedAt)
    ensures forall r :: multiset(rs)[r] == if user.Some? && r.uploaderId == user.value then multiset(table)[r] else 0
    ensures forall r :: r in rs <==> user.Some? && r in table && r.uploaderId == user.value
  {
    if user.None? then []
    else
      var rs := SortDesc(OwnedBy(table, user.value), CreatedAt);
      assert forall r :: r in rs <==> multiset(rs)[r] > 0;
      assert forall r :: r in table <==> multiset(table)[r] > 0;
      rs
  }

  /** The "Total Uploads" card and the dashboard's `totalDownloads`: the number of the user's
      own rows and the sum of their download counts; 0 for a user with none. */
  lemma {:induction false} OwnTotals(uid: UserId, table: seq<Resource>)
    ensures CountOrZero(Some(OwnResources(Some(uid), table))) == |OwnedBy(table, uid)|
    ensures TotalDownloads(Some(OwnResources(Some(uid), table))) == SumOf(OwnedBy(table, uid), DownloadsOf)
    ensures (forall r :: r in table ==> r.uploaderId != uid) ==>
              CountOrZero(Some(OwnResources(Some(uid), table))) == 0
              && TotalDownloads(Some(OwnResources(Some(uid), table))) == 0
  {
    SumOfSort(OwnedBy(table, uid), CreatedAt, DownloadsOf);
    if forall r :: r in table ==> r.uploaderId != uid {
      assert OwnedBy(table, uid) == [];
    }
  }

  /** The dashboards' download totals, added up over the users in `ids`. */
  function DashboardDownloadsSum(table: seq<Resource>, ids: seq<UserId>): nat {
    if ids == [] then 0
    else TotalDownloads(Some(OwnResources(Some(ids[0]), table))) + DashboardDownloadsSum(table, ids[1..])
  }

  lemma {:induction false} DashboardDownloadsSumIsPerUserSum(table: seq<Resource>, ids: seq<UserId>)
    ensures DashboardDownloadsSum(table, ids) == PerUserSum(table, ids, DownloadsOf)
  {
    if ids != [] {
      OwnTotals(ids[0], table);
      DashboardDownloadsSumIsPerUserSum(table, ids[1..]);
    }
  }

  /** Every uploader, listed once: the download totals of their dashboards add up to the sum of
      all download counts in the table. */
  lemma DashboardsPartitionDownloads(table: seq<Resource>, uploaders: seq<UserId>)
    requires Distinct(uploaders)
    requires forall r :: r in table ==> r.uploaderId in uploaders
    ensures DashboardDownloadsSum(table, uploaders) == SumOf(table, DownloadsOf)
  {
    DashboardDownloadsSumIsPerUserSum(table, uploaders);
    PerUserSumPartition(table, uploaders, DownloadsOf);
  }

  /** The row the dashboard's delete finds is one of the user's own: an id is found exactly
      when the table holds a row with that id uploaded by the user. */
  lemma OwnDeleteTargetsOwnRows(uid: UserId, table: seq<Resource>, id: ResourceId)
    ensures FindById(OwnResources(Some(uid), table), id).Some? <==>
              exists r :: r in table && r.id == id && r.uploaderId == uid
    ensures FindById(OwnResources(Some(uid), table), id).Some? ==>
              var r := FindById(OwnResources(Some(uid), table), id).value;
              r in table && r.id == id && r.uploaderId == uid
  {
  }

  /** The dashboard's `deleteResourceMutation`, with the user's list loaded from `table`.
      An id that is not one of the user's own rows is not found and nothing is called. */
  method DeleteOwnResource(uid: UserId, table: seq<Resource>, id: ResourceId, db: Backend,
                           removeAccept: bool, deleteAccept: bool)
    returns (outcome: DeleteOutcome)
    requires db.Valid()
    modifies db
    ensures db.Valid()
    ensures DeleteEffect(Some(OwnResources(Some(uid), table)), id, old(db.blobs), old(db.rows), old(db.calls),
                         removeAccept, deleteAccept, outcome, db.blobs, db.rows, db.calls)
    ensures outcome != NotFound ==> exists r :: r in table && r.id == id && r.uploaderId == uid
  {
    OwnDeleteTargetsOwnRows(uid, table, id);
    outcome := DeleteResource(Some(OwnResources(Some(uid), table)), id, db, removeAccept, deleteAccept);
  }
}
