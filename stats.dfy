/** The figures on the statistics cards of the admin panel and the dashboard, and how the
    per-user figures add up to the platform-wide ones. */
module Stats {
  import opened Records
  import opened Seqs

  /** `list?.length || 0`: the number of loaded entries, 0 while nothing is loaded. */
  function CountOrZero<T>(list: Option<seq<T>>): (n: nat)
    ensures list.None? ==> n == 0
    ensures list.Some? ==> n == |list.value|
  {
    if list.Some? then |list.value| else 0
  }

  /** `list?.reduce((sum, r) => sum + r.download_count, 0) || 0`. */
  function TotalDownloads(list: Option<seq<Resource>>): nat {
    if list.Some? then SumOf(list.value, DownloadsOf) else 0
  }

  /** The total is zero exactly when nothing was loaded or no loaded row was ever downloaded,
      and it is never below any single row's count. */
  lemma {:induction false} TotalDownloadsBounds(rs: seq<Resource>)
    ensures TotalDownloads(Some(rs)) == 0 <==> forall r :: r in rs ==> r.downloadCount == 0
    ensures forall r :: r in rs ==> r.downloadCount <= TotalDownloads(Some(rs))
    ensures TotalDownloads(None) == 0
  {
    if rs != [] {
      TotalDownloadsBounds(rs[1..]);
      assert forall r :: r in rs ==> r == rs[0] || r in rs[1..];
    }
  }

  /** The rows uploaded by `uid`, in table order (`.eq('uploader_id', uid)`). */
  function OwnedBy(table: seq<Resource>, uid: UserId): (rs: seq<Resource>)
    ensures forall r :: r in rs <==> r in table && r.uploaderId == uid
    ensures forall r :: multiset(rs)[r] == if r.uploaderId == uid then multiset(table)[r] else 0
  {
    Filter(table, (r: Resource) => r.uploaderId == uid)
  }

  lemma OwnedByCons(r: Resource, table: seq<Resource>, uid: UserId)
    ensures OwnedBy([r] + table, uid) == (if r.uploaderId == uid then [r] else []) + OwnedBy(table, uid)
  {
    assert ([r] + table)[1..] == table;
  }

  /** The sum of `w` over each listed user's own rows, added up over the users in `ids`. */
  function PerUserSum(table: seq<Resource>, ids: seq<UserId>, w: Resource -> nat): nat {
    if ids == [] then 0 else SumOf(OwnedBy(table, ids[0]), w) + PerUserSum(table, ids[1..], w)
  }

  lemma {:induction false} PerUserSumEmpty(ids: seq<UserId>, w: Resource -> nat)
    ensures PerUserSum([], ids, w) == 0
  {
    if ids != [] {
      PerUserSumEmpty(ids[1..], w);
    }
  }

  /** Adding one row adds its weight to exactly the one user who uploaded it, if listed. */
  lemma {:induction false} PerUserSumCons(r: Resource, table: seq<Resource>, ids: seq<UserId>, w: Resource -> nat)
    requires Distinct(ids)
    ensures PerUserSum([r] + table, ids, w) == PerUserSum(table, ids, w) + (if r.uploaderId in ids then w(r) else 0)
  {
    if ids != [] {
      OwnedByCons(r, table, ids[0]);
      SumOfAppend(if r.uploaderId == ids[0] then [r] else [], OwnedBy(table, ids[0]), w);
      assert Distinct(ids[1..]);
      PerUserSumCons(r, table, ids[1..], w);
      assert r.uploaderId in ids <==> r.uploaderId == ids[0] || r.uploaderId in ids[1..];
      assert r.uploaderId == ids[0] ==> r.uploaderId !in ids[1..];
    }
  }

  /** When every row's uploader is listed once, the per-user sums add up to the sum over
      the whole table. */
  lemma {:induction false} PerUserSumPartition(table: seq<Resource>, ids: seq<UserId>, w: Resource -> nat)
    requires Distinct(ids)
    requires forall r :: r in table ==> r.uploaderId in ids
    ensures PerUserSum(table, ids, w) == SumOf(table, w)
  {
    if table == [] {
      PerUserSumEmpty(ids, w);
    } else {
      assert table == [table[0]] + table[1..];
      PerUserSumPartition(table[1..], ids, w);
      PerUserSumCons(table[0], table[1..], ids, w);
    }
  }
}
