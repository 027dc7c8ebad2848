/** The admin panel: the caller's role decides whether the panel opens and whether the user and
    resource lists are fetched at all; the statistics cards; the per-user resource count; which
    users are offered a delete button; and the panel's resource delete. */
module Admin {
  import opened Records
  import opened Seqs
  import opened Stats
  import opened Store
  import opened Deletion
  import opened Dashboard

  /** `profiles[k]` is the one profile whose id is `uid`. */
  ghost predicate OnlyProfileAt(profiles: seq<Profile>, uid: UserId, k: int) {
    0 <= k < |profiles| && profiles[k].id == uid
    && forall j :: 0 <= j < |profiles| && j != k ==> profiles[j].id != uid
  }

  /** The caller's role: `select('role').eq('id', uid).single()`, which answers only when
      exactly one profile has that id; nothing is asked without a signed-in user. `answered`
      is false when the query itself fails (network, permissions); a failed query gives no
      role, as does one that finds no profile or several. */
  function RoleOf(user: Option<UserId>, profiles: seq<Profile>, answered: bool): (role: Option<string>)
    ensures role.Some? ==> user.Some? && answered && exists p :: p in profiles && p.id == user.value && p.role == role.value
    ensures user.Some? && (forall p :: p in profiles ==> p.id != user.value) ==> role.None?
    ensures user.None? || !answered ==> role.None?
    ensures forall k :: user.Some? && answered && OnlyProfileAt(profiles, user.value, k) ==> role == Some(profiles[k].role)
    ensures forall i, j :: user.Some? && 0 <= i < j < |profiles| && profiles[i].id == user.value && profiles[j].id == user.value
                           ==> role.None?
  {
    if user.None? || !answered then None
    else
      var hasId := (p: Profile) => p.id == user.value;
      var matches := Filter(profiles, hasId);
      assert forall k :: OnlyProfileAt(profiles, user.value, k) ==> OnlyAt(profiles, hasId, k);
      FilterOnlyAll(profiles, hasId);
      FilterTwoAll(profiles, hasId);
      if |matches| == 1 then
        assert matches[0] in matches;
        Some(matches[0].role)
      else None
  }

  /** A row of the users list: the profile and the number of resources it uploaded. */
  datatype AdminUser = AdminUser(profile: Profile, resourceCount: nat)

  function JoinedAt(u: AdminUser): int { u.profile.createdAt }

  function ResourceCountOf(u: AdminUser): nat { u.resourceCount }

  /** `user.resource_count?.[0]?.count || 0`: the first element of the joined aggregate, or 0
      when the aggregate is absent or empty. */
  function ResourceCountOrZero(joined: Option<seq<nat>>): (n: nat)
    ensures joined.None? ==> n == 0
    ensures joined.Some? && joined.value == [] ==> n == 0
    ensures joined.Some? && joined.value != [] ==> n == joined.value[0]
  {
    if joined.Some? && joined.value != [] then joined.value[0] else 0
  }

  /** What the `resources(count)` embedding answers for one profile: a one-element list holding
      the number of rows that profile uploaded. */
  function JoinedCount(table: seq<Resource>, uid: UserId): (joined: Option<seq<nat>>)
    ensures joined.Some? && |joined.value| == 1
  {
    Some([|OwnedBy(table, uid)|])
  }

  /** The users query's `map`, applied to every profile in order. */
  function WithCounts(profiles: seq<Profile>, table: seq<Resource>): (us: seq<AdminUser>)
    ensures |us| == |profiles|
    ensures forall i :: 0 <= i < |us| ==>
              us[i].profile == profiles[i] && us[i].resourceCount == |OwnedBy(table, profiles[i].id)|
  {
    if profiles == [] then []
    else
      var first := AdminUser(profiles[0], ResourceCountOrZero(JoinedCount(table, profiles[0].id)));
      var rest := WithCounts(profiles[1..], table);
      assert forall i :: 1 <= i <= |rest| ==> ([first] + rest)[i] == rest[i - 1];
      [first] + rest
  }

  /** The ids of the listed profiles, in order. */
  function Ids(profiles: seq<Profile>): (ids: seq<UserId>)
    ensures |ids| == |profiles|
    ensures forall i :: 0 <= i < |ids| ==> ids[i] == profiles[i].id
  {
    if profiles == [] then [] else [profiles[0].id] + Ids(profiles[1..])
  }

  /** The users list: fetched only for an admin, every profile with its resource count,
      ordered by `created_at` descending; absent when the query fails (`answered` false). */
  function FetchUsers(role: Option<string>, answered: bool, profiles: seq<Profile>, table: seq<Resource>)
    : (users: Option<seq<AdminUser>>)
    ensures users.Some? <==> role == Some(AdminRole) && answered
    ensures users.Some? ==> SortedDesc(users.value, JoinedAt)
                            && multiset(users.value) == multiset(WithCounts(profiles, table))
  {
    if role == Some(AdminRole) && answered then Some(SortDesc(WithCounts(profiles, table), JoinedAt)) else None
  }

  /** The resources list: fetched only for an admin, the whole table ordered by `created_at`
      descending; absent when the query fails (`answered` false). */
  function FetchResources(role: Option<string>, answered: bool, table: seq<Resource>)
    : (resources: Option<seq<Resource>>)
    ensures resources.Some? <==> role == Some(AdminRole) && answered
    ensures resources.Some? ==> SortedDesc(resources.value, CreatedAt)
                                && multiset(resources.value) == multiset(table)
  {
    if role == Some(AdminRole) && answered then Some(SortDesc(table, CreatedAt)) else None
  }

  /** Whether each of the page's three queries answered. */
  datatype Answers = Answers(role: bool, users: bool, resources: bool)

  /** What the page shows. */
  datatype AdminView =
    | SignInRequired
    | AccessDenied
    | Panel(totalUsers: nat, totalResources: nat, totalDownloads: nat,
            users: Option<seq<AdminUser>>, resources: Option<seq<Resource>>)

  /** The page for `user`: the sign-in prompt, the access-denied card, or the panel with its
      lists and statistics cards. */
  function View(user: Option<UserId>, profiles: seq<Profile>, table: seq<Resource>, answers: Answers)
    : (v: AdminView)
    ensures user.None? <==> v.SignInRequired?
    ensures v.Panel? <==> user.Some? && RoleOf(user, profiles, answers.role) == Some(AdminRole)
  {
    var role := RoleOf(user, profiles, answers.role);
    var users := FetchUsers(role, answers.users, profiles, table);
    var resources := FetchResources(role, answers.resources, table);
    if user.None? then SignInRequired
    else if role != Some(AdminRole) then AccessDenied
    else Panel(CountOrZero(users), CountOrZero(resources), TotalDownloads(resources), users, resources)
  }

  /** A user whose one profile has the admin role gets the panel once the role query answers. */
  lemma AdminSeesPanel(uid: UserId, profiles: seq<Profile>, table: seq<Resource>, answers: Answers, k: int)
    requires OnlyProfileAt(profiles, uid, k) && profiles[k].role == AdminRole
    requires answers.role
    ensures View(Some(uid), profiles, table, answers).Panel?
  {
  }

  /** Outside the panel neither list is fetched: a caller without the admin role never gets
      the users or the resources. */
  lemma NonAdminsFetchNothing(user: Option<UserId>, profiles: seq<Profile>, table: seq<Resource>, answers: Answers)
    requires RoleOf(user, profiles, answers.role) != Some(AdminRole)
    ensures FetchUsers(RoleOf(user, profiles, answers.role), answers.users, profiles, table).None?
    ensures FetchResources(RoleOf(user, profiles, answers.role), answers.resources, table).None?
    ensures !View(user, profiles, table, answers).Panel?
  {
  }

  /** The panel's cards: one user per profile, one resource per row, and the sum of every row's
      download count; a list whose query failed counts as 0. */
  lemma PanelTotals(user: Option<UserId>, profiles: seq<Profile>, table: seq<Resource>, answers: Answers)
    requires View(user, profiles, table, answers).Panel?
    ensures View(user, profiles, table, answers).totalUsers == if answers.users then |profiles| else 0
    ensures View(user, profiles, table, answers).totalResources == if answers.resources then |table| else 0
    ensures View(user, profiles, table, answers).totalDownloads
            == if answers.resources then SumOf(table, DownloadsOf) else 0
  {
    SumOfSort(table, CreatedAt, DownloadsOf);
  }

  lemma {:induction false} ResourceCountsArePerUserSums(profiles: seq<Profile>, table: seq<Resource>)
    ensures SumOf(WithCounts(profiles, table), ResourceCountOf) == PerUserSum(table, Ids(profiles), One)
  {
    if profiles != [] {
      SumOfOnes(OwnedBy(table, profiles[0].id));
      assert WithCounts(profiles, table)[1..] == WithCounts(profiles[1..], table);
      assert Ids(profiles)[1..] == Ids(profiles[1..]);
      ResourceCountsArePerUserSums(profiles[1..], table);
    }
  }

  /** When every uploader has exactly one profile, the users' resource counts add up to the
      number of resources. */
  lemma ResourceCountsAddUp(profiles: seq<Profile>, table: seq<Resource>)
    requires Distinct(Ids(profiles))
    requires forall r :: r in table ==> r.uploaderId in Ids(profiles)
    ensures SumOf(FetchUsers(Some(AdminRole), true, profiles, table).value, ResourceCountOf) == |table|
  {
    SumOfSort(WithCounts(profiles, table), JoinedAt, ResourceCountOf);
    ResourceCountsArePerUserSums(profiles, table);
    PerUserSumPartition(table, Ids(profiles), One);
    SumOfOnes(table);
  }

  /** When every uploader has exactly one profile, the panel's download total is the sum of the
      download totals their dashboards show. */
  lemma PanelDownloadsAreDashboardSums(user: Option<UserId>, profiles: seq<Profile>, table: seq<Resource>,
                                       answers: Answers)
    requires View(user, profiles, table, answers).Panel? && answers.resources
    requires Distinct(Ids(profiles))
    requires forall r :: r in table ==> r.uploaderId in Ids(profiles)
    ensures View(user, profiles, table, answers).totalDownloads == DashboardDownloadsSum(table, Ids(profiles))
  {
    PanelTotals(user, profiles, table, answers);
    DashboardsPartitionDownloads(table, Ids(profiles));
  }

  /** A user is offered the delete button unless their role is admin. */
  predicate OffersUserDelete(u: AdminUser) {
    u.profile.role != AdminRole
  }

  /** The users that carry a delete button: every listed non-admin and no admin. */
  function DeletableUsers(users: seq<AdminUser>): (ds: seq<AdminUser>)
    ensures forall u :: u in ds ==> u.profile.role != AdminRole
    ensures forall u :: u in users && u.profile.role != AdminRole ==> u in ds
    ensures forall u :: u in ds ==> u in users
  {
    Filter(users, OffersUserDelete)
  }

  /** The panel's `deleteResourceMutation`: the loaded list is the resources query's answer for
      the caller's role. An id is found only for an admin, and only if the table holds it. */
  method DeleteListedResource(user: Option<UserId>, profiles: seq<Profile>, table: seq<Resource>,
                              answers: Answers, id: ResourceId, db: Backend,
                              removeAccept: bool, deleteAccept: bool)
    returns (outcome: DeleteOutcome)
    requires db.Valid()
    modifies db
    ensures db.Valid()
    ensures DeleteEffect(FetchResources(RoleOf(user, profiles, answers.role), answers.resources, table), id,
                         old(db.blobs), old(db.rows), old(db.calls),
                         removeAccept, deleteAccept, outcome, db.blobs, db.rows, db.calls)
    ensures outcome != NotFound ==> RoleOf(user, profiles, answers.role) == Some(AdminRole) && answers.resources
                                    && exists r :: r in table && r.id == id
  {
    var loaded := FetchResources(RoleOf(user, profiles, answers.role), answers.resources, table);
    outcome := DeleteResource(loaded, id, db, removeAccept, deleteAccept);
    if outcome != NotFound {
      var r := FindById(loaded.value, id).value;
      assert multiset(loaded.value)[r] > 0;
    }
  }
}
