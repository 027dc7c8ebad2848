# Educational resource catalog — verified model of its core

The application is a catalog of study material on top of a hosted backend: a storage bucket
(`educational-resources`) that holds the uploaded files, and two tables, `resources` (one row
per uploaded file) and `profiles` (one row per user). Four pages hold its logic:

- **Upload** checks a chosen file against an allow-list of six MIME types and a 50 MiB limit.
  It builds a storage key `<user id>/<timestamp>.<extension>` and stores the file. Only if
  that succeeds does it insert the file's row and reset the form.
- **Resources** compiles four optional filters into the conditions of one query and lists the
  matching rows newest first. Free text matches title or description, case-insensitively.
  Category and file type must match exactly. Subject matches case-insensitively. Clear Filters
  turns all four off, and Download bumps the row's counter and hands out a link to the file.
- **Dashboard** lists the signed-in user's own uploads with two totals, and deletes one of them.
- **Admin** opens only for the `admin` role. It lists every user with a resource count and every
  resource, shows three totals, and deletes a resource.

Both delete buttons run the same two steps: remove the stored file, then delete the row. The
first failure ends the delete.

The model (one module per file):

| module | file | contents |
|---|---|---|
| `Records` | records.dfy | rows of the two tables, the browser's file descriptor, `Option` for NULL/undefined |
| `Seqs` | seqs.dfy | filter, stable descending sort, weighted sum, and the lemmas relating them |
| `Text` | text.dfy | ASCII lower-casing, ILIKE-style substring match, `split('.').pop()`, decimal digits |
| `Store` | store.dfy | the `Backend` class: bucket and table as maps plus a log of remote calls |
| `Upload` | upload.dfy | allow-list, `GetFileType`, file checks, storage key, the `UploadForm` class |
| `Catalog` | catalog.dfy | filters, compiled conditions, the query, the `CatalogPage` class |
| `Stats` | stats.dfy | counts and download sums defaulting to 0, per-uploader selection, partition lemma |
| `Deletion` | deletion.dfy | the shared two-step delete |
| `Dashboard` | dashboard.dfy | the dashboard's query, totals and delete |
| `Admin` | admin.dfy | role gate, user list with resource counts, panel totals, delete |

Every remote operation takes a boolean `accept` standing for the service's own verdict
(network, permissions, quota). The operation fails when it is false. The bucket and the table
additionally refuse a key or id that is already taken. The current user, the clock value
(`Date.now()`) and the id and timestamp the table gives a new row are parameters.

## Model

| member | source | states |
|---|---|---|
| Upload.GetFileType | src/pages/Upload.tsx:37-47 | the tag is always one of PDF, DOC, DOCX, PPT, PPTX, ZIP |
| Upload.GetFileTypeTable | src/pages/Upload.tsx:28-44 | the i-th allowed MIME type maps to the i-th tag, so the six allowed types map to PDF, DOC, DOCX, PPT, PPTX, ZIP |
| Upload.GetFileTypeFallback | src/pages/Upload.tsx:45 | every MIME type outside the allow-list maps to PDF |
| Upload.CheckFile | src/pages/Upload.tsx:52-68 | a file is accepted iff its type is allowed and its size is at most 52428800 bytes; it gets the type error iff its type is not allowed, whatever its size |
| Upload.AcceptedFileHasExplicitType | src/pages/Upload.tsx:28-45 | every accepted file's type is one of the allowed types and maps through its own case, never through the default |
| Upload.UploadForm.HandleFileChange | src/pages/Upload.tsx:49-72 | the verdict is the file check's; the selected file replaces the form's file only when accepted, otherwise the form's file is unchanged; the form keeps holding only a file that passed both checks |
| Upload.StorageKey | src/pages/Upload.tsx:99-100 | the key starts with the uploader's id followed by `/` |
| Upload.StorageKeyParts | src/pages/Upload.tsx:99-100 | for an id without `/`, the key's text up to the first `/` is the uploader's id and its last `.`-segment is the file name's last `.`-segment (the whole name when it has no dot) |
| Text.LastSegment | src/pages/Upload.tsx:99 | the result contains no dot, is a suffix of the input, and is preceded by a dot whenever it is shorter than the input |
| Text.LastSegmentAfterDot | src/pages/Upload.tsx:99-100 | the last segment of `prefix + "." + ext` is `ext` for any dot-free `ext` |
| Upload.NullIfEmpty | src/pages/Upload.tsx:119-120 | the empty string becomes NULL, any other string is kept |
| Upload.IntakeRowProperties | src/pages/Upload.tsx:109-122 | the inserted row has the uploader's id, the file's storage key (in the uploader's namespace), the tag `GetFileType` gives the declared type (the i-th tag for the i-th allowed type, PDF for any other), the file's name and size, NULL for an empty subject or course, and zero downloads |
| Upload.Intake | src/pages/Upload.tsx:97-124 | the file is stored first; a failed store inserts no row and issues no insert; a failed insert leaves the stored file behind |
| Upload.UploadForm.HandleSubmit | src/pages/Upload.tsx:74-150 | without a user, or without file, title or category, nothing is stored, inserted or changed; otherwise the file submitted passed both file checks (allowed type, at most 50 MiB), the intake runs, every field is reset only on success, and `isUploading` is false on every path |
| Upload.UploadForm.ResetForm | src/pages/Upload.tsx:131-137 | all five text fields are empty and the file is cleared; `isUploading` is kept |
| Catalog.Compile | src/pages/Resources.tsx:52-63 | as many conditions as there are active (non-empty) filters, so no condition at all exactly when every filter is empty |
| Catalog.CompileMeansSelects | src/pages/Resources.tsx:52-63 | a row satisfies all compiled conditions iff each filter is off or matched: search term in title or description ignoring case, equal category, equal file type, subject present and containing the term ignoring case |
| Catalog.QueryResult | src/pages/Resources.tsx:41-63 | the result is ordered by creation time descending and holds each selected row as often as the table does and nothing else |
| Catalog.UnfilteredQueryListsEverything | src/pages/Resources.tsx:50-63 | with every filter empty the result is a permutation of the whole table, newest first |
| Catalog.NarrowingNeverAddsRows | src/pages/Resources.tsx:52-63 | turning on another filter (keeping the active ones) never adds a row to the result |
| Catalog.CatalogPage.ClearFilters | src/pages/Resources.tsx:167-172 | all four filters are empty afterwards, the unfiltered query |
| Catalog.CatalogPage.HandleDownload | src/pages/Resources.tsx:71-86 | the counter call for the clicked row is issued, then the link names that row's file and its original name, whatever the counter call answered |
| Store.Backend.IncrementDownloadCount | src/pages/Resources.tsx:78 | the row's counter rises by one or the table is unchanged; nothing else in the row or the bucket changes |
| Stats.CountOrZero | src/pages/Admin.tsx:209-210 | the list's length, or 0 when the list is absent |
| Stats.TotalDownloadsBounds | src/pages/Admin.tsx:211 | the download total is 0 for an absent list, is 0 exactly when every row's count is 0, and is at least every row's count |
| Stats.OwnedBy | src/pages/Dashboard.tsx:42 | exactly the table's rows whose uploader is the given user, each as often as in the table |
| Stats.PerUserSumPartition | src/pages/Dashboard.tsx:42 | with every uploader listed once, the per-user sums add up to the sum over the whole table |
| Deletion.FindById | src/pages/Admin.tsx:132 | absent iff no loaded row has the id; otherwise the first loaded row with that id |
| Deletion.DeleteResource | src/pages/Admin.tsx:130-149 | an id not in the loaded list (or with no list loaded) is not found and no call is made; otherwise the file is removed first, a failed removal deletes no row, a failed row delete leaves the row with its file gone; after a completed delete no row of the table has that id |
| Deletion.DeletedMeansBothGone | src/pages/Admin.tsx:136-148 | after a completed delete the row's file and the row are gone and every other file and row is unchanged |
| Deletion.StorageErrorKeepsRow | src/pages/Dashboard.tsx:57-62 | when the file removal fails, the table and the bucket are unchanged and the call log grows by exactly the one removal (by nothing when the id was not found) |
| Dashboard.OwnResources | src/pages/Dashboard.tsx:34-49 | empty without a user; otherwise exactly the user's own rows, each as often as in the table, newest first |
| Dashboard.OwnTotals | src/pages/Dashboard.tsx:99-132 | Total Uploads is the number of the user's rows and the download total is the sum over them; both are 0 for a user with no rows |
| Dashboard.DashboardsPartitionDownloads | src/pages/Dashboard.tsx:99 | with every uploader listed once, the dashboards' download totals add up to the sum over the whole table |
| Dashboard.OwnDeleteTargetsOwnRows | src/pages/Dashboard.tsx:53-54 | the delete finds an id iff the table holds a row with that id uploaded by the user, and the row found is such a row |
| Dashboard.DeleteOwnResource | src/pages/Dashboard.tsx:51-70 | the two-step delete over the user's own list; any outcome but not-found means the row is the user's own |
| Admin.RoleOf | src/pages/Admin.tsx:47-62 | no role without a user, when the query fails, or when no profile or two or more profiles have the user's id; exactly one matching profile gives that profile's role |
| Admin.ResourceCountOrZero | src/pages/Admin.tsx:79 | the joined count, or 0 when the join is absent or empty |
| Admin.WithCounts | src/pages/Admin.tsx:65-80 | one entry per profile, in order, whose resource count is the number of rows that profile uploaded |
| Admin.FetchUsers | src/pages/Admin.tsx:65-83 | present iff the role is admin and the query answers, and then a permutation of the counted profiles ordered by creation time descending |
| Admin.FetchResources | src/pages/Admin.tsx:86-104 | present iff the role is admin and the query answers, and then a permutation of the table ordered by creation time descending |
| Admin.View | src/pages/Admin.tsx:179-211 | the sign-in prompt iff there is no user, the panel iff the role query answers admin for the user, access denied otherwise |
| Admin.AdminSeesPanel | src/pages/Admin.tsx:47-207 | a user whose one profile has the admin role sees the panel once the role query answers |
| Admin.NonAdminsFetchNothing | src/pages/Admin.tsx:82-103 | without the admin role neither list is fetched and the panel is not shown |
| Admin.PanelTotals | src/pages/Admin.tsx:209-211 | the panel's totals are the number of profiles, the number of rows and the sum of every row's download count; a list whose query failed counts 0 |
| Admin.ResourceCountsAddUp | src/pages/Admin.tsx:65-80 | with one profile per uploader, the users' resource counts add up to the number of rows |
| Admin.PanelDownloadsAreDashboardSums | src/pages/Admin.tsx:211 | with one profile per uploader, the panel's download total equals the sum of every uploader's dashboard download total |
| Admin.DeletableUsers | src/pages/Admin.tsx:308 | the users offered a delete button are exactly the listed non-admins |
| Admin.DeleteListedResource | src/pages/Admin.tsx:130-149 | the two-step delete over the admin's resource list; any outcome but not-found requires the admin role, an answered resources query and a table row with that id |
| Seqs.SortDesc | src/pages/Resources.tsx:50 | the result is a permutation of the input ordered by the key descending |
| Seqs.SumOfSort | src/pages/Admin.tsx:211 | reordering rows does not change a sum over them |

## Left out

- Rendering, toasts, navigation and the loading spinners are not modelled. Neither are React
  Query's caching, invalidation after a mutation, stale answers and `refetch`.
- `formatFileSize` and `formatDate` are not modelled: they use floating-point logarithms and
  locale formatting.
- The delete-user button's action (`auth.admin.deleteUser` and its cascade) is a call into the
  authentication service. Only the condition for showing the button is modelled.
- The profile join on the resource lists (uploader name and email, for display) is not modelled.
  The public URL of a stored file is modelled by its storage key.
- The body of the `increment_download_count` procedure is not part of the repository. It is
  modelled as raising the counter by one or doing nothing. Its behaviour under concurrent
  downloads is not modelled.
- Catalog.Holds: the search and subject terms are pasted raw into the query's filter syntax,
  so a term containing `,`, `(`, `)`, `%`, `_`, `*` (read as `%` in a like
  pattern) or `\` (the pattern's escape character) changes the query. The model assumes
  terms without these characters and matches them as plain substrings.
- Text.Lower: case folding covers ASCII letters only; the database folds other alphabets too.
- Upload.StorageKey: `Date.now()` is an opaque natural number; key uniqueness is not modelled.
  A colliding key makes the store refuse the upload.
- Seqs.SortDesc: ties on `created_at` keep table order; the database leaves their order open.
  The timestamps are integers.
- JavaScript's number width is not modelled: sizes, counts and sums are unbounded naturals.
- A failed row delete after a successful file removal leaves a row whose file is gone. A failed
  insert after a successful upload leaves a stored file with no row. The model states both
  outcomes as they are, without a repair step.
- Catalog.Query and Dashboard.OwnResources always answer. When the query fails
  (src/pages/Resources.tsx:66, src/pages/Dashboard.tsx:45) the list stays undefined. The page
  then lists nothing, its totals are 0 (`Stats.CountOrZero` and `Stats.TotalDownloads` of an
  absent list), and its delete finds nothing (`Deletion.DeleteResource` with no list). The
  model does not tie those cases to a query failure. The admin page's three queries do carry an
  answered flag (`Admin.Answers`). A role query that is still loading is the same as one that
  failed: the access-denied card.
- Upload.IntakeRow: the insert sends no `download_count`. The zero in the model stands for the
  column's default, which is not part of the repository.
