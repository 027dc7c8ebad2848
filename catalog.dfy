/** The resources page: four optional filters compiled into the conditions of one catalog
    query, the query's result (the matching rows, newest first), the Clear Filters button
    and the download button. */
module Catalog {
  import opened Records
  import opened Seqs
  import opened Text
  import opened Store

  /** The page's filter state; an empty string means the filter is off. */
  datatype Filters = Filters(search: string, category: string, fileType: string, subject: string)

  const NoFilters := Filters("", "", "", "")

  /** One condition added to the query. */
  datatype Condition =
    | TitleOrDescriptionLike(term: string)   // .or('title.ilike.%t%,description.ilike.%t%')
    | CategoryIs(category: string)           // .eq('category', c)
    | FileTypeIs(fileType: string)           // .eq('file_type', t)
    | SubjectLike(term: string)              // .ilike('subject', '%t%')

  /** The conditions the query builder adds, in the order it adds them: one per active filter. */
  function Compile(f: Filters): (q: seq<Condition>)
    ensures |q| == (if f.search != "" then 1 else 0) + (if f.category != "" then 1 else 0)
                   + (if f.fileType != "" then 1 else 0) + (if f.subject != "" then 1 else 0)
    ensures q == [] <==> f == NoFilters
  {
    (if f.search != "" then [TitleOrDescriptionLike(f.search)] else [])
    + (if f.category != "" then [CategoryIs(f.category)] else [])
    + (if f.fileType != "" then [FileTypeIs(f.fileType)] else [])
    + (if f.subject != "" then [SubjectLike(f.subject)] else [])
  }

  /** What the database checks for one condition. A NULL subject matches no pattern. */
  predicate Holds(c: Condition, r: Resource) {
    match c
    case TitleOrDescriptionLike(t) => ContainsIgnoringCase(r.title, t) || ContainsIgnoringCase(r.description, t)
    case CategoryIs(v) => r.category == v
    case FileTypeIs(v) => r.fileType == v
    case SubjectLike(t) => r.subject.Some? && ContainsIgnoringCase(r.subject.value, t)
  }

  /** Conditions added to one query are combined with AND. */
  predicate SatisfiesAll(q: seq<Condition>, r: Resource) {
    forall i :: 0 <= i < |q| ==> Holds(q[i], r)
  }

  /** The filter semantics stated directly: each filter is either off or satisfied. */
  ghost predicate Selects(f: Filters, r: Resource) {
    && (f.search == "" || ContainsIgnoringCase(r.title, f.search) || ContainsIgnoringCase(r.description, f.search))
    && (f.category == "" || r.category == f.category)
    && (f.fileType == "" || r.fileType == f.fileType)
    && (f.subject == "" || (r.subject.Some? && ContainsIgnoringCase(r.subject.value, f.subject)))
  }

  lemma SatisfiesAllAppend(q1: seq<Condition>, q2: seq<Condition>, r: Resource)
    ensures SatisfiesAll(q1 + q2, r) <==> SatisfiesAll(q1, r) && SatisfiesAll(q2, r)
  {
    if SatisfiesAll(q1, r) && SatisfiesAll(q2, r) {
      forall i | 0 <= i < |q1 + q2| ensures Holds((q1 + q2)[i], r) {
        if i >= |q1| {
          assert (q1 + q2)[i] == q2[i - |q1|];
        }
      }
    }
    if SatisfiesAll(q1 + q2, r) {
      forall i | 0 <= i < |q1| ensures Holds(q1[i], r) {
        assert (q1 + q2)[i] == q1[i];
      }
      forall i | 0 <= i < |q2| ensures Holds(q2[i], r) {
        assert (q1 + q2)[|q1| + i] == q2[i];
      }
    }
  }

  lemma SatisfiesAllSingleton(c: Condition, r: Resource)
    ensures SatisfiesAll([c], r) <==> Holds(c, r)
  {
    assert [c][0] == c;
  }

  /** The compiled conditions mean exactly the conjunction of the active filters. */
  lemma {:induction false} CompileMeansSelects(f: Filters, r: Resource)
    ensures SatisfiesAll(Compile(f), r) <==> Selects(f, r)
  {
    var s := if f.search != "" then [TitleOrDescriptionLike(f.search)] else [];
    var c := if f.category != "" then [CategoryIs(f.category)] else [];
    var t := if f.fileType != "" then [FileTypeIs(f.fileType)] else [];
    var u := if f.subject != "" then [SubjectLike(f.subject)] else [];
    assert Compile(f) == s + c + t + u;
    SatisfiesAllSingleton(TitleOrDescriptionLike(f.search), r);
    SatisfiesAllSingleton(CategoryIs(f.category), r);
    SatisfiesAllSingleton(FileTypeIs(f.fileType), r);
    SatisfiesAllSingleton(SubjectLike(f.subject), r);
    SatisfiesAllAppend(s + c + t, u, r);
    SatisfiesAllAppend(s + c, t, r);
    SatisfiesAllAppend(s, c, r);
  }

  /** The rows the page shows: the table's rows that satisfy every compiled condition,
      ordered by `created_at` descending. */
  function Query(table: seq<Resource>, f: Filters): seq<Resource> {
    SortDesc(Filter(table, r => SatisfiesAll(Compile(f), r)), CreatedAt)
  }

  /** The result is newest first and holds each selected row of the table as often as the
      table does, and no other row. */
  lemma QueryResult(table: seq<Resource>, f: Filters)
    ensures SortedDesc(Query(table, f), CreatedAt)
    ensures forall r :: multiset(Query(table, f))[r] == if Selects(f, r) then multiset(table)[r] else 0
  {
    forall r ensures multiset(Query(table, f))[r] == if Selects(f, r) then multiset(table)[r] else 0 {
      CompileMeansSelects(f, r);
    }
  }

  /** With every filter off the page lists the whole table, newest first. */
  lemma UnfilteredQueryListsEverything(table: seq<Resource>)
    ensures multiset(Query(table, NoFilters)) == multiset(table)
    ensures SortedDesc(Query(table, NoFilters), CreatedAt)
  {
    QueryResult(table, NoFilters);
    assert forall r :: Selects(NoFilters, r);
  }

  /** `g` keeps every filter `f` has on, with the same value, and may turn on more. */
  ghost predicate Narrows(g: Filters, f: Filters) {
    && (f.search != "" ==> g.search == f.search)
    && (f.category != "" ==> g.category == f.category)
    && (f.fileType != "" ==> g.fileType == f.fileType)
    && (f.subject != "" ==> g.subject == f.subject)
  }

  /** Turning on another filter never adds rows to the result. */
  lemma NarrowingNeverAddsRows(table: seq<Resource>, f: Filters, g: Filters)
    requires Narrows(g, f)
    ensures multiset(Query(table, g)) <= multiset(Query(table, f))
  {
    QueryResult(table, f);
    QueryResult(table, g);
    assert forall r :: Selects(g, r) ==> Selects(f, r);
  }

  /** The link the download button clicks: the stored file, saved under its original name. */
  datatype DownloadLink = DownloadLink(storageKey: string, downloadName: string)

  class CatalogPage {
    var searchTerm: string
    var categoryFilter: string
    var fileTypeFilter: string
    var subjectFilter: string

    function CurrentFilters(): Filters
      reads this
    {
      Filters(searchTerm, categoryFilter, fileTypeFilter, subjectFilter)
    }

    constructor ()
      ensures CurrentFilters() == NoFilters
    {
      searchTerm, categoryFilter, fileTypeFilter, subjectFilter := "", "", "", "";
    }

    /** The Clear Filters button. */
    method ClearFilters()
      modifies this
      ensures CurrentFilters() == NoFilters
    {
      searchTerm := "";
      categoryFilter := "";
      fileTypeFilter := "";
      subjectFilter := "";
    }

    /** The download button: ask the table to count the download, then hand the browser a
        link to the clicked row's file named after its original file name. The procedure's
        reply is not inspected, so the link is produced whatever it says. */
    method HandleDownload(resource: Resource, db: Backend, rpcAccept: bool) returns (link: DownloadLink)
      requires db.Valid()
      modifies db
      ensures db.Valid()
      ensures link == DownloadLink(resource.fileUrl, resource.fileName)
      ensures db.calls == old(db.calls) + [IncrementDownloads(resource.id)]
      ensures db.blobs == old(db.blobs)
      ensures db.rows == if rpcAccept && resource.id in old(db.rows)
                         then old(db.rows)[resource.id := Bumped(old(db.rows), resource.id)]
                         else old(db.rows)
    {
      var _ := db.IncrementDownloadCount(resource.id, rpcAccept);
      link := DownloadLink(resource.fileUrl, resource.fileName);
    }
  }
}
