/** The offline-first synchroniser for a reader's own data (UserDataRepositoryImpl):
    highlights and comments keyed by `readIndex`, and PDF annotations keyed per page.
    Highlights and comments are reconciled against the remote copy by strict
    last-writer-wins on a millisecond timestamp, pulled or pushed; annotations are
    only pulled, page by page, and a newer cached page is never uploaded. */
module UserData {
  import opened Models
  import Decimal

  // ---------------------------------------------------------------------------
  // Rows of the three local tables and the values exchanged with the server
  // ---------------------------------------------------------------------------

  /** A row of the highlights table (ReadHighlightsEntity). */
  datatype HighlightsEntity = HighlightsEntity(readIndex: string, highlights: string, timestamp: Long)

  /** A row of the comments table (ReadCommentsEntity). */
  datatype CommentsEntity = CommentsEntity(readIndex: string, comments: seq<Comment>, timestamp: Long)

  /** A row of the annotations table (PdfAnnotationsEntity): one page of one PDF. */
  datatype PdfAnnotationsEntity = PdfAnnotationsEntity(
    index: string, pdfIndex: string, pageIndex: Int32, annotations: seq<string>, timestamp: Long)

  /** The annotations of one page of a PDF (PdfAnnotations), as the app reads and uploads them. */
  datatype AnnotationPage = AnnotationPage(pageIndex: Int32, annotations: seq<string>)

  /** A value as the server returns it, with the timestamp of its last write. */
  datatype Stamped<T> = Stamped(value: T, timestamp: Long)

  /** The outcome of a guarded remote fetch (`safeApiCall`): a successful response,
      whose body may be absent, or anything else (offline, HTTP or transport failure). */
  datatype NetworkResource<T> = NetworkSuccess(body: Option<T>) | NetworkFailure

  /** An upload request handed to the network layer. */
  datatype Upload =
    | HighlightsUpload(highlights: ReadHighlights)
    | CommentsUpload(comments: ReadComments)
    | AnnotationsUpload(lessonIndex: string, pdfId: string, pages: seq<AnnotationPage>)

  // ---------------------------------------------------------------------------
  // The reconciliation rule
  // ---------------------------------------------------------------------------

  /** `Long.isAfter(other: Long?)`: an absent timestamp is older than any present one. */
  function IsAfter(t: Long, other: Option<Long>): bool
  {
    match other
    case None => true
    case Some(o) => t > o
  }

  /** `isAfter` is a strict total order on present timestamps, with absence at the bottom. */
  lemma IsAfterOrder(t: Long, u: Long)
    ensures IsAfter(t, None)
    ensures !IsAfter(t, Some(t))
    ensures IsAfter(t, Some(u)) ==> !IsAfter(u, Some(t))
    ensures t != u ==> IsAfter(t, Some(u)) || IsAfter(u, Some(t))
    ensures IsAfter(t, Some(u)) <==> u < t
  {
  }

  /** The pull test: a remote record exists and is newer than the cached one. */
  predicate Pulls(cached: Option<Long>, remote: Option<Long>)
  {
    remote.Some? && IsAfter(remote.value, cached)
  }

  /** The push test: a cached record exists and is newer than the remote one. */
  predicate Pushes(cached: Option<Long>, remote: Option<Long>)
  {
    cached.Some? && IsAfter(cached.value, remote)
  }

  /** Last-writer-wins: at most one direction fires; nothing fires exactly when both
      sides agree (both absent, or equal timestamps); presence beats absence. */
  lemma ReconcileRule(cached: Option<Long>, remote: Option<Long>)
    ensures !(Pulls(cached, remote) && Pushes(cached, remote))
    ensures !Pulls(cached, remote) && !Pushes(cached, remote) <==> cached == remote
    ensures cached.None? && remote.Some? ==> Pulls(cached, remote)
    ensures cached.Some? && remote.None? ==> Pushes(cached, remote)
    ensures cached.Some? && remote.Some? ==>
              (Pulls(cached, remote) <==> cached.value < remote.value) &&
              (Pushes(cached, remote) <==> remote.value < cached.value)
  {
  }

  function HighlightsStamp(row: Option<HighlightsEntity>): Option<Long>
  {
    match row
    case None => None
    case Some(r) => Some(r.timestamp)
  }

  function CommentsStamp(row: Option<CommentsEntity>): Option<Long>
  {
    match row
    case None => None
    case Some(r) => Some(r.timestamp)
  }

  function RemoteStamp<T>(body: Option<Stamped<T>>): Option<Long>
  {
    match body
    case None => None
    case Some(b) => Some(b.timestamp)
  }

  function Lookup<K, V>(m: map<K, V>, k: K): (r: Option<V>)
    ensures r.Some? <==> k in m
    ensures r.Some? ==> r.value == m[k]
  {
    if k in m then Some(m[k]) else None
  }

  // ---------------------------------------------------------------------------
  // Keys of the annotations table
  // ---------------------------------------------------------------------------

  /** `"$lessonIndex-$pdfId"`: the key shared by all pages of one PDF. */
  function PdfIndex(lessonIndex: string, pdfId: string): string
  {
    lessonIndex + "-" + pdfId
  }

  /** `"$pdfIndex-$pageIndex"`: the key of one page's row. */
  function PageKey(pdfIndex: string, pageIndex: Int32): string
  {
    pdfIndex + "-" + Decimal.IntToString(pageIndex)
  }

  /** Within one PDF, different pages have different row keys. */
  lemma PageKeyInjective(pdfIndex: string, p: Int32, q: Int32)
    requires PageKey(pdfIndex, p) == PageKey(pdfIndex, q)
    ensures p == q
  {
    var n := |pdfIndex| + 1;
    assert PageKey(pdfIndex, p)[n..] == Decimal.IntToString(p);
    assert PageKey(pdfIndex, q)[n..] == Decimal.IntToString(q);
    Decimal.IntToStringInjective(p, q);
  }

  /** A row stored under `k` is the row of its own page. */
  predicate WellKeyed(k: string, e: PdfAnnotationsEntity)
  {
    e.index == k && k == PageKey(e.pdfIndex, e.pageIndex)
  }

  predicate AllWellKeyed(table: map<string, PdfAnnotationsEntity>)
  {
    forall k :: k in table ==> WellKeyed(k, table[k])
  }

  // ---------------------------------------------------------------------------
  // Bulk insert into the annotations table (insert-or-replace by `index`)
  // ---------------------------------------------------------------------------

  /** `insertAll(entities)`: one upsert per entity, in list order. */
  function InsertAll(table: map<string, PdfAnnotationsEntity>, entities: seq<PdfAnnotationsEntity>)
    : (r: map<string, PdfAnnotationsEntity>)
    ensures r.Keys == table.Keys + (set e | e in entities :: e.index)
    decreases |entities|
  {
    if entities == [] then table
    else InsertAll(table[entities[0].index := entities[0]], entities[1..])
  }

  /** A key that no entity carries keeps its old row (or stays absent). */
  lemma {:induction false} InsertAllOther(
    table: map<string, PdfAnnotationsEntity>, entities: seq<PdfAnnotationsEntity>, k: string)
    requires forall j :: 0 <= j < |entities| ==> entities[j].index != k
    ensures k in InsertAll(table, entities) <==> k in table
    ensures k in table ==> InsertAll(table, entities)[k] == table[k]
    decreases |entities|
  {
    if entities != [] {
      InsertAllOther(table[entities[0].index := entities[0]], entities[1..], k);
    }
  }

  /** The last entity carrying a key is the row stored under it. */
  lemma {:induction false} InsertAllLast(
    table: map<string, PdfAnnotationsEntity>, entities: seq<PdfAnnotationsEntity>, i: nat)
    requires i < |entities|
    requires forall j :: i < j < |entities| ==> entities[j].index != entities[i].index
    ensures entities[i].index in InsertAll(table, entities)
    ensures InsertAll(table, entities)[entities[i].index] == entities[i]
    decreases |entities|
  {
    var t' := table[entities[0].index := entities[0]];
    if i == 0 {
      InsertAllOther(t', entities[1..], entities[0].index);
    } else {
      InsertAllLast(t', entities[1..], i - 1);
    }
  }

  /** Inserting well-keyed rows keeps every row well keyed. */
  lemma {:induction false} InsertAllWellKeyed(
    table: map<string, PdfAnnotationsEntity>, entities: seq<PdfAnnotationsEntity>)
    requires AllWellKeyed(table)
    requires forall j :: 0 <= j < |entities| ==> WellKeyed(entities[j].index, entities[j])
    ensures AllWellKeyed(InsertAll(table, entities))
    decreases |entities|
  {
    if entities != [] {
      InsertAllWellKeyed(table[entities[0].index := entities[0]], entities[1..]);
    }
  }

  /** Inserting `n` copies of one entity is one upsert when `n > 0` and nothing when `n == 0`. */
  lemma {:induction false} InsertAllCopies(
    table: map<string, PdfAnnotationsEntity>, entities: seq<PdfAnnotationsEntity>, e: PdfAnnotationsEntity)
    requires forall j :: 0 <= j < |entities| ==> entities[j] == e
    ensures InsertAll(table, entities) == if entities == [] then table else table[e.index := e]
    decreases |entities|
  {
    if entities != [] {
      var t' := table[e.index := e];
      InsertAllCopies(t', entities[1..], e);
      assert t'[e.index := e] == t';
    }
  }

  // ---------------------------------------------------------------------------
  // The per-page pull of syncAnnotations
  // ---------------------------------------------------------------------------

  /** `cached.find { it.index == key }`, where `cached` holds the rows of `pdfIndex`. */
  function CachedPage(cached: map<string, PdfAnnotationsEntity>, pdfIndex: string, key: string)
    : Option<PdfAnnotationsEntity>
  {
    if key in cached && cached[key].pdfIndex == pdfIndex then Some(cached[key]) else None
  }

  /** The test guarding a page's write: no cached row for it, or the remote page is newer. */
  predicate PageFires(cached: map<string, PdfAnnotationsEntity>, pdfIndex: string, page: Stamped<AnnotationPage>)
  {
    var hit := CachedPage(cached, pdfIndex, PageKey(pdfIndex, page.value.pageIndex));
    hit.None? || IsAfter(page.timestamp, Some(hit.value.timestamp))
  }

  /** The row built for a remote page. */
  function PageEntity(pdfIndex: string, page: Stamped<AnnotationPage>): (e: PdfAnnotationsEntity)
    ensures WellKeyed(e.index, e)
    ensures e.pdfIndex == pdfIndex && e.pageIndex == page.value.pageIndex
    ensures e.annotations == page.value.annotations && e.timestamp == page.timestamp
  {
    PdfAnnotationsEntity(
      PageKey(pdfIndex, page.value.pageIndex), pdfIndex, page.value.pageIndex,
      page.value.annotations, page.timestamp)
  }

  /** `pdf.annotations.map { PdfAnnotationsEntity(...) }`: one copy of the page's row per annotation. */
  function PageEntities(pdfIndex: string, page: Stamped<AnnotationPage>): (r: seq<PdfAnnotationsEntity>)
    ensures |r| == |page.value.annotations|
    ensures forall j :: 0 <= j < |r| ==> r[j] == PageEntity(pdfIndex, page)
  {
    seq(|page.value.annotations|, _ => PageEntity(pdfIndex, page))
  }

  /** One iteration of the `forEach` over remote pages; the test reads the
      snapshot `cached`, the write goes to the current `table`. */
  function PullPage(
    cached: map<string, PdfAnnotationsEntity>, table: map<string, PdfAnnotationsEntity>,
    pdfIndex: string, page: Stamped<AnnotationPage>): map<string, PdfAnnotationsEntity>
  {
    if PageFires(cached, pdfIndex, page) then InsertAll(table, PageEntities(pdfIndex, page)) else table
  }

  /** The whole `forEach`, page by page in list order. */
  function PullPages(
    cached: map<string, PdfAnnotationsEntity>, table: map<string, PdfAnnotationsEntity>,
    pdfIndex: string, pages: seq<Stamped<AnnotationPage>>): map<string, PdfAnnotationsEntity>
    decreases |pages|
  {
    if pages == [] then table
    else PullPages(cached, PullPage(cached, table, pdfIndex, pages[0]), pdfIndex, pages[1..])
  }

  /** Unfolding the `forEach` at position `i`. */
  lemma PullPagesStep(
    cached: map<string, PdfAnnotationsEntity>, table: map<string, PdfAnnotationsEntity>,
    pdfIndex: string, pages: seq<Stamped<AnnotationPage>>, i: nat)
    requires i < |pages|
    ensures PullPages(cached, table, pdfIndex, pages[i..]) ==
            PullPages(cached, PullPage(cached, table, pdfIndex, pages[i]), pdfIndex, pages[i + 1..])
  {
    assert pages[i..][1..] == pages[i + 1..];
  }

  /** A page's pull writes its one row when its test passes and it has annotations,
      and writes nothing otherwise (in particular for an empty annotation list). */
  lemma PullPageEffect(
    cached: map<string, PdfAnnotationsEntity>, table: map<string, PdfAnnotationsEntity>,
    pdfIndex: string, page: Stamped<AnnotationPage>)
    ensures PullPage(cached, table, pdfIndex, page) ==
              if PageFires(cached, pdfIndex, page) && page.value.annotations != []
              then table[PageKey(pdfIndex, page.value.pageIndex) := PageEntity(pdfIndex, page)]
              else table
  {
    InsertAllCopies(table, PageEntities(pdfIndex, page), PageEntity(pdfIndex, page));
  }

  lemma PullPageWellKeyed(
    cached: map<string, PdfAnnotationsEntity>, table: map<string, PdfAnnotationsEntity>,
    pdfIndex: string, page: Stamped<AnnotationPage>)
    requires AllWellKeyed(table)
    ensures AllWellKeyed(PullPage(cached, table, pdfIndex, page))
  {
    PullPageEffect(cached, table, pdfIndex, page);
  }

  lemma {:induction false} PullPagesWellKeyed(
    cached: map<string, PdfAnnotationsEntity>, table: map<string, PdfAnnotationsEntity>,
    pdfIndex: string, pages: seq<Stamped<AnnotationPage>>)
    requires AllWellKeyed(table)
    ensures AllWellKeyed(PullPages(cached, table, pdfIndex, pages))
    decreases |pages|
  {
    if pages != [] {
      PullPageEffect(cached, table, pdfIndex, pages[0]);
      PullPagesWellKeyed(cached, PullPage(cached, table, pdfIndex, pages[0]), pdfIndex, pages[1..]);
    }
  }

  /** Rows whose key is not the key of any remote page are left untouched. */
  lemma {:induction false} PullPagesOutside(
    cached: map<string, PdfAnnotationsEntity>, table: map<string, PdfAnnotationsEntity>,
    pdfIndex: string, pages: seq<Stamped<AnnotationPage>>, k: string)
    requires forall j :: 0 <= j < |pages| ==> PageKey(pdfIndex, pages[j].value.pageIndex) != k
    ensures k in PullPages(cached, table, pdfIndex, pages) <==> k in table
    ensures k in table ==> PullPages(cached, table, pdfIndex, pages)[k] == table[k]
    decreases |pages|
  {
    if pages != [] {
      PullPageEffect(cached, table, pdfIndex, pages[0]);
      PullPagesOutside(cached, PullPage(cached, table, pdfIndex, pages[0]), pdfIndex, pages[1..], k);
    }
  }

  predicate DistinctPageIndexes(pages: seq<Stamped<AnnotationPage>>)
  {
    forall i, j :: 0 <= i < j < |pages| ==> pages[i].value.pageIndex != pages[j].value.pageIndex
  }

  /** Two tables agree on key `k`. */
  predicate SameAt(m1: map<string, PdfAnnotationsEntity>, m2: map<string, PdfAnnotationsEntity>, k: string)
  {
    (k in m1 <==> k in m2) && (k in m1 ==> m1[k] == m2[k])
  }

  /** A page's pull only depends, at any key, on what the table holds at that key. */
  lemma PullPageSameAt(
    cached: map<string, PdfAnnotationsEntity>, t1: map<string, PdfAnnotationsEntity>,
    t2: map<string, PdfAnnotationsEntity>, pdfIndex: string, page: Stamped<AnnotationPage>, k: string)
    requires SameAt(t1, t2, k)
    ensures SameAt(PullPage(cached, t1, pdfIndex, page), PullPage(cached, t2, pdfIndex, page), k)
  {
    PullPageEffect(cached, t1, pdfIndex, page);
    PullPageEffect(cached, t2, pdfIndex, page);
  }

  /** The first page's row is left alone by the pulls of later, distinct pages. */
  lemma PullPagesAtFirst(
    cached: map<string, PdfAnnotationsEntity>, table: map<string, PdfAnnotationsEntity>,
    pdfIndex: string, pages: seq<Stamped<AnnotationPage>>)
    requires 0 < |pages|
    requires DistinctPageIndexes(pages)
    ensures SameAt(PullPages(cached, table, pdfIndex, pages), PullPage(cached, table, pdfIndex, pages[0]),
                   PageKey(pdfIndex, pages[0].value.pageIndex))
  {
    var key := PageKey(pdfIndex, pages[0].value.pageIndex);
    var rest := pages[1..];
    forall j | 0 <= j < |rest|
      ensures PageKey(pdfIndex, rest[j].value.pageIndex) != key
    {
      assert rest[j] == pages[j + 1];
      if PageKey(pdfIndex, rest[j].value.pageIndex) == key {
        PageKeyInjective(pdfIndex, rest[j].value.pageIndex, pages[0].value.pageIndex);
      }
    }
    PullPagesOutside(cached, PullPage(cached, table, pdfIndex, pages[0]), pdfIndex, rest, key);
  }

  /** The first page's pull does not touch the row of a later, distinct page. */
  lemma PullPageFirstElsewhere(
    cached: map<string, PdfAnnotationsEntity>, table: map<string, PdfAnnotationsEntity>,
    pdfIndex: string, pages: seq<Stamped<AnnotationPage>>, i: nat)
    requires 0 < i < |pages|
    requires DistinctPageIndexes(pages)
    ensures var key := PageKey(pdfIndex, pages[i].value.pageIndex);
            SameAt(PullPage(cached, PullPage(cached, table, pdfIndex, pages[0]), pdfIndex, pages[i]),
                   PullPage(cached, table, pdfIndex, pages[i]), key)
  {
    var key := PageKey(pdfIndex, pages[i].value.pageIndex);
    var t' := PullPage(cached, table, pdfIndex, pages[0]);
    if PageKey(pdfIndex, pages[0].value.pageIndex) == key {
      PageKeyInjective(pdfIndex, pages[0].value.pageIndex, pages[i].value.pageIndex);
    }
    PullPageEffect(cached, table, pdfIndex, pages[0]);
    assert SameAt(t', table, key);
    PullPageSameAt(cached, t', table, pdfIndex, pages[i], key);
  }

  /** When the remote pages are distinct, each page's row ends up exactly as that
      page's own pull leaves it (see PullPageEffect): the remote row if its test
      passed and it has annotations, otherwise the row it had before. */
  lemma {:induction false} PullPagesAt(
    cached: map<string, PdfAnnotationsEntity>, table: map<string, PdfAnnotationsEntity>,
    pdfIndex: string, pages: seq<Stamped<AnnotationPage>>, i: nat)
    requires i < |pages|
    requires DistinctPageIndexes(pages)
    ensures SameAt(PullPages(cached, table, pdfIndex, pages), PullPage(cached, table, pdfIndex, pages[i]),
                   PageKey(pdfIndex, pages[i].value.pageIndex))
    decreases |pages|
  {
    if i == 0 {
      PullPagesAtFirst(cached, table, pdfIndex, pages);
    } else {
      var t' := PullPage(cached, table, pdfIndex, pages[0]);
      var rest := pages[1..];
      assert rest[i - 1] == pages[i];
      assert DistinctPageIndexes(rest) by {
        forall a, b | 0 <= a < b < |rest| ensures rest[a].value.pageIndex != rest[b].value.pageIndex {
          assert rest[a] == pages[a + 1] && rest[b] == pages[b + 1];
        }
      }
      PullPagesAt(cached, t', pdfIndex, rest, i - 1);
      PullPageFirstElsewhere(cached, table, pdfIndex, pages, i);
    }
  }

  // ---------------------------------------------------------------------------
  // The rows written by saveAnnotations
  // ---------------------------------------------------------------------------

  /** The rows `saveAnnotations` builds: one per page, stamped with the clock
      reading taken for that page. */
  function SavedEntities(pdfIndex: string, pages: seq<AnnotationPage>, clock: seq<Long>)
    : (r: seq<PdfAnnotationsEntity>)
    requires |clock| == |pages|
    ensures |r| == |pages|
    ensures forall i :: 0 <= i < |r| ==>
              WellKeyed(r[i].index, r[i]) && r[i].pdfIndex == pdfIndex &&
              r[i].pageIndex == pages[i].pageIndex && r[i].annotations == pages[i].annotations &&
              r[i].timestamp == clock[i]
  {
    seq(|pages|, i requires 0 <= i < |pages| =>
      PdfAnnotationsEntity(PageKey(pdfIndex, pages[i].pageIndex), pdfIndex, pages[i].pageIndex,
                           pages[i].annotations, clock[i]))
  }

  predicate DistinctPages(pages: seq<AnnotationPage>)
  {
    forall i, j :: 0 <= i < j < |pages| ==> pages[i].pageIndex != pages[j].pageIndex
  }

  /** After the bulk insert of a save with distinct pages, every page's row holds
      that page's annotations and its clock reading. */
  lemma SavedRowsAt(
    table: map<string, PdfAnnotationsEntity>, pdfIndex: string, pages: seq<AnnotationPage>,
    clock: seq<Long>, i: nat)
    requires |clock| == |pages| && i < |pages|
    requires DistinctPages(pages)
    ensures var key := PageKey(pdfIndex, pages[i].pageIndex);
            var result := InsertAll(table, SavedEntities(pdfIndex, pages, clock));
            key in result && result[key] == PdfAnnotationsEntity(
              key, pdfIndex, pages[i].pageIndex, pages[i].annotations, clock[i])
  {
    var es := SavedEntities(pdfIndex, pages, clock);
    forall j | i < j < |es| ensures es[j].index != es[i].index {
      if es[j].index == es[i].index {
        PageKeyInjective(pdfIndex, pages[j].pageIndex, pages[i].pageIndex);
      }
    }
    InsertAllLast(table, es, i);
  }

  // ---------------------------------------------------------------------------
  // The repository
  // ---------------------------------------------------------------------------

  /** UserDataRepositoryImpl: the three local tables (the DAOs) and the log of
      upload requests it has handed to the network layer. */
  class UserDataRepository {
    var highlights: map<string, HighlightsEntity>
    var comments: map<string, CommentsEntity>
    var annotations: map<string, PdfAnnotationsEntity>
    var uploads: seq<Upload>

    /** Every annotation row is stored under the key `"$pdfIndex-$pageIndex"` of its own page. */
    ghost predicate Valid()
      reads this
    {
      AllWellKeyed(annotations)
    }

    constructor ()
      ensures Valid()
      ensures highlights == map[] && comments == map[] && annotations == map[] && uploads == []
    {
      highlights, comments, annotations, uploads := map[], map[], map[], [];
    }

    /** The value `getHighlights` maps the current row to: a missing row reads as `""`. */
    function GetHighlights(readIndex: string): (r: ReadHighlights)
      reads this
      ensures r.readIndex == readIndex
      ensures readIndex !in highlights ==> r.highlights == ""
      ensures readIndex in highlights ==> r.highlights == highlights[readIndex].highlights
    {
      ReadHighlights(readIndex, if readIndex in highlights then highlights[readIndex].highlights else "")
    }

    /** The value `getComments` maps the current row to: a missing row reads as no comments. */
    function GetComments(readIndex: string): (r: ReadComments)
      reads this
      ensures r.readIndex == readIndex
      ensures readIndex !in comments ==> r.comments == []
      ensures readIndex in comments ==> r.comments == comments[readIndex].comments
    {
      ReadComments(readIndex, if readIndex in comments then comments[readIndex].comments else [])
    }

    /** The pages `getAnnotations` maps the rows of one PDF to. */
    function GetAnnotations(lessonIndex: string, pdfId: string): (r: set<AnnotationPage>)
      reads this
      ensures forall k :: k in annotations && annotations[k].pdfIndex == PdfIndex(lessonIndex, pdfId) ==>
                AnnotationPage(annotations[k].pageIndex, annotations[k].annotations) in r
      ensures forall p :: p in r ==>
                (exists k :: k in annotations && annotations[k].pdfIndex == PdfIndex(lessonIndex, pdfId) &&
                             p == AnnotationPage(annotations[k].pageIndex, annotations[k].annotations))
      ensures Valid() ==> forall p :: p in r ==>
                var key := PageKey(PdfIndex(lessonIndex, pdfId), p.pageIndex);
                key in annotations && annotations[key].annotations == p.annotations
    {
      set k | k in annotations && annotations[k].pdfIndex == PdfIndex(lessonIndex, pdfId) ::
        AnnotationPage(annotations[k].pageIndex, annotations[k].annotations)
    }

    /** With every row under its own page key, a PDF reads back at most one
        annotation list per page. */
    lemma AnnotationPagesUnique(lessonIndex: string, pdfId: string, p: AnnotationPage, q: AnnotationPage)
      requires Valid()
      requires p in GetAnnotations(lessonIndex, pdfId) && q in GetAnnotations(lessonIndex, pdfId)
      requires p.pageIndex == q.pageIndex
      ensures p == q
    {
      var pdfIndex := PdfIndex(lessonIndex, pdfId);
      var kp :| kp in annotations && annotations[kp].pdfIndex == pdfIndex &&
                p == AnnotationPage(annotations[kp].pageIndex, annotations[kp].annotations);
      var kq :| kq in annotations && annotations[kq].pdfIndex == pdfIndex &&
                q == AnnotationPage(annotations[kq].pageIndex, annotations[kq].annotations);
      assert WellKeyed(kp, annotations[kp]) && WellKeyed(kq, annotations[kq]);
    }

    /** `syncHighlights`: pull a strictly newer remote record, or push a strictly
        newer cached one; both tests read the row as it was before the pull. */
    method SyncHighlights(readIndex: string, response: NetworkResource<Stamped<ReadHighlights>>)
      requires Valid()
      modifies this
      ensures Valid()
      ensures comments == old(comments) && annotations == old(annotations)
      ensures response.NetworkFailure? ==> highlights == old(highlights) && uploads == old(uploads)
      ensures response.NetworkSuccess? ==>
                var cached := Lookup(old(highlights), readIndex);
                var remote := response.body;
                var pull := Pulls(HighlightsStamp(cached), RemoteStamp(remote));
                var push := Pushes(HighlightsStamp(cached), RemoteStamp(remote));
                && (pull ==>
                      highlights == old(highlights)[readIndex :=
                        HighlightsEntity(readIndex, remote.value.value.highlights, remote.value.timestamp)]
                      && uploads == old(uploads))
                && (push ==>
                      highlights == old(highlights)
                      && uploads == old(uploads) + [HighlightsUpload(ReadHighlights(readIndex, cached.value.highlights))])
                && (!pull && !push ==> highlights == old(highlights) && uploads == old(uploads))
    {
      if response.NetworkFailure? {
        return;
      }
      var remote := response.body;
      var cached := Lookup(highlights, readIndex);
      ReconcileRule(HighlightsStamp(cached), RemoteStamp(remote));
      if remote.Some? && IsAfter(remote.value.timestamp, HighlightsStamp(cached)) {
        highlights := highlights[readIndex :=
          HighlightsEntity(readIndex, remote.value.value.highlights, remote.value.timestamp)];
      }
      if cached.Some? && IsAfter(cached.value.timestamp, RemoteStamp(remote)) {
        uploads := uploads + [HighlightsUpload(ReadHighlights(readIndex, cached.value.highlights))];
      }
    }

    /** `saveHighlights`: stamp with the device time, upsert, then request one upload. */
    method SaveHighlights(h: ReadHighlights, now: Long)
      requires Valid()
      modifies this
      ensures Valid()
      ensures highlights == old(highlights)[h.readIndex := HighlightsEntity(h.readIndex, h.highlights, now)]
      ensures uploads == old(uploads) + [HighlightsUpload(h)]
      ensures comments == old(comments) && annotations == old(annotations)
      ensures GetHighlights(h.readIndex) == h
    {
      highlights := highlights[h.readIndex := HighlightsEntity(h.readIndex, h.highlights, now)];
      uploads := uploads + [HighlightsUpload(h)];
    }

    /** `syncComments`: the same rule as `syncHighlights`, on the comments table. */
    method SyncComments(readIndex: string, response: NetworkResource<Stamped<ReadComments>>)
      requires Valid()
      modifies this
      ensures Valid()
      ensures highlights == old(highlights) && annotations == old(annotations)
      ensures response.NetworkFailure? ==> comments == old(comments) && uploads == old(uploads)
      ensures response.NetworkSuccess? ==>
                var cached := Lookup(old(comments), readIndex);
                var remote := response.body;
                var pull := Pulls(CommentsStamp(cached), RemoteStamp(remote));
                var push := Pushes(CommentsStamp(cached), RemoteStamp(remote));
                && (pull ==>
                      comments == old(comments)[readIndex :=
                        CommentsEntity(readIndex, remote.value.value.comments, remote.value.timestamp)]
                      && uploads == old(uploads))
                && (push ==>
                      comments == old(comments)
                      && uploads == old(uploads) + [CommentsUpload(ReadComments(readIndex, cached.value.comments))])
                && (!pull && !push ==> comments == old(comments) && uploads == old(uploads))
    {
      if response.NetworkFailure? {
        return;
      }
      var remote := response.body;
      var cached := Lookup(comments, readIndex);
      ReconcileRule(CommentsStamp(cached), RemoteStamp(remote));
      if remote.Some? && IsAfter(remote.value.timestamp, CommentsStamp(cached)) {
        comments := comments[readIndex :=
          CommentsEntity(readIndex, remote.value.value.comments, remote.value.timestamp)];
      }
      if cached.Some? && IsAfter(cached.value.timestamp, RemoteStamp(remote)) {
        uploads := uploads + [CommentsUpload(ReadComments(readIndex, cached.value.comments))];
      }
    }

    /** `saveComments`: stamp with the device time, upsert, then request one upload. */
    method SaveComments(c: ReadComments, now: Long)
      requires Valid()
      modifies this
      ensures Valid()
      ensures comments == old(comments)[c.readIndex := CommentsEntity(c.readIndex, c.comments, now)]
      ensures uploads == old(uploads) + [CommentsUpload(c)]
      ensures highlights == old(highlights) && annotations == old(annotations)
      ensures GetComments(c.readIndex) == c
    {
      comments := comments[c.readIndex := CommentsEntity(c.readIndex, c.comments, now)];
      uploads := uploads + [CommentsUpload(c)];
    }

    /** `syncAnnotations`: pull each remote page on its own test against the rows
        cached before the loop; nothing is ever uploaded. */
    method SyncAnnotations(
      lessonIndex: string, pdfId: string, response: NetworkResource<seq<Stamped<AnnotationPage>>>)
      requires Valid()
      modifies this
      ensures Valid()
      ensures highlights == old(highlights) && comments == old(comments) && uploads == old(uploads)
      ensures annotations ==
                if response.NetworkSuccess? && response.body.Some?
                then PullPages(old(annotations), old(annotations), PdfIndex(lessonIndex, pdfId), response.body.value)
                else old(annotations)
    {
      if response.NetworkFailure? {
        return;
      }
      var pdfIndex := PdfIndex(lessonIndex, pdfId);
      var remote := response.body;
      var cached := annotations;
      if remote.Some? {
        var pages := remote.value;
        var i := 0;
        while i < |pages|
          invariant 0 <= i <= |pages|
          invariant PullPages(cached, annotations, pdfIndex, pages[i..]) == PullPages(cached, cached, pdfIndex, pages)
          invariant AllWellKeyed(annotations)
          invariant highlights == old(highlights) && comments == old(comments) && uploads == old(uploads)
        {
          var page := pages[i];
          PullPagesStep(cached, annotations, pdfIndex, pages, i);
          PullPageWellKeyed(cached, annotations, pdfIndex, page);
          ghost var next := PullPage(cached, annotations, pdfIndex, page);
          var hit := CachedPage(cached, pdfIndex, PageKey(pdfIndex, page.value.pageIndex));
          if hit.None? || IsAfter(page.timestamp, Some(hit.value.timestamp)) {
            annotations := InsertAll(annotations, PageEntities(pdfIndex, page));
          }
          assert annotations == next;
          i := i + 1;
        }
      }
    }

    /** `saveAnnotations`: one row per page under `"$pdfIndex-$pageIndex"`, each
        stamped with its own clock reading, then one upload of the whole list. */
    method SaveAnnotations(lessonIndex: string, pdfId: string, pages: seq<AnnotationPage>, clock: seq<Long>)
      requires Valid()
      requires |clock| == |pages|
      modifies this
      ensures Valid()
      ensures annotations == InsertAll(old(annotations), SavedEntities(PdfIndex(lessonIndex, pdfId), pages, clock))
      ensures uploads == old(uploads) + [AnnotationsUpload(lessonIndex, pdfId, pages)]
      ensures highlights == old(highlights) && comments == old(comments)
      ensures DistinctPages(pages) ==>
                forall i :: 0 <= i < |pages| ==> pages[i] in GetAnnotations(lessonIndex, pdfId)
    {
      var pdfIndex := PdfIndex(lessonIndex, pdfId);
      var entities := SavedEntities(pdfIndex, pages, clock);
      InsertAllWellKeyed(annotations, entities);
      annotations := InsertAll(annotations, entities);
      uploads := uploads + [AnnotationsUpload(lessonIndex, pdfId, pages)];
      if DistinctPages(pages) {
        forall i | 0 <= i < |pages|
          ensures pages[i] in GetAnnotations(lessonIndex, pdfId)
        {
          SavedRowsAt(old(annotations), pdfIndex, pages, clock, i);
          var key := PageKey(pdfIndex, pages[i].pageIndex);
          assert key in annotations && annotations[key].pdfIndex == pdfIndex;
          assert AnnotationPage(annotations[key].pageIndex, annotations[key].annotations) == pages[i];
        }
      }
    }

    /** `clear`: empty all three local tables (on sign-out). */
    method Clear()
      modifies this
      ensures Valid()
      ensures highlights == map[] && comments == map[] && annotations == map[]
      ensures uploads == old(uploads)
    {
      highlights, comments, annotations := map[], map[], map[];
    }
  }
}
