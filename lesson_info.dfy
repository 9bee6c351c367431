/** The lesson-info data source (LessonInfoDataSource): a cache over the lessons
    table and a network source that splits a lesson index into its path parts. */
module LessonInfo {
  import opened Models

  /** LessonInfoDataSource.Request. */
  datatype Request = Request(lessonIndex: string)

  /** A row of the lessons table (LessonEntity), with the fields the cache reads. */
  datatype LessonEntity = LessonEntity(
    index: string, title: string, startDate: string, endDate: string, cover: string,
    id: string, path: string, fullPath: string, pdfOnly: bool,
    days: seq<LessonDay>, pdfs: seq<LessonPdf>)

  /** SSLesson. */
  datatype Lesson = Lesson(
    title: string, startDate: string, endDate: string, cover: string,
    id: string, index: string, path: string, fullPath: string, pdfOnly: bool)

  /** SSLessonInfo. */
  datatype LessonInfoModel = LessonInfoModel(lesson: Lesson, days: seq<LessonDay>, pdfs: seq<LessonPdf>)

  /** `LessonEntity.toInfoModel()`: every field is carried over unchanged. */
  function ToInfoModel(e: LessonEntity): (r: LessonInfoModel)
    ensures r.lesson.index == e.index && r.lesson.id == e.id && r.lesson.title == e.title
    ensures r.lesson.startDate == e.startDate && r.lesson.endDate == e.endDate && r.lesson.cover == e.cover
    ensures r.lesson.path == e.path && r.lesson.fullPath == e.fullPath && r.lesson.pdfOnly == e.pdfOnly
    ensures r.days == e.days && r.pdfs == e.pdfs
  {
    LessonInfoModel(
      Lesson(e.title, e.startDate, e.endDate, e.cover, e.id, e.index, e.path, e.fullPath, e.pdfOnly),
      e.days, e.pdfs)
  }

  // ---------------------------------------------------------------------------
  // Kotlin's character search and substring helpers
  // ---------------------------------------------------------------------------

  /** `s.indexOf(c)`: the first position of `c`, or -1. */
  function IndexOf(s: string, c: char): (r: int)
    ensures -1 <= r < |s|
    ensures r == -1 <==> c !in s
    ensures r >= 0 ==> s[r] == c && c !in s[..r]
  {
    if s == [] then -1
    else if s[0] == c then 0
    else
      var i := IndexOf(s[1..], c);
      assert s[1..][..i + 1] == s[1..i + 2] by { if i >= 0 { } }
      if i == -1 then -1 else i + 1
  }

  /** `s.lastIndexOf(c)`: the last position of `c`, or -1. */
  function LastIndexOf(s: string, c: char): (r: int)
    ensures -1 <= r < |s|
    ensures r == -1 <==> c !in s
    ensures r >= 0 ==> s[r] == c && c !in s[r + 1..]
  {
    if s == [] then -1
    else if s[|s| - 1] == c then |s| - 1
    else
      var i := LastIndexOf(s[..|s| - 1], c);
      assert s == s[..|s| - 1] + [s[|s| - 1]];
      assert i >= 0 ==> s[i + 1..] == s[..|s| - 1][i + 1..] + [s[|s| - 1]];
      i
  }

  /** A position holding `c` with no `c` after it is the last one. */
  lemma {:induction false} LastIndexOfUnique(s: string, c: char, r: nat)
    requires r < |s| && s[r] == c && c !in s[r + 1..]
    ensures LastIndexOf(s, c) == r
  {
    assert s[r] in s;
  }

  /** `substringBefore(c)`: the prefix up to the first `c`; the whole string when
      `c` is missing. */
  function SubstringBefore(s: string, c: char): string
  {
    var i := IndexOf(s, c);
    if i == -1 then s else s[..i]
  }

  /** `substringAfter(c)`: the suffix after the first `c`; the whole string when
      `c` is missing. */
  function SubstringAfter(s: string, c: char): string
  {
    var i := IndexOf(s, c);
    if i == -1 then s else s[i + 1..]
  }

  /** `substringBeforeLast(c)`: the prefix up to the last `c`; the whole string
      when `c` is missing. */
  function SubstringBeforeLast(s: string, c: char): string
  {
    var i := LastIndexOf(s, c);
    if i == -1 then s else s[..i]
  }

  /** `substringAfterLast(c)`: the suffix after the last `c`; the whole string
      when `c` is missing. */
  function SubstringAfterLast(s: string, c: char): string
  {
    var i := LastIndexOf(s, c);
    if i == -1 then s else s[i + 1..]
  }

  /** What the four helpers return: a prefix or suffix of the string cut at the
      first or last `c`, with the cut character just outside it; the whole
      string when `c` is missing. */
  lemma {:induction false} SubstringSpec(s: string, c: char)
    ensures var r := SubstringBefore(s, c);
            && |r| <= |s| && r == s[..|r|] && c !in r
            && (c in s ==> |r| < |s| && s[|r|] == c)
            && (c !in s ==> r == s)
    ensures var r := SubstringAfter(s, c);
            && |r| <= |s| && r == s[|s| - |r|..]
            && (c in s ==> |r| < |s| && s[|s| - |r| - 1] == c && c !in s[..|s| - |r| - 1])
            && (c !in s ==> r == s)
    ensures var r := SubstringBeforeLast(s, c);
            && |r| <= |s| && r == s[..|r|]
            && (c in s ==> |r| < |s| && s[|r|] == c && c !in s[|r| + 1..])
            && (c !in s ==> r == s)
    ensures var r := SubstringAfterLast(s, c);
            && |r| <= |s| && r == s[|s| - |r|..] && c !in r
            && (c in s ==> |r| < |s| && s[|s| - |r| - 1] == c)
            && (c !in s ==> r == s)
  {
  }

  // ---------------------------------------------------------------------------
  // Splitting a lesson index `lang-quarterly-lesson`
  // ---------------------------------------------------------------------------

  /** The three path parts the network source passes to `getLessonInfo`. */
  datatype LessonPath = LessonPath(language: string, quarterlyId: string, lessonId: string)

  function PathOf(index: string): LessonPath
  {
    LessonPath(
      SubstringBefore(index, '-'),
      SubstringBeforeLast(SubstringAfter(index, '-'), '-'),
      SubstringAfterLast(index, '-'))
  }

  /** With no `'-'` at all, each part is the whole index. */
  lemma {:induction false} PathWithoutDash(index: string)
    requires '-' !in index
    ensures PathOf(index) == LessonPath(index, index, index)
  {
  }

  /** With a `'-'`, the language is the text before the first one and the lesson id
      the text after the last one, so neither contains a `'-'`. */
  lemma {:induction false} PathOuterParts(index: string)
    requires '-' in index
    ensures var p := PathOf(index);
            && p.language == index[..IndexOf(index, '-')]
            && p.lessonId == index[LastIndexOf(index, '-') + 1..]
            && '-' !in p.language && '-' !in p.lessonId
  {
    var f, l := IndexOf(index, '-'), LastIndexOf(index, '-');
    assert SubstringBefore(index, '-') == index[..f];
    assert SubstringAfterLast(index, '-') == index[l + 1..];
  }

  /** The index holds two distinct dashes. */
  predicate TwoDashes(index: string)
  {
    exists i, j :: 0 <= i < j < |index| && index[i] == '-' && index[j] == '-'
  }

  lemma {:induction false} TwoDashesApart(index: string)
    requires TwoDashes(index)
    ensures IndexOf(index, '-') < LastIndexOf(index, '-')
  {
    var i, j :| 0 <= i < j < |index| && index[i] == '-' && index[j] == '-';
    assert index[i] in index;
  }

  /** The last `c` of a suffix that still contains the last `c` of `s` is that same one. */
  lemma {:induction false} LastIndexOfSuffix(s: string, c: char, start: nat)
    requires start <= LastIndexOf(s, c)
    ensures LastIndexOf(s[start..], c) == LastIndexOf(s, c) - start
  {
    var l := LastIndexOf(s, c);
    var t := s[start..];
    assert t[l - start] == s[l];
    assert t[l - start + 1..] == s[l + 1..];
    LastIndexOfUnique(t, c, l - start);
  }

  /** With two or more dashes, the quarterly id is the text strictly between the
      first and the last one. */
  lemma {:induction false} PathQuarterly(index: string)
    requires TwoDashes(index)
    ensures PathOf(index).quarterlyId == index[IndexOf(index, '-') + 1..LastIndexOf(index, '-')]
  {
    TwoDashesApart(index);
    var f, l := IndexOf(index, '-'), LastIndexOf(index, '-');
    var after := index[f + 1..];
    assert SubstringAfter(index, '-') == after;
    LastIndexOfSuffix(index, '-', f + 1);
    SubstringBeforeLastAt(after, '-', l - f - 1);
    assert after[..l - f - 1] == index[f + 1..l];
  }

  lemma {:induction false} SubstringBeforeLastAt(s: string, c: char, k: nat)
    requires LastIndexOf(s, c) == k
    ensures SubstringBeforeLast(s, c) == s[..k]
  {
  }

  /** Cutting a string at two of its dashes and joining the parts with dashes
      gives the string back. */
  lemma {:induction false} JoinAtDashes(s: string, f: nat, l: nat, a: string, b: string, c: string)
    requires f < l < |s| && s[f] == '-' && s[l] == '-'
    requires a == s[..f] && b == s[f + 1..l] && c == s[l + 1..]
    ensures a + "-" + b + "-" + c == s
  {
    assert s[..l] == a + "-" + b;
    assert s == s[..l] + "-" + c;
  }

  /** Round trip: with two or more dashes the three parts, joined with `'-'`,
      give back the index. */
  lemma {:induction false} PathRoundTrip(index: string)
    requires TwoDashes(index)
    ensures var p := PathOf(index);
            p.language + "-" + p.quarterlyId + "-" + p.lessonId == index
  {
    var f, l := PathCuts(index);
    var p := PathOf(index);
    JoinAtDashes(index, f, l, p.language, p.quarterlyId, p.lessonId);
  }

  /** The two dash positions the parts are cut at, and the parts themselves. */
  lemma {:induction false} PathCuts(index: string) returns (f: nat, l: nat)
    requires TwoDashes(index)
    ensures f < l < |index| && index[f] == '-' && index[l] == '-'
    ensures var p := PathOf(index);
            p.language == index[..f] && p.quarterlyId == index[f + 1..l] && p.lessonId == index[l + 1..]
  {
    TwoDashesApart(index);
    PathQuarterly(index);
    f, l := IndexOf(index, '-'), LastIndexOf(index, '-');
    assert SubstringBefore(index, '-') == index[..f];
    assert SubstringAfterLast(index, '-') == index[l + 1..];
  }

  /** Two different dash positions make two dashes. */
  lemma {:induction false} ApartMeansTwoDashes(index: string)
    requires IndexOf(index, '-') < LastIndexOf(index, '-')
    ensures TwoDashes(index)
  {
    var f, l := IndexOf(index, '-'), LastIndexOf(index, '-');
    assert index[f] == '-' && index[l] == '-';
  }

  /** With exactly one dash, `a-b` gives language `a` and both other parts `b`. */
  lemma {:induction false} PathOneDash(index: string)
    requires '-' in index && !TwoDashes(index)
    ensures var f := IndexOf(index, '-');
            PathOf(index) == LessonPath(index[..f], index[f + 1..], index[f + 1..])
  {
    var f, l := IndexOf(index, '-'), LastIndexOf(index, '-');
    if f < l {
      ApartMeansTwoDashes(index);
      assert false;
    }
    var rest := index[f + 1..];
    assert '-' !in rest;
    assert SubstringBefore(index, '-') == index[..f];
    assert SubstringAfter(index, '-') == rest;
    assert SubstringAfterLast(index, '-') == rest;
    assert SubstringBeforeLast(rest, '-') == rest;
  }

  // ---------------------------------------------------------------------------
  // The network source
  // ---------------------------------------------------------------------------

  /** What `lessonsApi.getLessonInfo` does: return a response (whose body may be
      absent) or throw. */
  datatype ApiCall<T> = Response(body: Option<T>) | Thrown(cause: string)

  /** `network.getItem`: split the index, call the API, map the outcome. */
  function NetworkGetItem(request: Request, api: LessonPath -> ApiCall<LessonInfoModel>)
    : (r: Resource<LessonInfoModel>)
    ensures var call := api(PathOf(request.lessonIndex));
            && (r.Success? <==> call.Response? && call.body.Some?)
            && (r.Success? ==> r.data == call.body.value)
            && (call.Thrown? ==> r == Error(call.cause))
            && (call.Response? && call.body.None? ==> r == Error(""))
            && !r.Loading?
  {
    match api(PathOf(request.lessonIndex))
    case Thrown(cause) => Error(cause)
    case Response(body) =>
      match body
      case Some(info) => Success(info)
      case None => Error("")
  }

  // ---------------------------------------------------------------------------
  // The cache source
  // ---------------------------------------------------------------------------

  /** The cache source over the lessons table (`lessonsDao`), keyed by lesson index. */
  class LessonInfoCache {
    var lessons: map<string, LessonEntity>

    ghost predicate Valid()
      reads this
    {
      forall k :: k in lessons ==> lessons[k].index == k
    }

    constructor (rows: map<string, LessonEntity>)
      requires forall k :: k in rows ==> rows[k].index == k
      ensures Valid() && lessons == rows
    {
      lessons := rows;
    }

    /** `cache.getItem`: loading when the table has no row, otherwise the row's model. */
    function GetItem(request: Request): (r: Resource<LessonInfoModel>)
      reads this
      ensures r.Loading? <==> request.lessonIndex !in lessons
      ensures request.lessonIndex in lessons ==> r == Success(ToInfoModel(lessons[request.lessonIndex]))
      ensures !r.Error?
      ensures Valid() && r.Success? ==> r.data.lesson.index == request.lessonIndex
    {
      if request.lessonIndex in lessons then Success(ToInfoModel(lessons[request.lessonIndex])) else Loading
    }

    /** `cache.updateItem`: rewrite the days and PDFs of the row keyed by the
        lesson's index (an update of a missing row changes nothing). */
    method UpdateItem(data: LessonInfoModel)
      requires Valid()
      modifies this
      ensures Valid()
      ensures var k := data.lesson.index;
              lessons == if k in old(lessons)
                         then old(lessons)[k := old(lessons)[k].(days := data.days, pdfs := data.pdfs)]
                         else old(lessons)
      ensures forall k :: k != data.lesson.index ==>
                (k in lessons <==> k in old(lessons)) && (k in lessons ==> lessons[k] == old(lessons)[k])
      ensures var k := data.lesson.index;
              GetItem(Request(k)) ==
                if k in old(lessons)
                then Success(ToInfoModel(old(lessons)[k]).(days := data.days, pdfs := data.pdfs))
                else Loading
    {
      var k := data.lesson.index;
      if k in lessons {
        lessons := lessons[k := lessons[k].(days := data.days, pdfs := data.pdfs)];
      }
    }
  }
}
