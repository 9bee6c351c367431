/** The readings screen model (ReadingsViewModel): the user-content state built
    from the comments and highlights streams, and the availability flags set at
    start-up. */
module Readings {
  import opened Models
  import LessonInfo

  /** ReadUserContent: what the reader shows of the user's own data for one reading. */
  datatype ReadUserContent = ReadUserContent(readIndex: string, comments: ReadComments, highlights: ReadHighlights)

  /** Kotlin's `Result<T>` as the repository's streams emit it. */
  datatype Outcome<T> = Ok(value: T) | Failed(cause: string)
  {
    /** `getOrNull()`. */
    function GetOrNull(): (r: Option<T>)
      ensures r.Some? <==> this.Ok?
      ensures r.Some? ==> r.value == this.value
    {
      match this
      case Ok(v) => Some(v)
      case Failed(_) => None
    }
  }

  /** The state the content starts from: the given default, or no comments and
      no highlights for the reading. `SSReadHighlights(readIndex)` is taken to
      default its highlights to `""`. */
  function InitialContent(readIndex: string, defaultContent: Option<ReadUserContent>): (r: ReadUserContent)
    ensures defaultContent.Some? ==> r == defaultContent.value
    ensures defaultContent.None? ==>
              r.readIndex == readIndex && r.comments == ReadComments(readIndex, []) &&
              r.highlights == ReadHighlights(readIndex, "")
  {
    match defaultContent
    case Some(c) => c
    case None => ReadUserContent(readIndex, ReadComments(readIndex, []), ReadHighlights(readIndex, ""))
  }

  /** One value of the combined stream: each side takes its stream's latest value
      when it is a success, and the initial value's part when it is a failure. */
  function Combine(
    readIndex: string, initial: ReadUserContent,
    comments: Outcome<ReadComments>, highlights: Outcome<ReadHighlights>): (r: ReadUserContent)
    ensures r.readIndex == readIndex
    ensures comments.Ok? ==> r.comments == comments.value
    ensures comments.Failed? ==> r.comments == initial.comments
    ensures highlights.Ok? ==> r.highlights == highlights.value
    ensures highlights.Failed? ==> r.highlights == initial.highlights
  {
    ReadUserContent(
      readIndex,
      match comments.GetOrNull() { case Some(c) => c case None => initial.comments },
      match highlights.GetOrNull() { case Some(h) => h case None => initial.highlights })
  }

  /** When both streams fail, the state is the initial value (for that reading). */
  lemma CombineOfFailures(readIndex: string, defaultContent: Option<ReadUserContent>, c: string, h: string)
    requires defaultContent.Some? ==> defaultContent.value.readIndex == readIndex
    ensures var initial := InitialContent(readIndex, defaultContent);
            Combine(readIndex, initial, Failed(c), Failed(h)) == initial
  {
  }

  /** Every combined value stays about one reading: when the initial value and the
      successful values are all for `readIndex`, so are both parts of the result. */
  lemma CombineKeepsReading(
    readIndex: string, defaultContent: Option<ReadUserContent>,
    comments: Outcome<ReadComments>, highlights: Outcome<ReadHighlights>)
    requires defaultContent.Some? ==>
               defaultContent.value.comments.readIndex == readIndex &&
               defaultContent.value.highlights.readIndex == readIndex
    requires comments.Ok? ==> comments.value.readIndex == readIndex
    requires highlights.Ok? ==> highlights.value.readIndex == readIndex
    ensures var r := Combine(readIndex, InitialContent(readIndex, defaultContent), comments, highlights);
            r.comments.readIndex == readIndex && r.highlights.readIndex == readIndex
  {
  }

  /** `data.isNullOrEmpty().not()`. */
  function IsAvailable<T>(data: Option<seq<T>>): (r: bool)
    ensures r <==> data.Some? && |data.value| > 0
  {
    match data
    case None => false
    case Some(items) => items != []
  }

  /** `lessonResource.data?.pdfs ?: emptyList()`. */
  function PdfsOf(lesson: Resource<LessonInfo.LessonInfoModel>): (r: seq<LessonPdf>)
    ensures lesson.Success? ==> r == lesson.data.pdfs
    ensures !lesson.Success? ==> r == []
  {
    match lesson.Data()
    case Some(info) => info.pdfs
    case None => []
  }

  /** An audio track of a lesson (SSAudio); only the list's emptiness matters here. */
  datatype Audio = Audio(id: string)

  /** A video group of a lesson (SSVideosInfo); only the list's emptiness matters here. */
  datatype VideosInfo = VideosInfo(id: string)

  /** ReadingsViewModel's start-up state. The repositories are given as the results
      they return for a lesson index. */
  class ReadingsViewModel {
    var audioAvailable: bool
    var videoAvailable: bool
    var pdfAvailable: bool
    var lessonPdfs: (string, seq<LessonPdf>)

    /** `init`: with a lesson index, set each flag from its resource; without one,
        leave every flag and the PDF list at its initial value. */
    constructor (
      lessonIndex: Option<string>,
      getAudio: string -> Resource<seq<Audio>>,
      getVideo: string -> Resource<seq<VideosInfo>>,
      getLessonInfo: string -> Resource<LessonInfo.LessonInfoModel>)
      ensures pdfAvailable <==> lessonPdfs.1 != []
      ensures lessonIndex.None? ==>
                !audioAvailable && !videoAvailable && !pdfAvailable && lessonPdfs == ("", [])
      ensures lessonIndex.Some? ==>
                var index := lessonIndex.value;
                && audioAvailable == IsAvailable(getAudio(index).Data())
                && videoAvailable == IsAvailable(getVideo(index).Data())
                && lessonPdfs == (index, PdfsOf(getLessonInfo(index)))
                && pdfAvailable == (PdfsOf(getLessonInfo(index)) != [])
    {
      audioAvailable := false;
      videoAvailable := false;
      pdfAvailable := false;
      lessonPdfs := ("", []);
      new;
      if lessonIndex.Some? {
        var index := lessonIndex.value;
        audioAvailable := IsAvailable(getAudio(index).Data());
        videoAvailable := IsAvailable(getVideo(index).Data());
        var pdfs := PdfsOf(getLessonInfo(index));
        lessonPdfs := (index, pdfs);
        pdfAvailable := pdfs != [];
      }
    }
  }
}
