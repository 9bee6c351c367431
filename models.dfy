/** Value types shared by the data layer and the reading screen
    (the app.ss.models records and the Resource wrapper). */
module Models {

  /** Kotlin's nullable value, `T?`. */
  datatype Option<+T> = None | Some(value: T)

  /** A Kotlin/Java `Long` (milliseconds since the epoch in this model). */
  type Long = x: int | -0x8000_0000_0000_0000 <= x < 0x8000_0000_0000_0000

  /** A Kotlin/Java `Int`. */
  type Int32 = x: int | -0x8000_0000 <= x < 0x8000_0000

  /** SSComment: the comment typed into one input element of a reading. */
  datatype Comment = Comment(elementId: string, comment: string)

  /** SSReadComments: all comments of one reading, keyed by `readIndex`. */
  datatype ReadComments = ReadComments(readIndex: string, comments: seq<Comment>)

  /** SSReadHighlights: the serialized highlight ranges of one reading. */
  datatype ReadHighlights = ReadHighlights(readIndex: string, highlights: string)

  /** A PDF attached to a lesson (LessonPdf). */
  datatype LessonPdf = LessonPdf(id: string, title: string, src: string)

  /** One day of a lesson (SSDay), carried through the cache unchanged. */
  datatype LessonDay = LessonDay(id: string, index: string, title: string)

  /** The app's Resource wrapper: a loading marker, a value, or an error. */
  datatype Resource<+T> = Loading | Success(data: T) | Error(cause: string)
  {
    /** `resource.data`: present only for a successful resource. */
    function Data(): (r: Option<T>)
      ensures r.Some? <==> this.Success?
      ensures r.Some? ==> r.value == this.data
    {
      match this
      case Success(d) => Some(d)
      case _ => None
    }
  }
}
