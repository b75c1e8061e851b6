/**
 Lessons as the API delivers them and as the offline cache stores them.  A JSON text
 is a value together with the length of its text, so parsing gives the value back.
 */
module Lessons {
  import opened Wrappers

  datatype Attachment = Attachment(id: string, name: string, contentType: string, sizeBytes: nat, downloadUrl: string)

  datatype Status = DRAFT | READY | ARCHIVED

  /** A timestamp received as text, or one the client formats from its clock. */
  datatype Timestamp = Received(text: string) | FromEpoch(ms: int)

  datatype Lesson = Lesson(
    id: string,
    groupId: string,
    title: string,
    description: Option<string>,
    status: Status,
    scheduledFor: Option<Timestamp>,
    durationMinutes: Option<int>,
    orderIndex: int,
    createdAt: Timestamp,
    contentMarkdown: Option<string>,
    attachments: seq<Attachment>)

  /** A parsed `contentJson` object: any field may be missing or null. */
  datatype Content = Content(
    description: Option<string>,
    status: Option<Status>,
    scheduledFor: Option<Timestamp>,
    durationMinutes: Option<int>,
    orderIndex: Option<int>,
    createdAt: Option<Timestamp>,
    contentMarkdown: Option<string>,
    attachments: Option<seq<Attachment>>)

  datatype JsonText<+T> = JsonText(value: T, length: nat)

  /** One row of `cached_lessons`; the content is None for the JSON text `null`. */
  datatype Row = Row(
    courseId: string,
    title: string,
    contentJson: JsonText<Option<Content>>,
    mediaManifest: Option<JsonText<seq<Attachment>>>,
    cachedAt: int,
    expiresAt: int,
    accessedAt: int,
    sizeBytes: nat)

  const CACHE_DEFAULT_TTL_MS := 7 * 24 * 60 * 60 * 1000
  const CACHE_MAX_BYTES := 200 * 1024 * 1024

  function GetOr<T>(value: Option<T>, default: T): T {
    if value.Some? then value.value else default
  }

  function LessonToContent(lesson: Lesson): Content {
    Content(lesson.description, Some(lesson.status), lesson.scheduledFor, lesson.durationMinutes,
            Some(lesson.orderIndex), Some(lesson.createdAt), lesson.contentMarkdown, Some(lesson.attachments))
  }

  /** The lesson a cached row is shown as; gaps in the stored content are filled. */
  function CachedToLesson(id: string, row: Row): Lesson {
    var content := GetOr(row.contentJson.value,
                         Content(None, Some(READY), None, None, Some(0), Some(FromEpoch(row.cachedAt)), None, Some([])));
    Lesson(id, row.courseId, row.title,
           content.description,
           GetOr(content.status, READY),
           content.scheduledFor,
           content.durationMinutes,
           GetOr(content.orderIndex, 0),
           GetOr(content.createdAt, FromEpoch(row.cachedAt)),
           content.contentMarkdown,
           GetOr(content.attachments, []))
  }

  /** The row `putCachedLesson` writes at time `now`. */
  function NewRow(courseId: string, title: string, content: JsonText<Option<Content>>,
                  manifest: Option<JsonText<seq<Attachment>>>, now: int, ttlMs: int): Row {
    Row(courseId, title, content, manifest, now, now + ttlMs, now,
        content.length + (if manifest.Some? then manifest.value.length else 0))
  }

  /** The row `writeThrough` stores for a lesson whose two JSON texts have the given
      lengths. */
  function WriteThroughRow(lesson: Lesson, contentLength: nat, manifestLength: nat, now: int): Row {
    NewRow(lesson.groupId, lesson.title, JsonText(Some(LessonToContent(lesson)), contentLength),
           if |lesson.attachments| > 0 then Some(JsonText(lesson.attachments, manifestLength)) else None,
           now, CACHE_DEFAULT_TTL_MS)
  }

  /** A lesson written through is read back unchanged, however often it has been
      accessed since. */
  lemma {:induction false} WriteThroughRoundTrip(lesson: Lesson, contentLength: nat, manifestLength: nat, now: int, accessed: int)
    ensures CachedToLesson(lesson.id,
              WriteThroughRow(lesson, contentLength, manifestLength, now).(accessedAt := accessed)) == lesson
  {
  }

  /** The recorded size is that of the row's own texts. */
  predicate Measured(row: Row) {
    row.sizeBytes == row.contentJson.length + (if row.mediaManifest.Some? then row.mediaManifest.value.length else 0)
  }

  /** A new row is measured, last used when it is cached, and lives for its TTL. */
  lemma {:induction false} NewRowIsMeasured(courseId: string, title: string, content: JsonText<Option<Content>>,
                                            manifest: Option<JsonText<seq<Attachment>>>, now: int, ttlMs: int)
    ensures var row := NewRow(courseId, title, content, manifest, now, ttlMs);
            && Measured(row) && row.cachedAt == row.accessedAt == now && row.expiresAt - row.cachedAt == ttlMs
            && row.contentJson == content && row.mediaManifest == manifest
  {
  }

  /** A lesson written through lives for a week; its row has a manifest exactly when the
      lesson has attachments. */
  lemma {:induction false} WriteThroughLivesAWeek(lesson: Lesson, contentLength: nat, manifestLength: nat, now: int)
    ensures var row := WriteThroughRow(lesson, contentLength, manifestLength, now);
            && row.cachedAt == row.accessedAt == now && row.expiresAt == now + 604_800_000 && Measured(row)
            && row.contentJson.length == contentLength
            && row.mediaManifest == if lesson.attachments == [] then None else Some(JsonText(lesson.attachments, manifestLength))
  {
  }

  /** A row whose content is the JSON text `null` is shown as one whose content is an
      object without any field: the two layers of defaults agree. */
  lemma {:induction false} NullIsAnEmptyObject(id: string, row: Row, length: nat)
    requires row.contentJson.value.None?
    ensures CachedToLesson(id, row) ==
            CachedToLesson(id, row.(contentJson := JsonText(Some(Content(None, None, None, None, None, None, None, None)), length)))
  {
  }
}
