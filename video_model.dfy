/** The video document (model/videoModel.js). */
module VideoModel {
  import opened Values

  /** `videoUrl` is not part of the schema; a document stored before the
      schema had `videoFilePath` may still carry it, and the feed reads it. */
  datatype Video = Video(
    id: Id,
    title: string,
    videoFilePath: string,
    videoUrl: Option<string>,
    duration: int,
    order: int,
    isActive: bool,
    createdAt: int)

  /** What `save()` checks: `title` and `videoFilePath` are required strings,
      and Mongoose's required check refuses the empty string. `duration` and
      `order` are required numbers, which the type already guarantees; nothing
      makes `order` unique. */
  predicate ValidVideo(v: Video) {
    v.title != "" && v.videoFilePath != ""
  }

  /** A new document: `isActive` defaults to true and `createdAt` to the
      creation time `now`. */
  function NewVideo(id: Id, title: string, videoFilePath: string, duration: int, order: int, now: int): (v: Video)
    ensures v.isActive && v.createdAt == now && v.videoUrl == None
    ensures v.id == id && v.title == title && v.videoFilePath == videoFilePath
    ensures v.duration == duration && v.order == order
  {
    Video(id, title, videoFilePath, None, duration, order, true, now)
  }
}
