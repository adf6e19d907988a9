/** The rows the pages read from the backend, the generic optional value, and
    the outcome of a backend call as the pages see it. */
module Records {

  datatype Option<T> = None | Some(value: T)

  /** A row of the `events` table. */
  datatype Event = Event(id: string, name: string, slug: string, eventDate: string)

  /** A row of the `photos` table; `createdAt` is the insertion time the
      queries order by. */
  datatype Photo = Photo(id: string, eventId: string, filePath: string, createdAt: int)

  /** A write the pages send to the backend: a storage object upload (with
      or without overwrite), a storage object removal, a row inserted into
      `photos` or `events`, or a `photos` row deleted by id. */
  datatype Request =
    | UploadObject(path: string, upsert: bool)
    | RemoveObject(path: string)
    | InsertPhoto(eventId: string, path: string)
    | DeletePhoto(photoId: string)
    | InsertEvent(name: string, slug: string, eventDate: string)

  /** Photos listed with non-decreasing `createdAt`, as `.order('created_at',
      { ascending: true })` returns them. */
  predicate SortedByTime(ps: seq<Photo>) {
    forall i, j :: 0 <= i < j < |ps| ==> ps[i].createdAt <= ps[j].createdAt
  }
}
