/** The admin form that creates an event: the `events` row is inserted with
    the generated slug, the cover image, when one was chosen, is stored under
    the new event's id, and the browser moves to the event's admin page. The
    backend's answers are inputs; the writes sent are returned. */
module CreateEvent {
  import opened Records
  import opened Slug

  const CoverSuffix: string := "/cover.jpg"
  const EventPagePrefix: string := "/admin/events/"

  /** What the `events` insert (with `.select()`) answered: the new row's id,
      or the error it returned. */
  datatype InsertOutcome = Inserted(id: string) | InsertFailed(message: string)

  /** The storage path of an event's cover image. */
  function CoverPath(eventId: string): string {
    eventId + CoverSuffix
  }

  /** The admin page of an event. */
  function EventPage(eventId: string): string {
    EventPagePrefix + eventId
  }

  /** The form's state. */
  class CreateEventForm {
    var name: string
    var eventDate: string
    var coverFile: Option<string>
    var loading: bool
    var error: string
    var navigatedTo: Option<string>

    constructor()
      ensures name == [] && eventDate == [] && coverFile == None
      ensures !loading && error == [] && navigatedTo == None
    {
      name := [];
      eventDate := [];
      coverFile := None;
      loading := false;
      error := [];
      navigatedTo := None;
    }

    method SetName(s: string)
      modifies this`name
      ensures name == s
    {
      name := s;
    }

    method SetEventDate(s: string)
      modifies this`eventDate
      ensures eventDate == s
    {
      eventDate := s;
    }

    /** The file input changed: its first file, or none when it was cleared. */
    method SetCoverFile(f: Option<string>)
      modifies this`coverFile
      ensures coverFile == f
    {
      coverFile := f;
    }

    /** `handleSubmit`: the insert is sent with the generated slug; a failed
        insert ends the submission with its message; otherwise a chosen cover
        is uploaded with overwrite to `{id}/cover.jpg` and a failed upload ends
        the submission with its message, leaving the new row in place; only
        when nothing failed does the browser go to the event's page. `loading`
        is off at the end on every path. */
    method HandleSubmit(insert: InsertOutcome, uploadError: Option<string>) returns (issued: seq<Request>)
      modifies this`loading, this`error, this`navigatedTo
      ensures issued == SubmitRequests(name, eventDate, coverFile.Some?, insert)
      ensures !loading
      ensures insert.InsertFailed? ==> error == insert.message && navigatedTo == old(navigatedTo)
      ensures insert.Inserted? && coverFile.Some? && uploadError.Some? ==>
        error == uploadError.value && navigatedTo == old(navigatedTo)
      ensures insert.Inserted? && (coverFile.None? || uploadError.None?) ==>
        error == [] && navigatedTo == Some(EventPage(insert.id))
    {
      loading := true;
      error := [];
      var slug := GenerateSlug(name);
      issued := [InsertEvent(name, slug, eventDate)];
      if insert.InsertFailed? {
        error := insert.message;
        loading := false;
        return;
      }
      var eventId := insert.id;
      if coverFile.Some? {
        issued := issued + [UploadObject(CoverPath(eventId), true)];
        if uploadError.Some? {
          error := uploadError.value;
          loading := false;
          return;
        }
      }
      loading := false;
      navigatedTo := Some(EventPage(eventId));
    }
  }

  /** The writes of one submission, given the form, whether a cover was
      chosen and the insert's answer: the event row first, with a slug made
      only of `a-z`, `0-9` and `-`; at most one storage write, and only the
      overwriting upload of the new event's cover; nothing is ever removed or
      deleted, so a failed cover upload leaves the new event in place. */
  function SubmitRequests(name: string, eventDate: string, cover: bool, insert: InsertOutcome): (r: seq<Request>)
    ensures 1 <= |r| <= 2
    ensures r[0] == InsertEvent(name, GenerateSlug(name), eventDate) && IsSlugText(r[0].slug)
    ensures |r| == 2 <==> insert.Inserted? && cover
    ensures |r| == 2 ==> r[1] == UploadObject(CoverPath(insert.id), true)
    ensures forall i :: 0 <= i < |r| ==> !r[i].RemoveObject? && !r[i].DeletePhoto?
    ensures forall i :: 0 <= i < |r| && r[i].UploadObject? ==>
      i == 1 && insert.Inserted? && r[i] == UploadObject(CoverPath(insert.id), true)
  {
    [InsertEvent(name, GenerateSlug(name), eventDate)]
      + (if insert.Inserted? && cover then [UploadObject(CoverPath(insert.id), true)] else [])
  }
}
