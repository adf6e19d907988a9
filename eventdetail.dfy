/** The admin page of one event: the storage path of an uploaded photo, the
    upload of a batch of files into a folder, the removal of a photo, the
    folder dropdown and the QR link. Backend calls are not made here: each
    one's outcome is an input, and the writes sent are returned. */
module EventDetail {
  import opened Text
  import opened Seqs
  import opened Records
  import opened Slug
  import opened Folders

  const NoFolderMessage: string := "Please enter a folder name."

  /** The storage path of an uploaded file, `{id}/{dir}/{ts}-{name}`, where
      `dir` is the trimmed folder and `ts` the value of `Date.now()` when the
      file's turn came. */
  function UploadPath(id: string, dir: string, ts: nat, name: string): (p: string)
    ensures id + ['/'] <= p
    ensures |name| < |p| && p[|p| - |name|..] == name
  {
    id + ['/'] + dir + ['/'] + Decimal(ts) + ['-'] + name
  }

  /** The path built at upload time is filed, when the photos are grouped,
      under the trimmed folder, as long as neither the event id nor the trimmed
      folder holds a '/'. */
  lemma UploadPathRoundTrip(id: string, folder: string, ts: nat, name: string, dflt: string)
    requires '/' !in id && '/' !in Trim(folder) && Trim(folder) != []
    ensures FolderKey(UploadPath(id, Trim(folder), ts, name), dflt) == Trim(folder)
  {
    var rest := Decimal(ts) + ['-'] + name;
    RegroupUploadPath(id, Trim(folder), Decimal(ts), name);
    FolderKeyOfFolderPath(id, Trim(folder), rest, dflt);
  }

  /** A folder typed with a '/' in it is filed under the text before its
      first '/', or under the default label when that text is empty. */
  lemma UploadPathOfNestedFolder(id: string, before: string, after: string, ts: nat, name: string, dflt: string)
    requires '/' !in id && '/' !in before
    ensures FolderKey(UploadPath(id, before + ['/'] + after, ts, name), dflt)
         == (if before != [] then before else dflt)
  {
    var rest := after + ['/'] + Decimal(ts) + ['-'] + name;
    RegroupNestedPath(id, before, after, Decimal(ts), name);
    if before != [] {
      FolderKeyOfFolderPath(id, before, rest, dflt);
    } else {
      assert id + ['/'] + before + ['/'] + rest == id + ['/'] + ['/'] + rest;
      FolderKeyOfEmptySegment(id, rest, dflt);
    }
  }

  lemma RegroupNestedPath(id: string, a: string, b: string, d: string, name: string)
    ensures id + ['/'] + (a + ['/'] + b) + ['/'] + d + ['-'] + name
         == id + ['/'] + a + ['/'] + (b + ['/'] + d + ['-'] + name)
  {
  }

  lemma RegroupUploadPath(id: string, f: string, d: string, name: string)
    ensures id + ['/'] + f + ['/'] + d + ['-'] + name == id + ['/'] + f + ['/'] + (d + ['-'] + name)
  {
  }

  /** How a backend call ended: it returned (possibly with an error, which
      the upload loop does not look at), or it threw. */
  datatype Call = Returned(failed: bool) | Threw(message: string)

  /** One selected file: its name, the clock reading when its turn came, and
      how its storage upload and its `photos` insert ended. */
  datatype FileAttempt = FileAttempt(name: string, ts: nat, upload: Call, insert: Call)

  /** The writes of a batch and the message of the exception that ended it,
      if one did. */
  datatype BatchResult = BatchResult(requests: seq<Request>, thrown: Option<string>)

  /** Neither call for the file threw. */
  predicate Completes(f: FileAttempt) {
    !f.upload.Threw? && !f.insert.Threw?
  }

  /** The upload and the insert of one file. */
  function FileRequests(id: string, dir: string, f: FileAttempt): seq<Request> {
    var path := UploadPath(id, dir, f.ts, f.name);
    [UploadObject(path, false), InsertPhoto(id, path)]
  }

  /** The writes sent for a file whose upload or insert threw: the calls up to
      and including the one that threw. */
  function FailedRequests(id: string, dir: string, f: FileAttempt): seq<Request>
    requires !Completes(f)
  {
    if f.upload.Threw? then [UploadObject(UploadPath(id, dir, f.ts, f.name), false)]
    else FileRequests(id, dir, f)
  }

  /** The message of the first call of the file that threw. */
  function ThrownMessage(f: FileAttempt): string
    requires !Completes(f)
  {
    if f.upload.Threw? then f.upload.message else f.insert.message
  }

  /** The writes of files that all complete. */
  function AllRequests(id: string, dir: string, fs: seq<FileAttempt>): seq<Request> {
    if fs == [] then [] else FileRequests(id, dir, fs[0]) + AllRequests(id, dir, fs[1..])
  }

  /** The loop of `uploadFiles` on a non-empty trimmed folder `dir`: file by
      file, upload then insert; the first exception ends the batch. */
  function Batch(id: string, dir: string, fs: seq<FileAttempt>): (r: BatchResult)
    ensures r.thrown.None? ==> |r.requests| == 2 * |fs|
  {
    if fs == [] then BatchResult([], None)
    else if !Completes(fs[0]) then BatchResult(FailedRequests(id, dir, fs[0]), Some(ThrownMessage(fs[0])))
    else
      var rest := Batch(id, dir, fs[1..]);
      BatchResult(FileRequests(id, dir, fs[0]) + rest.requests, rest.thrown)
  }

  /** Returned errors do not stop the loop: when no call throws, every file is
      uploaded and inserted, in order, and nothing is reported. */
  lemma {:induction false} BatchWithoutThrow(id: string, dir: string, fs: seq<FileAttempt>)
    requires forall i :: 0 <= i < |fs| ==> Completes(fs[i])
    ensures Batch(id, dir, fs) == BatchResult(AllRequests(id, dir, fs), None)
  {
    if fs != [] {
      BatchWithoutThrow(id, dir, fs[1..]);
    }
  }

  /** The first exception ends the batch: the files before it are uploaded and
      inserted in order, the failing file gets the calls up to the one that
      threw, later files get nothing, and the message of that exception is
      reported. */
  lemma {:induction false} BatchStopsAtFirstThrow(id: string, dir: string, fs: seq<FileAttempt>, n: nat)
    requires n < |fs| && !Completes(fs[n])
    requires forall i :: 0 <= i < n ==> Completes(fs[i])
    ensures Batch(id, dir, fs)
         == BatchResult(AllRequests(id, dir, fs[..n]) + FailedRequests(id, dir, fs[n]), Some(ThrownMessage(fs[n])))
  {
    if n > 0 {
      BatchStopsAtFirstThrow(id, dir, fs[1..], n - 1);
      assert fs[1..][..n - 1] == fs[..n][1..];
      assert fs[..n][0] == fs[0];
    }
  }

  /** Every write of a batch names a path that groups under the trimmed
      folder, and the batch writes to the `photos` table of this event only,
      never overwriting a stored object. */
  lemma {:induction false} BatchPathsInFolder(id: string, folder: string, fs: seq<FileAttempt>, dflt: string)
    requires '/' !in id && '/' !in Trim(folder) && Trim(folder) != []
    ensures forall r :: r in Batch(id, Trim(folder), fs).requests ==>
      && (r.UploadObject? || r.InsertPhoto?)
      && FolderKey(r.path, dflt) == Trim(folder)
      && (r.InsertPhoto? ==> r.eventId == id)
      && (r.UploadObject? ==> !r.upsert)
  {
    if fs != [] {
      var f := fs[0];
      UploadPathRoundTrip(id, folder, f.ts, f.name, dflt);
      BatchPathsInFolder(id, folder, fs[1..], dflt);
    }
  }

  /** At most two writes per file, and an exception is reported exactly when
      some call threw. */
  lemma {:induction false} BatchLength(id: string, dir: string, fs: seq<FileAttempt>)
    ensures |Batch(id, dir, fs).requests| <= 2 * |fs|
    ensures Batch(id, dir, fs).thrown == None <==> forall i :: 0 <= i < |fs| ==> Completes(fs[i])
  {
    if fs != [] {
      BatchLength(id, dir, fs[1..]);
      if Completes(fs[0]) {
        assert forall i :: 1 <= i < |fs| ==> fs[i] == fs[1..][i - 1];
      }
    }
  }

  /** The batch from file `i` on: that file's writes, then the rest unless it
      threw. */
  lemma BatchStep(id: string, dir: string, fs: seq<FileAttempt>, i: nat)
    requires i < |fs|
    ensures var f := fs[i];
      Batch(id, dir, fs[i..]) ==
        if !Completes(f) then BatchResult(FailedRequests(id, dir, f), Some(ThrownMessage(f)))
        else BatchResult(FileRequests(id, dir, f) + Batch(id, dir, fs[i + 1..]).requests, Batch(id, dir, fs[i + 1..]).thrown)
  {
    assert fs[i..][0] == fs[i] && fs[i..][1..] == fs[i + 1..];
  }

  /** The `try` block of `uploadFiles`: for each file in turn, the storage
      upload and then the `photos` insert, whose returned errors are not
      looked at; an exception leaves the loop at once with its message. */
  method SendFiles(id: string, dir: string, files: seq<FileAttempt>) returns (issued: seq<Request>, thrown: Option<string>)
    ensures BatchResult(issued, thrown) == Batch(id, dir, files)
  {
    issued := [];
    var i := 0;
    while i < |files|
      invariant 0 <= i <= |files|
      invariant Batch(id, dir, files)
             == BatchResult(issued + Batch(id, dir, files[i..]).requests, Batch(id, dir, files[i..]).thrown)
    {
      var f := files[i];
      BatchStep(id, dir, files, i);
      var path := UploadPath(id, dir, f.ts, f.name);
      var before := issued;
      issued := issued + [UploadObject(path, false)];
      if f.upload.Threw? {
        return issued, Some(f.upload.message);
      }
      issued := issued + [InsertPhoto(id, path)];
      if f.insert.Threw? {
        return issued, Some(f.insert.message);
      }
      AppendPair(before, UploadObject(path, false), InsertPhoto(id, path), Batch(id, dir, files[i + 1..]).requests);
      i := i + 1;
    }
    thrown := None;
  }

  lemma AppendPair<T>(s: seq<T>, a: T, b: T, rest: seq<T>)
    ensures s + [a] + [b] + rest == s + ([a, b] + rest)
  {
  }

  /** `photos.filter(p => p.id !== removed)`. */
  function RemoveId(ps: seq<Photo>, removed: string): (r: seq<Photo>)
    ensures |r| <= |ps|
  {
    if ps == [] then []
    else
      var r := RemoveId(ps[..|ps| - 1], removed);
      if ps[|ps| - 1].id == removed then r else r + [ps[|ps| - 1]]
  }

  /** The filter keeps exactly the entries whose id differs. */
  lemma {:induction false} RemoveIdMembers(ps: seq<Photo>, removed: string)
    ensures forall p :: p in RemoveId(ps, removed) <==> p in ps && p.id != removed
  {
    if ps != [] {
      var init := ps[..|ps| - 1];
      RemoveIdMembers(init, removed);
      assert ps == init + [ps[|ps| - 1]];
    }
  }

  /** The kept entries stay in list order. */
  lemma {:induction false} RemoveIdKeepsOrder(ps: seq<Photo>, removed: string)
    ensures IsSubsequence(RemoveId(ps, removed), ps)
  {
    if ps != [] {
      var init := ps[..|ps| - 1];
      RemoveIdKeepsOrder(init, removed);
      assert ps == init + [ps[|ps| - 1]];
      SubsequenceSnoc(RemoveId(init, removed), init, ps[|ps| - 1]);
    }
  }

  /** Every kept entry appears as often as in the list; the removed id does
      not appear at all. */
  lemma {:induction false} RemoveIdCounts(ps: seq<Photo>, removed: string)
    ensures forall p: Photo :: p.id != removed ==> multiset(RemoveId(ps, removed))[p] == multiset(ps)[p]
    ensures forall p: Photo :: p.id == removed ==> multiset(RemoveId(ps, removed))[p] == 0
  {
    if ps != [] {
      var init := ps[..|ps| - 1];
      RemoveIdCounts(init, removed);
      assert ps == init + [ps[|ps| - 1]];
    }
  }

  /** A list in ascending creation order stays so after the filter. */
  lemma {:induction false} RemoveIdSorted(ps: seq<Photo>, removed: string)
    requires SortedByTime(ps)
    ensures SortedByTime(RemoveId(ps, removed))
  {
    if ps != [] {
      var init, last := ps[..|ps| - 1], ps[|ps| - 1];
      assert SortedByTime(init);
      RemoveIdSorted(init, removed);
      RemoveIdMembers(init, removed);
      var r := RemoveId(init, removed);
      forall p | p in r ensures p.createdAt <= last.createdAt {
        var i :| 0 <= i < |init| && init[i] == p;
        assert ps[i] == p;
      }
    }
  }

  /** The QR code's text: empty until the event is loaded, then the public
      gallery address of the event's normalised slug. */
  function QrValue(event: Option<Event>, baseUrl: string): (q: string)
    ensures q == [] <==> event.None?
    ensures event.Some? ==> baseUrl + "/event/" <= q
  {
    if event.None? then [] else baseUrl + "/event/" + ToLower(Trim(event.value.slug))
  }

  /** For an event whose slug came from `generateSlug`, the QR link ends in the
      stored slug itself. */
  lemma QrValueOfGeneratedSlug(e: Event, baseUrl: string)
    requires e.slug == GenerateSlug(e.name)
    ensures QrValue(Some(e), baseUrl) == baseUrl + "/event/" + e.slug
    ensures QrValue(None, baseUrl) == []
  {
    SlugSurvivesNormalisation(e.name);
  }

  /** The admin event page's state. */
  class EventDetailPage {
    const id: string
    var event: Option<Event>
    var photos: seq<Photo>
    var uploading: bool
    var error: string
    var folder: string

    /** The list holds this event's photos in ascending creation order, as
        the query `.eq('event_id', id).order('created_at')` returns them. */
    predicate Valid()
      reads this
    {
      && (forall i :: 0 <= i < |photos| ==> photos[i].eventId == id)
      && SortedByTime(photos)
    }

    constructor(id: string)
      ensures this.id == id && event == None && photos == [] && !uploading && error == [] && folder == []
      ensures Valid()
    {
      this.id := id;
      event := None;
      photos := [];
      uploading := false;
      error := [];
      folder := [];
    }

    /** The folder text box or the dropdown changed. */
    method SetFolder(f: string)
      requires Valid()
      modifies this`folder
      ensures Valid()
      ensures folder == f
    {
      folder := f;
    }

    /** `fetchEvent` resolved; `.single()` yields no row on failure. */
    method EventFetched(data: Option<Event>)
      requires Valid()
      modifies this`event
      ensures Valid()
      ensures event == data
    {
      event := data;
    }

    /** `fetchPhotos` resolved: `setPhotos(data || [])`. */
    method PhotosFetched(data: Option<seq<Photo>>)
      requires data.Some? ==> (forall i :: 0 <= i < |data.value| ==> data.value[i].eventId == id)
      requires data.Some? ==> SortedByTime(data.value)
      modifies this`photos
      ensures photos == (if data.Some? then data.value else [])
      ensures Valid()
    {
      photos := if data.Some? then data.value else [];
    }

    /** `uploadFiles`: refused with a message when the trimmed folder is
        empty; otherwise the files are sent one at a time, `uploading` is on
        meanwhile and off at the end, the message of an exception is shown,
        and a refetch of the photos starts only when no call threw. */
    method UploadFiles(files: seq<FileAttempt>) returns (issued: seq<Request>, refetch: bool)
      requires Valid()
      modifies this`uploading, this`error
      ensures Valid()
      ensures Trim(folder) == [] ==>
        error == NoFolderMessage && uploading == old(uploading) && issued == [] && !refetch
      ensures Trim(folder) != [] ==>
        var b := Batch(id, Trim(folder), files);
        && issued == b.requests
        && !uploading
        && refetch == b.thrown.None?
        && error == (if b.thrown.Some? then b.thrown.value else [])
    {
      var dir := Trim(folder);
      if dir == [] {
        error := NoFolderMessage;
        issued, refetch := [], false;
      } else {
        uploading := true;
        error := [];
        var thrown;
        issued, thrown := SendFiles(id, dir, files);
        if thrown.Some? {
          error := thrown.value;
        }
        refetch := thrown.None?;
        uploading := false;
      }
    }

    /** `handleDelete` after the confirm dialog: the storage object is removed
        first and the row only if that succeeded; only when both succeed does
        the photo leave the list. A failure's message is alerted. */
    method HandleDelete(photo: Photo, confirmed: bool, storageError: Option<string>, dbError: Option<string>)
      returns (issued: seq<Request>, alert: Option<string>)
      requires Valid()
      modifies this`photos
      ensures Valid()
      ensures !confirmed ==> issued == [] && alert == None && photos == old(photos)
      ensures confirmed && storageError.Some? ==>
        issued == [RemoveObject(photo.filePath)] && alert == storageError && photos == old(photos)
      ensures confirmed && storageError.None? && dbError.Some? ==>
        issued == [RemoveObject(photo.filePath), DeletePhoto(photo.id)] && alert == dbError && photos == old(photos)
      ensures confirmed && storageError.None? && dbError.None? ==>
        issued == [RemoveObject(photo.filePath), DeletePhoto(photo.id)] && alert == None
        && photos == RemoveId(old(photos), photo.id)
    {
      if !confirmed {
        return [], None;
      }
      issued := [RemoveObject(photo.filePath)];
      if storageError.Some? {
        return issued, storageError;
      }
      issued := issued + [DeletePhoto(photo.id)];
      if dbError.Some? {
        return issued, dbError;
      }
      RemoveIdMembers(photos, photo.id);
      RemoveIdSorted(photos, photo.id);
      photos := RemoveId(photos, photo.id);
      alert := None;
    }
  }
}
