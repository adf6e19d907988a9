/** The guests' gallery of one event, reached through `/event/{slug}`: the
    event is looked up by a case-insensitive pattern match on its slug, its
    photos are fetched, and the page shows a loading text, an error, a
    not-found text, an empty-gallery text or the photos grouped by folder,
    with an enlarged preview of one image on top. */
module PublicGallery {
  import opened Text
  import opened Records
  import opened Slug
  import opened Folders

  /** The pattern sent to the `ilike` filter: the route's slug, trimmed and
      lower-cased. */
  function LookupKey(slug: string): (key: string)
    ensures |key| <= |slug|
    ensures NoUpper(key)
  {
    ToLowerFacts(Trim(slug));
    ToLower(Trim(slug))
  }

  /** A character with a meaning of its own in a PostgREST `like` pattern:
      `%` and its alias `*` match any run of characters, `_` one character,
      and `\` escapes. */
  predicate IsPatternChar(c: char) {
    c == '%' || c == '*' || c == '_' || c == '\\'
  }

  predicate IsLiteralPattern(p: string) {
    forall i :: 0 <= i < |p| ==> !IsPatternChar(p[i])
  }

  /** SQL `LIKE` with `%`/`*` and `_`; every other character matches itself. */
  function Like(p: string, t: string): bool
    decreases |p| + |t|
  {
    if p == [] then t == []
    else if p[0] == '%' || p[0] == '*' then Like(p[1..], t) || (t != [] && Like(p, t[1..]))
    else if p[0] == '_' then t != [] && Like(p[1..], t[1..])
    else t != [] && t[0] == p[0] && Like(p[1..], t[1..])
  }

  /** `ILIKE`: `LIKE` after lower-casing both sides. */
  function ILike(p: string, t: string): bool {
    Like(ToLower(p), ToLower(t))
  }

  /** A pattern without special characters matches exactly the text equal to
      it. */
  lemma {:induction false} LiteralLike(p: string, t: string)
    requires IsLiteralPattern(p)
    ensures Like(p, t) <==> p == t
  {
    if p != [] {
      assert !IsPatternChar(p[0]);
      assert IsLiteralPattern(p[1..]) by {
        forall i | 0 <= i < |p[1..]| ensures !IsPatternChar(p[1..][i]) {
          assert p[1..][i] == p[i + 1];
        }
      }
      if t != [] {
        LiteralLike(p[1..], t[1..]);
        assert p == t <==> p[0] == t[0] && p[1..] == t[1..] by {
          if p[0] == t[0] && p[1..] == t[1..] {
            assert p == [p[0]] + p[1..] && t == [t[0]] + t[1..];
          }
        }
      }
    }
  }

  lemma LowerKeepsLiteral(p: string)
    requires IsLiteralPattern(p)
    ensures IsLiteralPattern(ToLower(p))
  {
    ToLowerFacts(p);
    forall i | 0 <= i < |p| ensures !IsPatternChar(ToLower(p)[i]) {
      assert ToLower(p)[i] == LowerChar(p[i]);
    }
  }

  /** With no special character in the key, the `ilike` lookup is a
      case-insensitive equality. */
  lemma LiteralILike(key: string, stored: string)
    requires IsLiteralPattern(key)
    ensures ILike(key, stored) <==> ToLower(key) == ToLower(stored)
  {
    LowerKeepsLiteral(key);
    LiteralLike(ToLower(key), ToLower(stored));
  }

  /** The route segment of a QR link, `lowercase(trim(slug))` of a slug made
      only of `a-z`, `0-9` and `-` (as every generated slug is), finds the
      event with that slug and no event whose stored slug is another such
      slug. */
  lemma QrLinkFindsEvent(slug: string, other: string)
    requires IsSlugText(slug) && IsSlugText(other)
    ensures ILike(LookupKey(slug), slug)
    ensures ILike(LookupKey(slug), other) <==> other == slug
  {
    SlugTextIsOwnKey(slug);
    SlugTextIsOwnKey(other);
    LiteralILike(slug, slug);
    LiteralILike(slug, other);
  }

  /** Text made of `a-z`, `0-9` and `-` is its own lookup key and its own
      lower-case form, and has no pattern character. */
  lemma SlugTextIsOwnKey(s: string)
    requires IsSlugText(s)
    ensures LookupKey(s) == s && ToLower(s) == s && IsLiteralPattern(s)
  {
    SlugTextHasNoSpace(s);
    ToLowerFacts(s);
  }

  /** A route slug that, once trimmed, has only letters, digits and `-`
      finds a stored slug exactly when the two agree up to the case of
      ASCII letters: `/event/A-B` finds `a-b`. */
  lemma LookupIgnoresCase(slug: string, stored: string)
    requires IsLiteralPattern(Trim(slug))
    ensures ILike(LookupKey(slug), stored) <==> ToLower(Trim(slug)) == ToLower(stored)
  {
    LowerKeepsLiteral(Trim(slug));
    ToLowerFacts(Trim(slug));
    LiteralILike(LookupKey(slug), stored);
  }

  /** The route `/event/A-B` finds the event stored with slug `a-b`. */
  lemma UpperCaseRouteFindsSlug()
    ensures ILike(LookupKey("A-B"), "a-b")
  {
    var route, stored := "A-B", "a-b";
    assert NoSpace(route) by {
      assert route[0] == 'A' && route[1] == '-' && route[2] == 'B';
    }
    assert IsLiteralPattern(route);
    ToLowerFacts(route);
    ToLowerFacts(stored);
    assert ToLower(route) == stored;
    LookupIgnoresCase(route, stored);
  }

  /** What the lookup of the event answered: its row (`.single()` may give
      none), or the error it returned. */
  datatype EventAnswer = EventRow(data: Option<Event>) | EventError(message: string)

  /** What the photos query answered: its rows (possibly none), or the error
      it returned. */
  datatype PhotosAnswer = PhotoRows(data: Option<seq<Photo>>) | PhotosError(message: string)

  /** The gallery's content below the title: the empty-gallery text or the
      groups of photos. */
  datatype Body = NoPhotos | Grouped(groups: seq<Group>)

  /** What the page shows. `RenderThrows` is the render throwing from the
      grouping reduce: with no error boundary in the app, nothing is shown. */
  datatype View =
    | LoadingText
    | ErrorText(message: string)
    | NotFound
    | RenderThrows
    | Gallery(event: Event, body: Body, preview: Option<string>)

  /** The render: loading first, then the error text (even with an event
      set), then the not-found text; with an event, the photos are grouped
      under the public default label, which throws on a folder named after an
      `Object.prototype` member, and otherwise the gallery is shown, with the
      preview when an image URL is selected. */
  function Render(loading: bool, error: string, event: Option<Event>, photos: seq<Photo>, selected: Option<string>): (v: View)
    ensures v.LoadingText? <==> loading
    ensures v.ErrorText? <==> !loading && error != []
    ensures v.ErrorText? ==> v.message == error
    ensures v.NotFound? <==> !loading && error == [] && event.None?
    ensures v.RenderThrows? <==> !loading && error == [] && event.Some? && !NoPrototypeKey(photos, PublicLabel)
    ensures v.Gallery? <==> !loading && error == [] && event.Some? && NoPrototypeKey(photos, PublicLabel)
    ensures v.Gallery? ==> v.event == event.value
    ensures v.Gallery? ==> (v.body.NoPhotos? <==> photos == [])
    ensures v.Gallery? ==> (v.preview.Some? <==> selected.Some? && selected.value != [])
    ensures v.Gallery? && v.preview.Some? ==> v.preview == selected
  {
    if loading then LoadingText
    else if error != [] then ErrorText(error)
    else if event.None? then NotFound
    else
      NoGroupsIffNoPhotos(photos, PublicLabel);
      var preview := if selected.Some? && selected.value != [] then selected else None;
      var grouping := Grouping(photos, PublicLabel);
      if grouping.None? then RenderThrows
      else if |grouping.value| == 0 then Gallery(event.value, NoPhotos, preview)
      else Gallery(event.value, Grouped(grouping.value), preview)
  }

  /** What one fetch leaves behind, from the state before it: a lookup error
      is stored and no photo query is made; a missing row stores no event and
      the engine's message for reading its id; a found row is stored and its
      photos are queried by its id, then a photos error is stored, or the
      rows (none when `data` is null) replace the list and the earlier error
      stays. */
  predicate StoredAnswers(eventAnswer: EventAnswer, photosAnswer: PhotosAnswer, nullRead: string,
                          photoQuery: Option<string>,
                          event0: Option<Event>, photos0: seq<Photo>, error0: string,
                          event: Option<Event>, photos: seq<Photo>, error: string)
  {
    && (eventAnswer.EventError? ==>
          photoQuery == None && error == eventAnswer.message && event == event0 && photos == photos0)
    && (eventAnswer == EventRow(None) ==>
          photoQuery == None && error == nullRead && event == None && photos == photos0)
    && (eventAnswer.EventRow? && eventAnswer.data.Some? ==>
          && event == eventAnswer.data
          && photoQuery == Some(eventAnswer.data.value.id)
          && (photosAnswer.PhotosError? ==> error == photosAnswer.message && photos == photos0)
          && (photosAnswer.PhotoRows? ==>
                error == error0
                && photos == (if photosAnswer.data.Some? then photosAnswer.data.value else [])))
  }

  /** Once loading is over, a non-empty error is what the page shows. */
  lemma ErrorIsShown(error: string, event: Option<Event>, photos: seq<Photo>, selected: Option<string>)
    requires error != []
    ensures Render(false, error, event, photos, selected) == ErrorText(error)
  {
  }

  /** The gallery's groups hold every photo exactly once, and each group
      holds exactly the photos of its folder, in ascending creation order when
      the photos were fetched so. */
  lemma GalleryGroups(loading: bool, error: string, event: Option<Event>, photos: seq<Photo>, selected: Option<string>)
    requires Render(loading, error, event, photos, selected).Gallery?
    requires Render(loading, error, event, photos, selected).body.Grouped?
    ensures var gs := Render(loading, error, event, photos, selected).body.groups;
      && multiset(Flatten(gs)) == multiset(photos)
      && TotalSize(gs) == |photos|
      && (forall j :: 0 <= j < |gs| ==> forall p :: p in gs[j].photos <==> p in photos && FolderKey(p.filePath, PublicLabel) == gs[j].key)
      && (SortedByTime(photos) ==> forall j :: 0 <= j < |gs| ==> SortedByTime(gs[j].photos))
  {
    var gs := Groups(photos, PublicLabel);
    GroupsPartition(photos, PublicLabel);
    forall j | 0 <= j < |gs|
      ensures forall p :: p in gs[j].photos <==> p in photos && FolderKey(p.filePath, PublicLabel) == gs[j].key
      ensures SortedByTime(photos) ==> SortedByTime(gs[j].photos)
    {
      GroupContents(photos, PublicLabel, j);
    }
  }

  /** The guests' page state. */
  class GalleryPage {
    const slug: string
    var event: Option<Event>
    var photos: seq<Photo>
    var loading: bool
    var error: string
    var selectedImage: Option<string>

    constructor(slug: string)
      ensures this.slug == slug && event == None && photos == [] && loading && error == [] && selectedImage == None
      ensures View() == LoadingText
    {
      this.slug := slug;
      event := None;
      photos := [];
      loading := true;
      error := [];
      selectedImage := None;
    }

    function View(): View
      reads this
    {
      Render(loading, error, event, photos, selectedImage)
    }

    /** `fetchEventAndPhotos`: the event is looked up by `LookupKey(slug)`; an
        error ends the fetch with its message before any photo query; a found
        row is stored and its photos are queried (reading the id of a missing
        row throws, with `nullRead` as the engine's message); a photos error
        ends the fetch with its message, otherwise the rows (or none) are
        stored. An earlier error is never cleared. `loading` is off at the
        end on every path, so a stored error is what the page shows. Returns
        the pattern sent to the `ilike` filter and the event id the photos
        were asked for, if they were. */
    method FetchEventAndPhotos(eventAnswer: EventAnswer, photosAnswer: PhotosAnswer, nullRead: string)
      returns (eventQuery: string, photoQuery: Option<string>)
      modifies this`loading, this`event, this`photos, this`error
      ensures eventQuery == LookupKey(slug)
      ensures !loading
      ensures error != [] ==> View() == ErrorText(error)
      ensures StoredAnswers(eventAnswer, photosAnswer, nullRead, photoQuery,
                            old(event), old(photos), old(error), event, photos, error)
    {
      loading := true;
      eventQuery := LookupKey(slug);
      photoQuery := StoreAnswers(eventAnswer, photosAnswer, nullRead);
      loading := false;
      if error != [] {
        ErrorIsShown(error, event, photos, selectedImage);
      }
    }

    /** The body of the `try` block: what each answer stores. */
    method StoreAnswers(eventAnswer: EventAnswer, photosAnswer: PhotosAnswer, nullRead: string)
      returns (photoQuery: Option<string>)
      modifies this`event, this`photos, this`error
      ensures StoredAnswers(eventAnswer, photosAnswer, nullRead, photoQuery,
                            old(event), old(photos), old(error), event, photos, error)
    {
      photoQuery := None;
      if eventAnswer.EventError? {
        error := eventAnswer.message;
      } else {
        event := eventAnswer.data;
        if eventAnswer.data.None? {
          error := nullRead;
        } else {
          photoQuery := Some(eventAnswer.data.value.id);
          if photosAnswer.PhotosError? {
            error := photosAnswer.message;
          } else {
            photos := if photosAnswer.data.Some? then photosAnswer.data.value else [];
          }
        }
      }
    }

    /** A click on an image selects its URL. */
    method SelectImage(url: string)
      modifies this`selectedImage
      ensures selectedImage == Some(url)
      ensures View().Gallery? ==> (View().preview.Some? <==> url != [])
    {
      selectedImage := Some(url);
    }

    /** The preview's Close button. */
    method ClosePreview()
      modifies this`selectedImage
      ensures selectedImage == None
      ensures View().Gallery? ==> View().preview == None
    {
      selectedImage := None;
    }
  }
}
