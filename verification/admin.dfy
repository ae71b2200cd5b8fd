/** The admin page: the add-item flow (validation gate, upload, insert,
    form reset), the confirmed delete, the in-memory category list, and
    the fetch that reloads rows and categories. Every handler is one
    sequential step from a state to a state plus the effects it issues in
    order: requests to the upload endpoint and the content store, refetches
    and the alerts the user sees. The replies those requests get are
    inputs. */
module Admin {
  import opened Seqs
  import Categories
  import Gallery
  import Upload
  import Strings

  datatype AdminState = AdminState(
    loaded: Gallery.Loaded,
    loading: bool,
    uploading: bool,
    newCategory: string,
    showAddCategory: bool,
    title: string,
    category: string,
    description: string,
    imageFile: Option<Upload.File>)

  /** The page as first rendered. */
  const Initial: AdminState :=
    AdminState(Gallery.Loaded([], []), true, false, "", false, "", "", "", None)

  /** The insert payload. `imageUrl` is the `url` field of the upload
      reply's JSON, absent when the reply had none. */
  datatype NewRow = NewRow(title: string, category: string, description: string, imageUrl: Option<string>)

  datatype Effect =
    | SendUpload(file: Upload.File)
    | InsertRow(row: NewRow)
    | DeleteRow(id: string)
    | Refetch
    | Alert(message: string)

  /** A request to the upload endpoint or the content store. */
  predicate IsNetwork(e: Effect) {
    e.SendUpload? || e.InsertRow? || e.DeleteRow?
  }

  datatype Step = Step(state: AdminState, effects: seq<Effect>)

  /** What `fetch('/api/upload', ...)` and the `json()` of its reply give
      back: the endpoint's response; a rejected fetch carrying an error
      message; or a reply whose body is not JSON (a platform error page,
      say), where `json()` throws with the parse error's message. */
  datatype UploadReply =
    | Answered(response: Upload.Response)
    | NetworkError(message: string)
    | NotJson(message: string)

  /** What an insert or delete gives back. `shown` is the text the alert
      shows for the store's error. */
  datatype StoreReply = StoreOk | StoreError(shown: string)

  const FillInMessage: string := "Please fill in title, category, and select an image"
  const AddedMessage: string := "Gallery item added successfully with watermark!"
  const DeleteFailedMessage: string := "Error deleting item"

  /** `response.ok`: a status in the 200 range. */
  predicate IsOk(r: Upload.Response) {
    200 <= r.status <= 299
  }

  /** `errorData.error || 'Upload failed'`: the endpoint's message unless
      it is missing or empty. */
  function UploadErrorText(body: Upload.Body): (text: string)
    ensures text != ""
    ensures body.Error? && body.message != "" ==> text == body.message
    ensures !(body.Error? && body.message != "") ==> text == Upload.UploadFailedMessage
  {
    match body
    case Error(m) => if m != "" then m else Upload.UploadFailedMessage
    case Uploaded(_) => Upload.UploadFailedMessage
  }

  /** The `url` field of the reply's JSON. */
  function UrlOf(body: Upload.Body): Option<string> {
    match body
    case Uploaded(url) => Some(url)
    case Error(_) => None
  }

  /** The upload succeeded as far as the page can tell. */
  predicate UploadAccepted(reply: UploadReply) {
    reply.Answered? && IsOk(reply.response)
  }

  /** The page's gate: `title`, `category` and `imageFile` all truthy. The
      strings are not trimmed, so a title of spaces passes. */
  predicate Ready(s: AdminState) {
    s.title != "" && s.category != "" && s.imageFile.Some?
  }

  /** The form fields the add flow resets. */
  predicate SameForm(a: AdminState, b: AdminState) {
    a.title == b.title && a.category == b.category
    && a.description == b.description && a.imageFile == b.imageFile
  }

  predicate FormCleared(a: AdminState) {
    a.title == "" && a.category == "" && a.description == "" && a.imageFile.None?
  }

  /** `handleAddItem`. */
  function AddItem(s: AdminState, upload: UploadReply, insert: StoreReply): (step: Step)
    // The gate runs before any request and a refused submission changes nothing.
    ensures !Ready(s) ==> step == Step(s, [Alert(FillInMessage)])
    ensures forall e | e in step.effects && IsNetwork(e) :: Ready(s)
    // Past the gate, the file goes to the upload endpoint first, once.
    ensures Ready(s) ==> |step.effects| >= 2 && step.effects[0] == SendUpload(s.imageFile.value)
    ensures forall k | 1 <= k < |step.effects| :: !step.effects[k].SendUpload?
    // The store is written only after an accepted upload, with the form's fields.
    ensures (exists e | e in step.effects :: e.InsertRow?) <==> Ready(s) && UploadAccepted(upload)
    ensures forall e | e in step.effects && e.InsertRow? ::
      e.row == NewRow(s.title, s.category, s.description, UrlOf(upload.response.body))
    // The form is cleared exactly when both requests succeed; otherwise it stays filled.
    ensures Ready(s) && UploadAccepted(upload) && insert.StoreOk? ==> FormCleared(step.state)
    ensures !(Ready(s) && UploadAccepted(upload) && insert.StoreOk?) ==> SameForm(step.state, s)
    // `uploading` is cleared whatever happened past the gate.
    ensures Ready(s) ==> !step.state.uploading
    // Nothing else changes; the list is reloaded only by the refetch.
    ensures step.state.loaded == s.loaded && step.state.loading == s.loading
    ensures step.state.newCategory == s.newCategory && step.state.showAddCategory == s.showAddCategory
    // Every path past the gate ends with one alert.
    ensures Ready(s) ==> step.effects[|step.effects| - 1].Alert?
    ensures Ready(s) && upload.Answered? && !IsOk(upload.response) ==>
      step.effects == [SendUpload(s.imageFile.value), Alert(UploadErrorText(upload.response.body))]
    ensures Ready(s) && (upload.NetworkError? || upload.NotJson?) ==>
      step.effects == [SendUpload(s.imageFile.value), Alert(upload.message)]
    // After an accepted upload: one insert, then the refetch and the success
    // alert, or the store's error alone.
    ensures Ready(s) && UploadAccepted(upload) ==>
      var row := NewRow(s.title, s.category, s.description, UrlOf(upload.response.body));
      step.effects ==
        if insert.StoreOk? then [SendUpload(s.imageFile.value), InsertRow(row), Refetch, Alert(AddedMessage)]
        else [SendUpload(s.imageFile.value), InsertRow(row), Alert(insert.shown)]
  {
    if !Ready(s) then Step(s, [Alert(FillInMessage)])
    else
      var sent := [SendUpload(s.imageFile.value)];
      var done := s.(uploading := false);
      match upload
      case NetworkError(message) => Step(done, sent + [Alert(message)])
      case NotJson(message) => Step(done, sent + [Alert(message)])
      case Answered(response) =>
        if !IsOk(response) then Step(done, sent + [Alert(UploadErrorText(response.body))])
        else
          var row := NewRow(s.title, s.category, s.description, UrlOf(response.body));
          match insert
          case StoreError(shown) =>
            var effects := sent + [InsertRow(row), Alert(shown)];
            assert effects[1] == InsertRow(row);
            Step(done, effects)
          case StoreOk =>
            var cleared := done.(title := "", category := "", description := "", imageFile := None);
            var effects := sent + [InsertRow(row), Refetch, Alert(AddedMessage)];
            assert effects[1] == InsertRow(row);
            Step(cleared, effects)
  }

  /** `handleDelete`: a delete of exactly `id`, only when confirmed, then a
      refetch or the fixed error alert. The list itself is untouched until
      the refetch comes back. */
  function Delete(s: AdminState, id: string, confirmed: bool, reply: StoreReply): (step: Step)
    ensures step.state == s
    ensures !confirmed ==> step.effects == []
    ensures confirmed ==> |step.effects| == 2 && step.effects[0] == DeleteRow(id)
    ensures forall e | e in step.effects && e.DeleteRow? :: e.id == id
    ensures forall e | e in step.effects :: !e.SendUpload? && !e.InsertRow?
    ensures confirmed && reply.StoreOk? ==> Refetch in step.effects
    ensures confirmed && reply.StoreError? ==> step.effects[1] == Alert(DeleteFailedMessage)
  {
    if !confirmed then Step(s, [])
    else
      match reply
      case StoreOk => Step(s, [DeleteRow(id), Refetch])
      case StoreError(_) => Step(s, [DeleteRow(id), Alert(DeleteFailedMessage)])
  }

  /** `handleAddCategory`: on an accepted label the input is emptied and
      closed; a rejected label leaves the whole state as it was. */
  function AddCategory(s: AdminState): (next: AdminState)
    ensures next.loaded.categories == Categories.AddLabel(s.loaded.categories, s.newCategory)
    ensures next.loaded.categories != s.loaded.categories ==>
      next.newCategory == "" && !next.showAddCategory
    ensures next.loaded.categories == s.loaded.categories ==> next == s
    ensures next.loaded.items == s.loaded.items
    ensures SameForm(next, s) && next.uploading == s.uploading && next.loading == s.loading
  {
    var labels := Categories.AddLabel(s.loaded.categories, s.newCategory);
    if labels == s.loaded.categories then s
    else s.(loaded := s.loaded.(categories := labels), newCategory := "", showAddCategory := false)
  }

  /** `handleRemoveCategory`. Rows filed under the removed label keep it. */
  function RemoveCategory(s: AdminState, target: string): (next: AdminState)
    ensures next.loaded.categories == Categories.RemoveLabel(s.loaded.categories, target)
    ensures next.loaded.items == s.loaded.items
    ensures next == s.(loaded := next.loaded)
  {
    s.(loaded := s.loaded.(categories := Categories.RemoveLabel(s.loaded.categories, target)))
  }

  /** `fetchGalleryItems`: the shared refresh, then `loading` cleared in
      `finally`. Labels added by hand and absent from the rows are lost. */
  function Fetched(s: AdminState, reply: Gallery.FetchReply): (next: AdminState)
    ensures !next.loading
    ensures reply.error.Some? ==> next.loaded == s.loaded
    ensures reply.error.None? ==> next.loaded.items == reply.data.GetOr([])
    ensures reply.error.None? && reply.data.None? ==> next.loaded == Gallery.Loaded([], [])
    ensures reply.error.None? ==>
      forall c | c in next.loaded.categories :: exists it | it in next.loaded.items :: it.category == c
    ensures reply.error.None? ==>
      forall it | it in next.loaded.items :: it.category in next.loaded.categories
    ensures reply.error.None? ==>
      && NoDuplicates(next.loaded.categories)
      && Categories.InFirstOccurrenceOrder(next.loaded.categories, Gallery.CategoryColumn(next.loaded.items))
    ensures next == s.(loaded := next.loaded, loading := false)
  {
    s.(loaded := Gallery.Refresh(s.loaded, reply), loading := false)
  }

  /** Everything the page reacts to. Typing into the form and the
      category input replaces their values. */
  datatype Event =
    | Submit(upload: UploadReply, insert: StoreReply)
    | ConfirmDelete(id: string, confirmed: bool, deleteReply: StoreReply)
    | AddCategoryClicked
    | RemoveCategoryClicked(target: string)
    | FetchCompleted(rows: Gallery.FetchReply)
    | EditForm(title: string, category: string, description: string, imageFile: Option<Upload.File>)
    | TypeCategory(text: string)
    | OpenCategoryInput
    | CancelCategoryInput

  function Apply(s: AdminState, ev: Event): Step {
    match ev
    case Submit(upload, insert) => AddItem(s, upload, insert)
    case ConfirmDelete(id, confirmed, reply) => Delete(s, id, confirmed, reply)
    case AddCategoryClicked => Step(AddCategory(s), [])
    case RemoveCategoryClicked(target) => Step(RemoveCategory(s, target), [])
    case FetchCompleted(reply) => Step(Fetched(s, reply), [])
    case EditForm(t, c, d, f) => Step(s.(title := t, category := c, description := d, imageFile := f), [])
    case TypeCategory(text) => Step(s.(newCategory := text), [])
    case OpenCategoryInput => Step(s.(showAddCategory := true), [])
    case CancelCategoryInput => Step(s.(showAddCategory := false, newCategory := ""), [])
  }

  /** Between events, no upload is in progress and the category list
      has no duplicates. The first half holds trivially: each handler is
      one step and no event leaves `uploading` set, so it says nothing
      about uploads in flight. */
  predicate Invariant(s: AdminState) {
    !s.uploading && NoDuplicates(s.loaded.categories)
  }

  lemma InitialInvariant()
    ensures Invariant(Initial)
  {
  }

  /** Every event keeps the invariant. */
  lemma ApplyKeepsInvariant(s: AdminState, ev: Event)
    requires Invariant(s)
    ensures Invariant(Apply(s, ev).state)
  {
    match ev
    case RemoveCategoryClicked(target) =>
      RemoveKeepsDistinct(s.loaded.categories, target);
    case _ =>
  }

  /** Removing a label keeps a duplicate-free list duplicate-free. */
  lemma RemoveKeepsDistinct(labels: seq<string>, target: string)
    requires NoDuplicates(labels)
    ensures NoDuplicates(Categories.RemoveLabel(labels, target))
  {
    var r := Categories.RemoveLabel(labels, target);
    forall x | x in r
      ensures multiset(r)[x] <= 1
    {
      DistinctCountsAtMostOne(labels, x);
    }
    AtMostOneEachIsDistinct(r);
  }

  lemma {:induction false} DistinctCountsAtMostOne(s: seq<string>, x: string)
    requires NoDuplicates(s)
    ensures multiset(s)[x] <= 1
    decreases |s|
  {
    if |s| > 0 {
      assert s == [s[0]] + s[1..];
      DistinctCountsAtMostOne(s[1..], x);
      if s[0] == x {
        assert x !in s[1..];
      }
    }
  }

  lemma {:induction false} AtMostOneEachIsDistinct(s: seq<string>)
    requires forall x | x in s :: multiset(s)[x] <= 1
    ensures NoDuplicates(s)
    decreases |s|
  {
    if |s| > 0 {
      assert s == [s[0]] + s[1..];
      forall x | x in s[1..]
        ensures multiset(s[1..])[x] <= 1
      {
        assert multiset(s)[x] == multiset([s[0]])[x] + multiset(s[1..])[x];
      }
      AtMostOneEachIsDistinct(s[1..]);
      assert multiset(s)[s[0]] == 1 + multiset(s[1..])[s[0]];
      assert s[0] !in s[1..];
    }
  }

  /** End to end: an image the endpoint accepts and the media service
      stores is inserted with the watermarked URL, and the form is cleared. */
  lemma AcceptedImageIsInserted(s: AdminState, url: string)
    requires Ready(s)
    requires s.imageFile.value.Size() <= Upload.MaxSize
    requires Strings.StartsWith(s.imageFile.value.mimeType, Upload.ImagePrefix)
    ensures
      var response := Upload.Post(Upload.Form(Some(Upload.FilePart(s.imageFile.value))), Upload.Stored(url)).response;
      var step := AddItem(s, Answered(response), StoreOk);
      && InsertRow(NewRow(s.title, s.category, s.description, Some(url))) in step.effects
      && FormCleared(step.state)
  {
    var response := Upload.Post(Upload.Form(Some(Upload.FilePart(s.imageFile.value))), Upload.Stored(url)).response;
    var step := AddItem(s, Answered(response), StoreOk);
    assert step.effects[1] == InsertRow(NewRow(s.title, s.category, s.description, Some(url)));
  }

  /** End to end: a file the endpoint refuses is never inserted, and the
      alert carries the endpoint's own message. */
  lemma OversizedFileIsReported(s: AdminState, upstream: Upload.Upstream)
    requires Ready(s)
    requires s.imageFile.value.Size() > Upload.MaxSize
    ensures
      var response := Upload.Post(Upload.Form(Some(Upload.FilePart(s.imageFile.value))), upstream).response;
      AddItem(s, Answered(response), StoreOk).effects ==
        [SendUpload(s.imageFile.value), Alert(Upload.TooLargeMessage)]
  {
  }
}
