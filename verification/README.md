# Art portfolio gallery: verified model of its decision rules

The gallery is a Next.js site. A public page lists the artworks stored in
a hosted database and filters them by category. An admin page uploads
new artworks, deletes rows and edits a list of category labels kept only
in the page. An upload endpoint checks each image, base-64 encodes it
into a `data:` URI and uploads it to a hosted media service. From the
stored asset's identifier the media library then builds, locally, a URL
that applies a watermark. The root layout hides the site header on the
`/admin`, `/sign-in` and `/sign-up` routes.

Most of the code is glue around those hosted services. This project
models the decisions the code makes itself, as immutable datatypes and
pure functions. The services' answers are inputs and the requests sent
to them are outputs, so a contract can say which requests happen.

| module | file | what it holds |
|---|---|---|
| `Seqs` | seqs.dfy | `Option`, `Array.prototype.filter`, subsequences, first occurrences |
| `Strings` | strings.dfy | `startsWith` and ECMAScript `trim` |
| `Base64` | base64.dfy | the base 64 encoding of section 4 of RFC 4648 and its strict decoder |
| `Upload` | upload.dfy | `POST /api/upload`: the validation ladder, the data URI, the media request, the response |
| `Categories` | categories.dfy | the `Set`-based distinct list, add-if-absent and remove-all |
| `Gallery` | gallery.dfy | gallery rows, the public page's filter and the shared fetch |
| `Admin` | admin.dfy | the admin page's handlers as steps from a state to a state plus effects |
| `Layout` | layout.dfy | `isAdminPage` and whether the header is rendered |

Each admin handler is a single step. It returns the next page state and
the ordered list of effects it issued: the upload request, the row insert
or delete, a refetch, and the alert the user sees. A reply to each
request is a parameter of the step.

Three facts about the upload handler shape its model:
- The too-large answer is the full message `File too large. Maximum size is 100MB. The image will be automatically optimized after upload.`
- The handler answers 500 "Upload failed" for any exception inside its `try`. That covers a media-service failure and a body that `formData()` cannot parse. It also covers a `file` field that holds non-empty text instead of a file. For text, `undefined > maxSize` is false, so the size check passes, and then `undefined.startsWith` throws.
- An empty text field is falsy, so it is answered like a missing field.

## Model

| member | source | states |
|---|---|---|
| Upload.Validate | app/api/upload/route.ts:12-29 | Accepts exactly when the request carries a file of at most 100 MiB whose type starts with `image/`. A missing field or empty text gives 400 "No file provided". An oversized file gives 400 with the long size message. A non-image within the limit gives 400 "File must be an image". An unreadable body or non-empty text gives 500 "Upload failed". |
| Upload.OversizedNonImage | app/api/upload/route.ts:15-29 | The size check runs before the type check: an oversized non-image gets the size error, and nothing is sent upstream. |
| Upload.ExactLimitAccepted | app/api/upload/route.ts:21-24 | A file of exactly 104857600 bytes passes the size check, and an image of that size is sent upstream. |
| Upload.DataUri | app/api/upload/route.ts:33-37 | The URI is `data:<type>;base64,` followed by a payload. The strict base 64 decoder returns exactly the file's bytes from that payload. The URI's length is fixed by the type length and the byte count. |
| Upload.Post | app/api/upload/route.ts:10-92 | The media service is called iff validation accepts, with the file's data URI, folder `gallery`, `auto:good`, 2500x2500 `limit` and the watermark layers. A rejection's response is returned unchanged. Status 200 iff the call was made and the service stored the image, and then the body carries the service's URL. A service failure gives 500 "Upload failed". Every response is 200 with a URL, 400 with a message, or that 500. |
| Upload.WatermarkPolicy | app/api/upload/route.ts:49-80 | There are exactly two text layers. Both have text `Kourtney%20Shamwell`, opacity 50 and angle -90. The first is anchored west at x = 100; the second is centred with no offset. |
| Base64.Encode | app/api/upload/route.ts:34-36 | The encoding is 4 characters per started group of 3 bytes. |
| Base64.DecodeEncode | app/api/upload/route.ts:34-37 | Decoding the encoding of any byte sequence gives that sequence back. |
| Base64.EncodeDecode | app/api/upload/route.ts:34-37 | The decoder accepts no text but the encoder's own output: encoding what it decoded gives the text back. |
| Base64.EncodeInjective | app/api/upload/route.ts:34-37 | Different files give different payloads. |
| Strings.StartsWithIsSlice | app/layout.tsx:15 | `startsWith` holds iff the prefix fits and equals the string's leading slice of the same length. |
| Strings.Trim | app/admin/page.tsx:128 | The result is the input with a whitespace-only run removed from each end, and neither end of the result is whitespace. It is empty iff the input is all whitespace. |
| Strings.TrimIdempotent | app/admin/page.tsx:128-129 | Trimming a trimmed label changes nothing. |
| Seqs.FilterContents | app/page.tsx:57 | The filter keeps exactly the accepted elements, each with its original multiplicity, as a subsequence of the input. |
| Seqs.FilterAppend | app/admin/page.tsx:136 | Filtering a concatenation is the concatenation of the filtered parts. |
| Categories.Distinct | app/admin/page.tsx:39-40 | The distinct list holds exactly the source's labels, with no duplicates, ordered by first occurrence in the source. |
| Categories.FirstOccurrenceListIsUnique | app/admin/page.tsx:39 | Two lists with the same labels, all taken from the source and both in first-occurrence order, are equal. |
| Categories.DistinctIsTheFirstOccurrenceList | app/page.tsx:48 | Any list with exactly the source's labels in first-occurrence order is the `Set`-derived list. |
| Categories.AddLabel | app/admin/page.tsx:127-133 | The list grows by one iff the trimmed label is non-empty and absent, and then the trimmed label is appended. Otherwise the list is unchanged. Existing labels keep their order. A non-empty trimmed label is listed afterwards. No duplicates are introduced. |
| Categories.RemoveLabel | app/admin/page.tsx:135-137 | The target no longer occurs. Every other label keeps its count, and the result is a subsequence of the old list. |
| Categories.RemoveUndoesAdd | app/admin/page.tsx:127-137 | Removing a label that was just added restores the old list. |
| Categories.RemoveAbsent | app/admin/page.tsx:136 | Removing a label that is not listed changes nothing. |
| Categories.RemoveIdempotent | app/admin/page.tsx:136 | Removing twice is the same as removing once. |
| Gallery.CategoriesOf | app/page.tsx:48 | Every row's category is listed, every label comes from some row, and there are no duplicates. The labels are in first-occurrence order of the category column. |
| Gallery.Visible | app/page.tsx:55-57 | `"All"` shows every row in order. Any other selection shows exactly the rows whose category equals it, each with its multiplicity, as a subsequence. |
| Gallery.FilterWithinAll | app/page.tsx:55-57 | Every filter's rows are among the `"All"` rows, and there are never more of them. |
| Gallery.EveryItemReachable | app/page.tsx:48-57 | Every row's category is offered as a filter, and selecting it shows the row. |
| Gallery.Refresh | app/page.tsx:43-49 | An error keeps what was loaded. Otherwise the rows become the reply's data (none when null). The categories become their distinct list, so every row's category is listed exactly once. |
| Gallery.OnFetch | app/page.tsx:36-53 | The selected filter is kept. An error keeps the loaded rows. After success the rows are the reply's data (none when null) and the categories are their distinct list, so every row's category is listed. |
| Gallery.Select | app/page.tsx:128-131 | A filter click changes only the selection. |
| Gallery.Shown | app/page.tsx:55-57 | The page shows a subsequence of its loaded rows: all of them under `"All"`, and otherwise exactly the rows of the selected category. |
| Gallery.RefreshKeepsConsistent | app/page.tsx:43-49 | Loaded categories that match their rows keep matching after any fetch, and stay free of duplicates. |
| Admin.UploadErrorText | app/admin/page.tsx:66-69 | The alert text after a non-ok upload is the endpoint's message when that message is non-empty, and `Upload failed` otherwise. |
| Admin.AddItem | app/admin/page.tsx:48-107 | See the list below the table. |
| Admin.Delete | app/admin/page.tsx:109-125 | Without confirmation nothing happens. With confirmation, a delete of exactly the given id is issued. Then a refetch follows on success, or the fixed "Error deleting item" alert on failure. No upload or insert is issued, and the state is untouched. |
| Admin.AddCategory | app/admin/page.tsx:127-133 | The labels become the result of adding the typed label. If the list changed, the input is emptied and hidden. If the list did not change, the state is unchanged. Rows and the form are untouched. |
| Admin.RemoveCategory | app/admin/page.tsx:135-137 | The labels become the result of removing the target. Nothing else changes; rows keep their category. |
| Admin.Fetched | app/admin/page.tsx:28-46 | `loading` ends false. An error keeps the rows and labels. A null result empties both. After success every row's category is listed once, in first-occurrence order, and every label comes from a row. Nothing else changes. |
| Admin.InitialInvariant | app/admin/page.tsx:8-21 | The initial state has no upload in progress and no duplicate labels. |
| Admin.ApplyKeepsInvariant | app/admin/page.tsx:28-137 | Every handler, every form edit and opening or cancelling the category input keeps the list of labels free of duplicates. No event leaves `uploading` set; that half holds because each handler is one step. |
| Admin.RemoveKeepsDistinct | app/admin/page.tsx:136 | Removing a label from a duplicate-free list leaves it duplicate-free. |
| Admin.AcceptedImageIsInserted | app/admin/page.tsx:48-107 | End to end with the endpoint: a valid image that the media service stores is inserted with the watermarked URL, and then the form is cleared. |
| Admin.OversizedFileIsReported | app/admin/page.tsx:61-69 | End to end with the endpoint: an oversized file is never inserted. The user sees exactly the endpoint's size message. |
| Layout.IsAdminPage | app/layout.tsx:14-15 | The header is hidden iff the pathname is present and starts with one of `/admin`, `/sign-in` or `/sign-up`. A null pathname is not hidden. |
| Layout.ShowsHeader | app/layout.tsx:26 | The header is shown iff the pathname is null or has none of the three prefixes. |
| Layout.HiddenIsPrefixClosed | app/layout.tsx:15 | Any extension of a hidden path is hidden. |
| Layout.AdministratorIsHidden | app/layout.tsx:15 | The test is a prefix test, not a path-segment test: `/administrator` is hidden, like `/admin/settings`. |
| Layout.RootShowsHeader | app/layout.tsx:14-26 | The header is shown for `/` and for a missing pathname. |

Admin.AddItem states the following:
- A submission missing the title, the category or the file issues only the fill-in alert and changes nothing.
- No network effect happens unless the gate passes. The upload request comes first and is sent once.
- An insert happens iff the upload was accepted. It carries the form's title, category and description and the reply's URL.
- After an accepted upload the effects are exactly: the upload, one insert, then the refetch and the success alert. If the insert fails, the upload and the insert are followed by the store's error alert alone.
- The form is cleared iff both the upload and the insert succeed. Otherwise the form keeps its fields.
- `uploading` is false afterwards.
- Rows, `loading` and the category input are untouched.
- Every path ends in an alert. The alert carries exactly the endpoint's error text on a non-ok upload with a JSON body. It carries the error's message on a rejected fetch or on a reply whose body is not JSON.

## Left out

- The hosted database: creating the client, select, insert, delete and the realtime change subscription (lib/supabase.ts, app/page.tsx:16-33). Their replies are parameters: `FetchReply` and `StoreReply`.
- The media service's upload and `cloudinary.url` templating (app/api/upload/route.ts:4-8, 40-80). What the service answers is the `Upstream` parameter. The handler's request is the `UpstreamCall` it returns, which holds the constant options and watermark layers.
- Reading the file body with `arrayBuffer` (app/api/upload/route.ts:34). A failure there would give 500, but it is not modelled, because the file's content is an input.
- Authentication: `ClerkProvider` and `UserButton` are an external identity provider.
- `alert`, `confirm` and `console`: alerts are `Alert` effects, confirmation is a boolean input, and logging is dropped. The DOM file-input reset (app/admin/page.tsx:94-95) is dropped too.
- Admin.AddItem: a reply that is not JSON is one case, `NotJson`, with the parse error's message. Which message the browser's parser produces is not modelled.
- Admin.AddItem: the alert text after a failed insert is the parameter `shown`. How the page derives it from the store's error object is not modelled, because that depends on the database client's error class.
- Admin.AddItem: the `uploading = true` state while the requests are in flight is not modelled, because each handler is one step. Async interleaving and React state batching are not modelled either.
- JSX rendering, styling, the full-screen viewer on the public page, and the header's mobile menu.
- Strings: characters are Unicode scalar values. A JavaScript string can also hold lone UTF-16 surrogates; they are not whitespace and would not change any result here.
- Base64.Decode: it is the decoder that states the round trip, not the media service's own decoding, which is not modelled.
