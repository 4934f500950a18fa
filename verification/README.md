# Upload to Owncloud — a Dafny model of the extension's core

The "Upload to Owncloud" browser extension adds a context-menu entry to
images, videos and audio. Clicking it fetches the media and PUTs it into a
folder of an ownCloud server over WebDAV. It can then copy a link to the
file in the server's viewer. The options page holds the credentials form
and a folder browser, which lists the server's folders with PROPFIND.

This project models three parts of that core and proves properties of them:

- **The options page** (`Options`, `FolderListing`, `Settings`). It covers:
  - the browser's `currentPath` state machine ("Go back", opening a
    folder, the page load, the two save buttons), as a class whose methods
    update the path and the synced storage;
  - `getFolders`, as a loop over the `DAV:response` elements;
  - the display filter and placeholder of `updateFolderBrowser`;
  - the save gate: a valid URL, then credentials, then a successful
    connection test.
- **File naming** (`Naming`). This is how both background scripts derive
  the upload name: the last URL segment before the query is taken, stripped
  of zero-width characters, and made unique as
  `{stem}_{timestamp}_{random}.{extension}`.
- **The upload handler** (`Background`). This is the `onClicked` listener
  of both hosts, as one function from the click, the stored settings and
  the replies of the asynchronous calls to what the handler does: the
  notification, the options page, the media request, the PUT URL and the
  clipboard text. The Firefox and Chrome `onClicked` listeners differ only
  in how they join the upload folder into the URLs. A `Host` parameter selects one of
  the two.

The JavaScript built-ins this code relies on are modelled with their exact
edge cases in `JsString` and `UriEncoding`: `split` on one character,
`join`, `pop`, `slice(0, -1)`, `filter(Boolean)`, `substring`, `trim` and
`encodeURIComponent`. `Wrappers` holds the `Option` type.

Behaviour kept as the code has it:

- An href with no non-empty segment yields the folder name "undefined".
- The "No subfolders found" placeholder depends on the raw listing, not on
  the filtered one.
- Saving the credentials restarts browsing at "/" without touching the
  stored upload folder.
- A media response with an error status is still uploaded. Only a thrown
  fetch stops the handler.
- A failed clipboard write after a successful PUT reports "Upload Failed".
- Saved folders are absolute paths, so Chrome's PUT URL always has
  `webdav//{folder}/`. Firefox's has `webdav//` when the folder is the
  root.

The viewer link percent-encodes the whole folder path, slash included:
`...?dir=/%2FPhotos&openfile=...` from Firefox and
`...?dir=/%2FPhotos%2F&openfile=...` from Chrome
(`Background.UploadIntoFolder`).

## Model

| member | source | states |
|---|---|---|
| JsString.Split | firefox/background.js:54 | `split` on one character never returns an empty list. No piece holds the separator. A text without it is one piece. The first piece is a prefix followed by the separator. |
| JsString.SplitAppend | firefox/background.js:54 | Splitting `a + c + b` at `c` gives the pieces of `a` followed by the pieces of `b`. |
| JsString.Join | chrome/options.js:91 | `join` with one character: the pieces with the separator between each two. `JsString.JoinSnoc` states how one more piece is joined. `JsString.JoinSplit` and `JsString.SplitJoin` show it inverts `split`. |
| JsString.Last | firefox/background.js:31 | `pop` on a split: the last piece. `JsString.SplitAtLast` states that it holds no separator and is what follows the last separator. |
| JsString.DropLast | chrome/options.js:91 | `slice(0, -1)` on a split: every piece but the last. `JsString.SplitAtLast` and `JsString.SplitLastPiece` state that joining them gives the text before the last separator. |
| JsString.JoinSnoc | chrome/options.js:91 | Joining a list with one more piece appends the separator and that piece. |
| JsString.JoinSplit | chrome/options.js:91 | Round trip: joining the pieces of a split with the same separator restores the text. |
| JsString.SplitJoin | chrome/options.js:91 | Round trip: splitting a join of separator-free pieces returns those pieces. |
| JsString.SplitLastPiece | firefox/background.js:31-32 | When `b` holds no separator, `b` is the last piece of `a + c + b`, and the other pieces join back to `a`. |
| JsString.SplitAtLast | firefox/background.js:31-32 | The last piece holds no separator. Without a separator it is the whole text and nothing comes before it. Otherwise the text is the other pieces joined, the separator, and the last piece. |
| JsString.NonEmpty | chrome/options.js:52 | `filter(Boolean)` keeps exactly the non-empty strings, never more than it was given. |
| JsString.NonEmptyAppend | chrome/options.js:52 | Filtering distributes over concatenation, so order is kept. |
| JsString.Substring | firefox/background.js:30 | `substring` clamps both bounds to the length. Within bounds it is the slice. Past the end it is empty. It is never longer than `end - start`. |
| JsString.TrimStart | chrome/options.js:163-164 | The result is a suffix. Everything dropped is ECMAScript white space. The first kept character is not. |
| JsString.TrimEnd | chrome/options.js:163-164 | The result is a prefix. Everything dropped is white space. The last kept character is not. |
| JsString.Trim | chrome/options.js:163-164 | No white space at either end. An all-white-space field becomes empty. |
| JsString.TrimKeepsMiddle | chrome/options.js:163-164 | `trim` keeps the field's middle: the result is a contiguous slice of the input, with only white space before and after it. |
| FolderListing.LastSegment | chrome/options.js:52 | The segment handed to the decoder is non-empty and slash-free. It is "undefined" when the href has no non-empty segment. |
| FolderListing.LastSegmentOfFolderHref | chrome/options.js:51-52 | A folder's href, with or without a trailing slash, yields the folder's own name. |
| FolderListing.Examine | chrome/options.js:48-55 | One iteration pushes a name exactly when the response is a collection whose href differs from the queried folder's and whose last segment decodes to a non-empty name; that name is pushed. A collection whose segment decodes to "" is skipped, and one whose decoding fails throws. Non-collections and the folder itself are skipped. A missing `href` or `resourcetype` throws. |
| FolderListing.TestConnection | chrome/options.js:10-24 | The connection test passes exactly when the PROPFIND request did not throw and its status is ok. `Options.SaveGate` states how it gates the save. |
| FolderListing.Scan | chrome/options.js:46-66 | The loop over the responses as a recursion on the responses seen so far: `None` once an iteration throws, otherwise the names pushed, in order. `FolderListing.ScanThrowsIff`, `FolderListing.ScanIsPushed` and `FolderListing.ScanShape` state it. |
| FolderListing.ListFolders | chrome/options.js:26-68 | `getFolders`' result. `FolderListing.ListFoldersSpec` states it: `[]` on a thrown request, a status that is not ok or a throwing iteration, otherwise the pushed names. `FolderListing.GetFolders` is proved to compute it. |
| FolderListing.GetFolders | chrome/options.js:26-68 | The loop returns the specified listing. Its invariant is that the names pushed so far are the scan of the responses seen so far. |
| FolderListing.ScanThrowSticks | chrome/options.js:47-66 | Once an iteration has thrown, the whole call returns the empty list. |
| FolderListing.ScanAppend | chrome/options.js:46-57 | The scan of a concatenation is the concatenation of the scans, and it throws if either part throws. |
| FolderListing.ScanThrowsIff | chrome/options.js:47-66 | The scan throws exactly when some response makes its iteration throw. |
| FolderListing.ScanIsPushed | chrome/options.js:46-57 | When nothing throws, the result equals the front-to-back reference definition: the names the responses push, in response order. |
| FolderListing.ScanShape | chrome/options.js:46-57 | There are no more names than responses. Each name is non-empty and pushed by some response. |
| FolderListing.ListFoldersSpec | chrome/options.js:37-67 | `getFolders` returns `[]` for a thrown request, a status that is not ok, or a throwing iteration. Otherwise it returns the pushed names in order. Either way it returns at most one name per response, each from a qualifying collection. |
| Settings.SaveCredentialsKeepsWellFormed | chrome/options.js:182 | Storing the credentials and the clipboard flag keeps the stored upload folder, and so keeps the store well formed. |
| Settings.SaveCredentials | chrome/options.js:182 | The store after the save writes the server URL, the user name, the password and the clipboard flag. `Settings.SaveCredentialsKeepsWellFormed` states that the upload folder is untouched and the store stays well formed. |
| Options.CurrentFolderName | chrome/options.js:105 | The current folder's name holds no slash. |
| Options.Into | chrome/options.js:112 | Opening a folder from an absolute path gives an absolute path, one slash and the name longer (no extra slash at the root). |
| Options.Up | chrome/options.js:91 | "Go back": `split`, `slice(0, -1)`, `join`, then "/" for an empty result. `Options.UpDropsLastSegment`, `Options.UpKeepsAbsolute`, `Options.UpAfterInto` and `Options.UpExamples` state it. |
| Options.UpDropsLastSegment | chrome/options.js:91 | "Go back" drops the last `/`-segment, reading an empty rest as "/". A path without a slash goes back to "/". |
| Options.UpKeepsAbsolute | chrome/options.js:91 | "Go back" never leaves the tree rooted at "/". |
| Options.IntoNamesFolder | chrome/options.js:112 | After opening a folder, its name is the current folder's name. |
| Options.UpAfterInto | chrome/options.js:91 | Round trip: opening a folder whose name has no slash and then going back returns to the starting path. |
| Options.UpExamples | chrome/options.js:91 | "/A/B" goes back to "/A", "/A" to "/", and "/" stays at "/". |
| Options.Without | chrome/options.js:103-107 | The display filter keeps exactly the folders with a different name. |
| Options.WithoutAppend | chrome/options.js:103-116 | The filter distributes over concatenation, so the listing's order is kept. |
| Options.Render | chrome/options.js:76-117 | The view has a header with the path, and "Go back" exactly when not at "/". The placeholder appears exactly when the listing is empty. The entries are the display filter `Options.Without` applied to the listing: one entry per listed folder not named like the current folder, in the listing's order (`Options.WithoutAppend`). |
| Options.SelfEntryHidden | chrome/options.js:104-107 | A server that reports the browsed folder with a trailing slash gets past the href check, and the display filter then hides that entry. |
| Options.SaveGate | chrome/options.js:168-181 | Saving happens exactly when the URL is valid, both credentials are non-empty and the connection test passes. An invalid URL is reported first, missing credentials second. |
| Options.OptionsPage.constructor | chrome/options.js:1 | Browsing starts at "/" over a well-formed store. |
| Options.OptionsPage.Load | chrome/options.js:144-159 | A stored upload folder becomes the current path. The browser opens exactly when the credentials are all set. The store stays well formed and the path absolute. |
| Options.OptionsPage.NavigateInto | chrome/options.js:111-114 | The current path becomes the opened folder's path, and it stays absolute. |
| Options.OptionsPage.NavigateUp | chrome/options.js:90-93 | The current path becomes its parent, and it stays absolute. |
| Options.OptionsPage.Save | chrome/options.js:162-190 | The URL and the user name are trimmed, and the status is the gate's verdict. On success the four keys are stored and browsing restarts at "/". The upload folder is left alone. On failure nothing changes. |
| Options.OptionsPage.SaveFolder | chrome/options.js:192-195 | The current path is stored as the upload folder, and nothing else changes. |
| Options.OptionsPage.Reload | chrome/options.js:122-130 | The view is the rendering of the current folder's listing. |
| Naming.OriginalFilename | firefox/background.js:54 | The original name holds no slash or question mark. It is the start of the last URL segment, cut exactly at a question mark. |
| Naming.Sanitize | firefox/background.js:57 | No zero-width character (U+200B..U+200D, U+FEFF) survives, and the name never grows. |
| Naming.SanitizeDropsInvisible | firefox/background.js:57 | A zero-width character is removed, not replaced: the text around it is joined. |
| Naming.SanitizeAppend | firefox/background.js:57 | Removal works character by character. |
| Naming.SanitizeKeepsVisible | firefox/background.js:57 | A name without zero-width characters is unchanged. |
| Naming.SanitizeIdempotent | firefox/background.js:57 | Cleaning twice is cleaning once. |
| Naming.SanitizeExample | firefox/background.js:57 | "a" + U+200B + "b.png" becomes "ab.png". |
| Naming.Decimal | firefox/background.js:33 | The timestamp prints as at least one decimal digit, with a leading zero only for 0. |
| Naming.ParseDecimalOfDecimal | firefox/background.js:33 | Round trip: the printed timestamp reads back as the timestamp. |
| Naming.RandomSuffix | firefox/background.js:30 | `substring(2, 8)` gives at most six characters: the slice after "0.", clamped to the text. For a `toString(36)` text they are base-36 digits. |
| Naming.StemAndExtension | firefox/background.js:31-32 | The extension holds no dot. A dotted name is stem, dot, extension. An undotted name has an empty stem and is its own extension. |
| Naming.Extension | firefox/background.js:31 | The last `.`-piece of the name. `Naming.StemAndExtension` states it. |
| Naming.Stem | firefox/background.js:32 | The `.`-pieces but the last, joined with dots. `Naming.StemAndExtension` states it. |
| Naming.UniqueFilename | firefox/background.js:28-34 | `{stem}_{timestamp}_{random}.{extension}`. `Naming.UniqueFilenameKeepsExtension`, `Naming.UniqueFilenameWithoutDot` and `Naming.UniqueFilenameSeparatesTimes` state it. |
| Naming.UniqueFilenameKeepsExtension | firefox/background.js:28-34 | The unique name keeps the original extension. Its stem is the original stem, the timestamp and the random part. |
| Naming.UniqueFilenameWithoutDot | firefox/background.js:28-34 | A name without a dot becomes `_{timestamp}_{random}.{name}`. |
| Naming.UnderscoreAfterDigits | firefox/background.js:33 | In a digit string followed by an underscore, the first underscore comes right after the digits. |
| Naming.DigitsBeforeUnderscore | firefox/background.js:33 | Two texts that each start with digits and an underscore are equal only if those digit strings are equal. |
| Naming.TimestampFromStem | firefox/background.js:33 | Equal unique stems built on the same original stem have equal timestamps. |
| Naming.UniqueFilenameSeparatesTimes | firefox/background.js:28-34 | Two uploads of one file at different milliseconds get different names, whatever the random parts. |
| UriEncoding.Utf8 | firefox/background.js:77 | A code point takes one to four bytes, and exactly the ASCII ones take a single byte equal to themselves. |
| UriEncoding.PercentEscapes | firefox/background.js:77 | Each byte becomes three characters, so the escapes are three times as long as the bytes, and only `%` and upper-case hex digits appear. `UriEncoding.PercentEscapesLayout` places each byte's escape. |
| UriEncoding.PercentEscapesLayout | firefox/background.js:77 | The escape of byte `k` is at positions `3k` to `3k + 2`: `%`, then the byte's high hex digit, then its low hex digit, in upper case. |
| UriEncoding.EncodeUriComponent | firefox/background.js:77 | The encoding holds only unreserved characters and `%`, so no `/`, `?`, `&` or `#` leaks into the link. It is never shorter than its input. |
| UriEncoding.EncodeAppend | firefox/background.js:77 | Encoding works character by character, in order. |
| UriEncoding.EncodeKeepsUnreserved | firefox/background.js:77 | Text made only of unreserved characters is unchanged. |
| UriEncoding.EncodeSlash | firefox/background.js:77 | "/" encodes as "%2F". |
| UriEncoding.EncodeSlashedFolder | chrome/background.js:67 | "/{folder}" encodes as "%2F{folder}", and "/{folder}/" as "%2F{folder}%2F". |
| Background.OnClicked | firefox/background.js:36-97 | The listener of both hosts (the Chrome one is chrome/background.js lines 26-87, with its own folder path and upload URL). Nothing happens for another menu entry or an element without a source. Missing credentials give "Configuration Required" and open the options page, with no request. Otherwise the media is fetched, and a PUT follows exactly when that fetch did not throw, to the host's URL for the unique name. Success is reported exactly when the PUT is ok and any clipboard write succeeded; the clipboard note is added when copying is on. Every other failure reports "Upload Failed". The viewer link goes to the clipboard exactly when the PUT is ok and copying is on. |
| Background.UploadName | firefox/background.js:54-60 | The last URL segment before the query, cleaned of zero-width characters and made unique (chrome/background.js:44-50 is the same). `Background.UploadNameOfFile` and `Background.UploadNameOfMediaUrl` state it. |
| Background.FirefoxFolderPath | firefox/background.js:63 | The saved upload folder when it is truthy, otherwise "/". `Background.DoubledSlashes` and `Background.FolderUrls` state the URLs it gives. |
| Background.FirefoxUploadUrl | firefox/background.js:66 | The server, the WebDAV root, the folder path, a slash and the name. `Background.UploadUrlEndsWithName`, `Background.HostsDiverge` and `Background.FolderUrls` state it. |
| Background.ChromeFolderPath | chrome/background.js:53 | The saved upload folder followed by a slash when it is truthy, otherwise "". `Background.DoubledSlashes` and `Background.FolderUrls` state the URLs it gives. |
| Background.ChromeUploadUrl | chrome/background.js:56 | The server, the WebDAV root, a slash, the folder path and the name. `Background.UploadUrlEndsWithName`, `Background.HostsDiverge` and `Background.FolderUrls` state it. |
| Background.ViewerUrl | firefox/background.js:77 | The viewer link with the encoded folder path and name (chrome/background.js:67 is the same). `Background.FolderUrls`, `Background.UploadIntoFolder` and `Background.MediaUploadName` state it. |
| Background.UploadUrlEndsWithName | firefox/background.js:66 | On both hosts the PUT URL ends with a slash and the file name. |
| Background.HostsDiverge | chrome/background.js:53-56 | The hosts never PUT to the same URL. With a saved folder, Chrome has one more slash after the WebDAV root. Without one, Firefox does. |
| Background.PhotosFolderUrls | chrome/background.js:56 | With the folder "/Photos", Firefox PUTs to `.../webdav/Photos/{name}` and Chrome to `.../webdav//Photos/{name}`. |
| Background.DoubledSlashes | chrome/background.js:53-56 | For a store the options page wrote, a saved folder always gives Chrome `webdav//`. Firefox gives `webdav//{name}` for the root folder or no folder. |
| Background.OriginalFilenameOfMediaUrl | firefox/background.js:54 | `{prefix}/{file}?{query}` names the file `file`. |
| Background.UploadNameOfFile | firefox/background.js:57-60 | A visible `{stem}.{ext}` is uploaded as `{stem}_{timestamp}_{random}.{ext}`. |
| Background.UploadNameOfMediaUrl | firefox/background.js:54-60 | A media URL `{prefix}/{stem}.{ext}?{query}` is uploaded as `{stem}_{timestamp}_{random}.{ext}`. |
| Background.UniqueNameUnreserved | firefox/background.js:77 | A unique name built from unreserved parts passes through `encodeURIComponent` unchanged. |
| Background.MediaUploadName | firefox/background.js:54-77 | For such a media URL, the upload name and its encoded form in the viewer link are the same `{stem}_{timestamp}_{random}.{ext}`. |
| Background.UploadIntoFolder | firefox/background.js:63-86 | This is the end-to-end run into a saved folder "/{folder}" with copying on. Both hosts report success with the clipboard note. Firefox PUTs to `{server}/remote.php/webdav/{folder}/{name}` and copies `...?dir=/%2F{folder}&openfile={name}`. Chrome PUTs to `.../webdav//{folder}/{name}` and copies `...?dir=/%2F{folder}%2F&openfile={name}`. |
| Background.FolderUrls | chrome/background.js:53-67 | The PUT URL and the viewer link of a file in a saved folder "/{folder}", for each host: Firefox `.../webdav/{folder}/{name}` and `dir=/%2F{folder}`, Chrome `.../webdav//{folder}/{name}` and `dir=/%2F{folder}%2F`. Per-host helper lemmas carry the proof steps. |

## Left out

- Network requests are inputs, not calls. The PROPFIND and PUT requests,
  the media fetch and the reading of its blob are not made. A PROPFIND
  reply is a thrown error or an answer with its `ok` flag and its
  `DAV:response` elements. The upload handler receives whether each
  asynchronous step completed.
- XML parsing with `DOMParser` is not modelled. A response element is the
  text of its first `href` and whether its first `resourcetype` holds a
  `collection`. A missing element stands for the throwing `[0]` access.
- Request contents are not modelled. This covers the `Authorization`
  header (`btoa` of the credentials), the `Depth` and `Content-Type`
  headers and the uploaded bytes. `btoa` throwing on non-Latin-1
  credentials is not modelled either.
- `decodeURIComponent` is a parameter. `None` stands for its URIError.
- `isValidUrl` (the `URL` constructor) is a parameter of `Save`.
- `Date.now()` and `Math.random().toString(36)` are inputs. The shape of
  the random text is the predicate `IsRandomBase36`.
- The DOM is not modelled: form fields, status messages and their
  three-second timeout, element creation and styling, console logging,
  and the notification icon. The page load's filling of the form fields
  is omitted. Notifications are values, and opening the options page is a
  flag.
- The context-menu creation on install and start-up is not modelled. It
  is a single call with the constant id `MENU_ITEM_ID`.
- Asynchrony is not modelled: clicks arriving while a listing is pending,
  and interleaved handlers. Each event runs to completion. A folder or
  "Go back" click is a `NavigateInto` or `NavigateUp` followed by
  `Reload`.
- Failed storage reads are not modelled. A `storage.sync.get` rejection
  would end in "Upload Failed" in the handler, and is unhandled on the
  options page.
- `Background.OnClicked`: stored settings are read as the options page
  writes them. A non-string value under a text key reads as "", where
  JavaScript would print it into the URL.
- `Options.OptionsPage.Reload`: the credentials `loadFolders` reads only
  shape the request, which is an input here. The result depends only on
  the current path and the reply.
- `Options.Render`: the `forEach` that appends one element per folder is
  modelled as the list of entries it shows, not as DOM updates.
- Strings are sequences of Unicode scalar values, not UTF-16 units. Every
  character the code splits on, strips or trims is a single unit, so the
  difference only affects lone surrogates, on which `encodeURIComponent`
  would throw.
