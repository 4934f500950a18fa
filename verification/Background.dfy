/** The context-menu handler of the two background scripts (one per
    browser host): read the settings, fetch the media, name it, PUT it into
    the WebDAV folder, build the viewer link, copy it if asked, and notify.
    The two `onClicked` listeners differ only in how they join the upload
    folder and the file name. The network, the clipboard, the clock and the random number
    generator are inputs; the handler is one function from them to what it
    does. */
module Background {
  import opened Wrappers
  import opened JsString
  import opened Settings
  import opened Naming
  import opened UriEncoding
  import FolderListing

  const MENU_ITEM_ID := "uploadToOwncloud"
  const VIEWER_PATH := "/index.php/apps/files/?dir=/"

  datatype Host = Firefox | Chrome

  datatype Notification = Notification(title: string, message: string)

  const CONFIGURATION_REQUIRED := Notification("Configuration Required",
    "Please configure your Owncloud settings in the extension options.")
  const UPLOAD_FAILED := Notification("Upload Failed",
    "An error occurred while uploading the file to Owncloud. Please check your settings and try again.")
  const SUCCESS_TITLE := "Upload Successful"
  const SUCCESS_MESSAGE := "The file was uploaded successfully to Owncloud."
  const CLIPBOARD_NOTE := " The URL has been copied to your clipboard."

  /** A context-menu click: the entry's id and the media element's source
      URL ("" when it has none). */
  datatype Click = Click(menuItemId: string, srcUrl: string)

  /** What the asynchronous calls did: fetching the media and reading its
      blob completed, the PUT's status was ok, the clipboard write
      completed. */
  datatype Replies = Replies(mediaFetched: bool, putOk: bool, clipboardWritten: bool)

  /** `Date.now()` and `Math.random().toString(36)`. */
  datatype Entropy = Entropy(now: nat, randomText: string)

  /** What the handler did: the notification it showed, whether it opened
      the options page, whether it fetched the media, the URL it PUT to and
      the text it wrote to the clipboard. */
  datatype Outcome = Outcome(
    notification: Option<Notification>,
    optionsOpened: bool,
    mediaRequested: bool,
    putUrl: Option<string>,
    clipboardText: Option<string>)

  const IDLE := Outcome(None, false, false, None, None)

  /** The handler acts on its own menu entry, for an element with a source. */
  predicate Triggered(click: Click)
  {
    click.menuItemId == MENU_ITEM_ID && click.srcUrl != ""
  }

  predicate Succeeded(outcome: Outcome)
  {
    outcome.notification.Some? && outcome.notification.value.title == SUCCESS_TITLE
  }

  /** The name the file is uploaded under. */
  function UploadName(mediaUrl: string, entropy: Entropy): string
  {
    UniqueFilename(Sanitize(OriginalFilename(mediaUrl)), entropy.now, entropy.randomText)
  }

  /** Firefox: `uploadFolder || '/'`. */
  function FirefoxFolderPath(store: Store): string
  {
    if Truthy(store, UPLOAD_FOLDER) then TextOf(store, UPLOAD_FOLDER) else "/"
  }

  /** Chrome: `uploadFolder ? uploadFolder + '/' : ''`. */
  function ChromeFolderPath(store: Store): string
  {
    if Truthy(store, UPLOAD_FOLDER) then TextOf(store, UPLOAD_FOLDER) + "/" else ""
  }

  /** Firefox joins the WebDAV root, the folder path, a slash and the name. */
  function FirefoxUploadUrl(serverUrl: string, folderPath: string, filename: string): string
  {
    serverUrl + FolderListing.WEBDAV_ROOT + folderPath + "/" + filename
  }

  /** Chrome joins the WebDAV root, a slash, the folder path and the name. */
  function ChromeUploadUrl(serverUrl: string, folderPath: string, filename: string): string
  {
    serverUrl + FolderListing.WEBDAV_ROOT + "/" + folderPath + filename
  }

  function FolderPath(host: Host, store: Store): string
  {
    match host
    case Firefox => FirefoxFolderPath(store)
    case Chrome => ChromeFolderPath(store)
  }

  function UploadUrl(host: Host, serverUrl: string, folderPath: string, filename: string): string
  {
    match host
    case Firefox => FirefoxUploadUrl(serverUrl, folderPath, filename)
    case Chrome => ChromeUploadUrl(serverUrl, folderPath, filename)
  }

  /** The link to the uploaded file in the server's file viewer (the same
      expression in both scripts). */
  function ViewerUrl(serverUrl: string, folderPath: string, filename: string): string
  {
    serverUrl + VIEWER_PATH + EncodeUriComponent(folderPath) + "&openfile=" + EncodeUriComponent(filename)
  }

  /** The `contextMenus.onClicked` listener of either host. Missing
      credentials stop it before any request; a media fetch that throws
      stops it before the PUT; every failure after the settings are read
      ends in the same "Upload Failed" notification, including a clipboard
      write that fails after a successful upload. */
  function OnClicked(host: Host, click: Click, store: Store, replies: Replies, entropy: Entropy): (outcome: Outcome)
    ensures !Triggered(click) ==> outcome == IDLE
    ensures outcome.notification == Some(CONFIGURATION_REQUIRED) <==> Triggered(click) && !Configured(store)
    ensures outcome.optionsOpened <==> Triggered(click) && !Configured(store)
    ensures outcome.mediaRequested <==> Triggered(click) && Configured(store)
    ensures outcome.putUrl.Some? <==> Triggered(click) && Configured(store) && replies.mediaFetched
    ensures outcome.putUrl.Some? ==>
              outcome.putUrl.value
              == UploadUrl(host, TextOf(store, SERVER_URL), FolderPath(host, store), UploadName(click.srcUrl, entropy))
    ensures Succeeded(outcome) <==>
              outcome.putUrl.Some? && replies.putOk && (Truthy(store, COPY_URL) ==> replies.clipboardWritten)
    ensures Succeeded(outcome) ==>
              outcome.notification.value.message
              == SUCCESS_MESSAGE + (if Truthy(store, COPY_URL) then CLIPBOARD_NOTE else "")
    ensures outcome.notification == Some(UPLOAD_FAILED) <==> Triggered(click) && Configured(store) && !Succeeded(outcome)
    ensures outcome.clipboardText.Some? <==> outcome.putUrl.Some? && replies.putOk && Truthy(store, COPY_URL)
    ensures outcome.clipboardText.Some? ==>
              outcome.clipboardText.value
              == ViewerUrl(TextOf(store, SERVER_URL), FolderPath(host, store), UploadName(click.srcUrl, entropy))
  {
    if !Triggered(click) then IDLE
    else if !Configured(store) then Outcome(Some(CONFIGURATION_REQUIRED), true, false, None, None)
    else if !replies.mediaFetched then Outcome(Some(UPLOAD_FAILED), false, true, None, None)
    else
      var serverUrl := TextOf(store, SERVER_URL);
      var filename := UploadName(click.srcUrl, entropy);
      var folderPath := FolderPath(host, store);
      var put := Some(UploadUrl(host, serverUrl, folderPath, filename));
      if !replies.putOk then Outcome(Some(UPLOAD_FAILED), false, true, put, None)
      else if !Truthy(store, COPY_URL) then
        Outcome(Some(Notification(SUCCESS_TITLE, SUCCESS_MESSAGE)), false, true, put, None)
      else
        var copied := Some(ViewerUrl(serverUrl, folderPath, filename));
        if replies.clipboardWritten then
          Outcome(Some(Notification(SUCCESS_TITLE, SUCCESS_MESSAGE + CLIPBOARD_NOTE)), false, true, put, copied)
        else Outcome(Some(UPLOAD_FAILED), false, true, put, copied)
  }

  /** Whatever the folder, both hosts PUT to a URL that ends in a slash and
      the unique file name. */
  lemma UploadUrlEndsWithName(host: Host, store: Store, serverUrl: string, filename: string)
    ensures var url := UploadUrl(host, serverUrl, FolderPath(host, store), filename);
            |url| > |filename| && url[|url| - |filename| - 1..] == "/" + filename
  {
    var url := UploadUrl(host, serverUrl, FolderPath(host, store), filename);
    var folderPath := FolderPath(host, store);
    if host == Chrome && Truthy(store, UPLOAD_FOLDER) {
      assert url == (serverUrl + FolderListing.WEBDAV_ROOT + "/" + TextOf(store, UPLOAD_FOLDER)) + "/" + filename;
    } else if host == Chrome {
      assert url == (serverUrl + FolderListing.WEBDAV_ROOT) + "/" + filename;
    } else {
      assert url == (serverUrl + FolderListing.WEBDAV_ROOT + folderPath) + "/" + filename;
    }
  }

  /** The hosts never PUT to the same URL: with an upload folder, Chrome puts
      one slash more after the WebDAV root than Firefox; without one,
      Firefox puts one slash more. */
  lemma HostsDiverge(store: Store, serverUrl: string, filename: string)
    ensures var root := serverUrl + FolderListing.WEBDAV_ROOT;
            var firefox := FirefoxUploadUrl(serverUrl, FirefoxFolderPath(store), filename);
            var chrome := ChromeUploadUrl(serverUrl, ChromeFolderPath(store), filename);
            && |root| <= |firefox| && |root| <= |chrome|
            && (Truthy(store, UPLOAD_FOLDER) ==> chrome == root + "/" + firefox[|root|..])
            && (!Truthy(store, UPLOAD_FOLDER) ==> firefox == root + "/" + chrome[|root|..])
            && firefox != chrome
  {
    var root := serverUrl + FolderListing.WEBDAV_ROOT;
    var firefox := FirefoxUploadUrl(serverUrl, FirefoxFolderPath(store), filename);
    var chrome := ChromeUploadUrl(serverUrl, ChromeFolderPath(store), filename);
    if Truthy(store, UPLOAD_FOLDER) {
      var folder := TextOf(store, UPLOAD_FOLDER);
      assert firefox == root + (folder + "/" + filename);
      assert chrome == root + ("/" + (folder + "/" + filename));
      assert firefox[|root|..] == folder + "/" + filename;
      assert |chrome| == |firefox| + 1;
    } else {
      assert firefox == root + ("/" + ("/" + filename));
      assert chrome == root + ("/" + filename);
      assert chrome[|root|..] == "/" + filename;
      assert |firefox| == |chrome| + 1;
    }
  }

  /** The divergence on a saved folder "/Photos": Firefox PUTs to
      ".../webdav/Photos/{name}", Chrome to ".../webdav//Photos/{name}". */
  lemma PhotosFolderUrls(store: Store, serverUrl: string, filename: string)
    requires UPLOAD_FOLDER in store && store[UPLOAD_FOLDER] == Text("/Photos")
    ensures FirefoxUploadUrl(serverUrl, FirefoxFolderPath(store), filename)
            == serverUrl + "/remote.php/webdav/Photos/" + filename
    ensures ChromeUploadUrl(serverUrl, ChromeFolderPath(store), filename)
            == serverUrl + "/remote.php/webdav//Photos/" + filename
  {
  }

  /** The folder browser only ever saves absolute folders, so Chrome always
      doubles the slash after the WebDAV root when a folder is saved, and
      Firefox does when the saved folder is the root or none is saved. */
  lemma DoubledSlashes(store: Store, serverUrl: string, filename: string)
    requires WellFormed(store)
    ensures var root := serverUrl + FolderListing.WEBDAV_ROOT;
            Truthy(store, UPLOAD_FOLDER) ==>
              ChromeUploadUrl(serverUrl, ChromeFolderPath(store), filename)[..|root| + 2] == root + "//"
    ensures !Truthy(store, UPLOAD_FOLDER) || TextOf(store, UPLOAD_FOLDER) == "/" ==>
              FirefoxUploadUrl(serverUrl, FirefoxFolderPath(store), filename)
              == serverUrl + FolderListing.WEBDAV_ROOT + "//" + filename
  {
    var root := serverUrl + FolderListing.WEBDAV_ROOT;
    if Truthy(store, UPLOAD_FOLDER) {
      var folder := TextOf(store, UPLOAD_FOLDER);
      assert IsAbsolute(folder);
      var url := ChromeUploadUrl(serverUrl, ChromeFolderPath(store), filename);
      assert url == root + "/" + folder + "/" + filename;
      assert url[|root|] == '/' && url[|root| + 1] == folder[0];
    }
  }

  /** The file name of a URL `{prefix}/{file}?{query}` is `file`: the text
      after the last slash, cut at the first question mark. */
  lemma OriginalFilenameOfMediaUrl(prefix: string, file: string, query: string)
    requires '/' !in file && '/' !in query && '?' !in file
    ensures OriginalFilename(prefix + "/" + file + "?" + query) == file
  {
    var last := file + "?" + query;
    assert prefix + "/" + file + "?" + query == prefix + ['/'] + last;
    SplitLastPiece(prefix, last, '/');
    assert last == file + ['?'] + query;
    SplitAppend(file, query, '?');
  }

  /** A visible `{stem}.{ext}` file name is uploaded as
      `{stem}_{timestamp}_{random}.{ext}`. */
  lemma UploadNameOfFile(file: string, stem: string, ext: string, now: nat, randomText: string)
    requires file == stem + "." + ext && '.' !in ext
    requires forall i :: 0 <= i < |file| ==> !IsInvisible(file[i])
    ensures UniqueFilename(Sanitize(file), now, randomText)
            == stem + "_" + Decimal(now) + "_" + RandomSuffix(randomText) + "." + ext
  {
    SanitizeKeepsVisible(file);
    assert file == stem + ['.'] + ext;
    SplitLastPiece(stem, ext, '.');
  }

  /** The media file name of a URL `{prefix}/{stem}.{ext}?{query}` becomes
      `{stem}_{timestamp}_{random}.{ext}`. */
  lemma UploadNameOfMediaUrl(prefix: string, stem: string, ext: string, query: string, entropy: Entropy)
    requires '/' !in stem && '/' !in ext && '/' !in query
    requires '?' !in stem && '?' !in ext && '.' !in ext
    requires forall i :: 0 <= i < |stem + "." + ext| ==> !IsInvisible((stem + "." + ext)[i])
    ensures UploadName(prefix + "/" + stem + "." + ext + "?" + query, entropy)
            == stem + "_" + Decimal(entropy.now) + "_" + RandomSuffix(entropy.randomText) + "." + ext
  {
    var file := stem + "." + ext;
    assert prefix + "/" + stem + "." + ext + "?" + query == prefix + "/" + file + "?" + query;
    OriginalFilenameOfMediaUrl(prefix, file, query);
    UploadNameOfFile(file, stem, ext, entropy.now, entropy.randomText);
  }

  /** A unique name built from unreserved parts needs no percent-encoding
      in the viewer link: digits, underscores, the dot and base-36 digits
      are all unreserved. */
  lemma UniqueNameUnreserved(stem: string, ext: string, now: nat, randomText: string)
    requires forall i :: 0 <= i < |stem| ==> IsUnreserved(stem[i])
    requires forall i :: 0 <= i < |ext| ==> IsUnreserved(ext[i])
    requires IsRandomBase36(randomText)
    ensures var name := stem + "_" + Decimal(now) + "_" + RandomSuffix(randomText) + "." + ext;
            EncodeUriComponent(name) == name
  {
    var d := Decimal(now);
    var r := RandomSuffix(randomText);
    var name := stem + "_" + d + "_" + r + "." + ext;
    var a := stem + "_";
    var b := a + d + "_";
    var c := b + r + ".";
    assert forall i :: 0 <= i < |a| ==> IsUnreserved(a[i]);
    assert forall i :: 0 <= i < |b| ==> IsUnreserved(b[i]) by {
      assert forall i :: |a| <= i < |a| + |d| ==> b[i] == d[i - |a|];
    }
    assert forall i :: 0 <= i < |c| ==> IsUnreserved(c[i]) by {
      assert forall i :: |b| <= i < |b| + |r| ==> c[i] == r[i - |b|];
    }
    assert name == c + ext;
    assert forall i :: 0 <= i < |name| ==> IsUnreserved(name[i]) by {
      assert forall i :: |c| <= i < |name| ==> name[i] == ext[i - |c|];
    }
    EncodeKeepsUnreserved(name);
  }

  /** A media URL `{prefix}/{stem}.{ext}?{query}` whose stem and extension
      are unreserved is uploaded as `{stem}_{timestamp}_{random}.{ext}`, a
      name the viewer link carries unencoded. */
  lemma MediaUploadName(prefix: string, stem: string, ext: string, query: string, entropy: Entropy)
    requires forall i :: 0 <= i < |stem| ==> IsUnreserved(stem[i])
    requires forall i :: 0 <= i < |ext| ==> IsUnreserved(ext[i])
    requires '.' !in ext && '/' !in query && IsRandomBase36(entropy.randomText)
    ensures var name := stem + "_" + Decimal(entropy.now) + "_" + RandomSuffix(entropy.randomText) + "." + ext;
            UploadName(prefix + "/" + stem + "." + ext + "?" + query, entropy) == name
            && EncodeUriComponent(name) == name
  {
    var file := stem + "." + ext;
    assert forall i :: 0 <= i < |file| ==> IsUnreserved(file[i]) by {
      assert forall i :: |stem| < i < |file| ==> file[i] == ext[i - |stem| - 1];
    }
    UploadNameOfMediaUrl(prefix, stem, ext, query, entropy);
    UniqueNameUnreserved(stem, ext, entropy.now, entropy.randomText);
  }

  /** A successful upload with copying on, from either host, into a saved
      folder "/{folder}": Firefox PUTs to "{server}/remote.php/webdav/{folder}/{name}",
      Chrome to "{server}/remote.php/webdav//{folder}/{name}", and the copied
      links open "dir=/%2F{folder}" and "dir=/%2F{folder}%2F" (the folder
      path is percent-encoded whole, slashes included). With the server
      "https://cloud.example.com", the folder "Photos" and the media
      "https://img.example/a.png?x=1", Firefox uploads
      ".../webdav/Photos/a_{timestamp}_{random}.png". */
  lemma UploadIntoFolder(host: Host, store: Store, prefix: string, stem: string, ext: string, query: string,
                         folder: string, entropy: Entropy)
    requires Configured(store) && Truthy(store, COPY_URL)
    requires UPLOAD_FOLDER in store && store[UPLOAD_FOLDER] == Text("/" + folder)
    requires forall i :: 0 <= i < |folder| ==> IsUnreserved(folder[i])
    requires forall i :: 0 <= i < |stem| ==> IsUnreserved(stem[i])
    requires forall i :: 0 <= i < |ext| ==> IsUnreserved(ext[i])
    requires '.' !in ext && '/' !in query && IsRandomBase36(entropy.randomText)
    ensures var name := stem + "_" + Decimal(entropy.now) + "_" + RandomSuffix(entropy.randomText) + "." + ext;
            var server := TextOf(store, SERVER_URL);
            var outcome := OnClicked(host, Click(MENU_ITEM_ID, prefix + "/" + stem + "." + ext + "?" + query),
                                     store, Replies(true, true, true), entropy);
            && outcome.notification == Some(Notification(SUCCESS_TITLE, SUCCESS_MESSAGE + CLIPBOARD_NOTE))
            && outcome.putUrl == Some(if host == Firefox then server + "/remote.php/webdav/" + folder + "/" + name
                                      else server + "/remote.php/webdav//" + folder + "/" + name)
            && outcome.clipboardText == Some(if host == Firefox
                                             then server + "/index.php/apps/files/?dir=/%2F" + folder + "&openfile=" + name
                                             else server + "/index.php/apps/files/?dir=/%2F" + folder + "%2F&openfile=" + name)
  {
    var srcUrl := prefix + "/" + stem + "." + ext + "?" + query;
    var name := stem + "_" + Decimal(entropy.now) + "_" + RandomSuffix(entropy.randomText) + "." + ext;
    var server := TextOf(store, SERVER_URL);
    MediaUploadName(prefix, stem, ext, query, entropy);
    assert Triggered(Click(MENU_ITEM_ID, srcUrl));
    FolderUrls(host, store, server, folder, name);
  }

  /** The PUT URL and the viewer link of a file `name` in a saved folder
      "/{folder}", when neither needs percent-encoding. */
  lemma FolderUrls(host: Host, store: Store, server: string, folder: string, name: string)
    requires UPLOAD_FOLDER in store && store[UPLOAD_FOLDER] == Text("/" + folder)
    requires forall i :: 0 <= i < |folder| ==> IsUnreserved(folder[i])
    requires EncodeUriComponent(name) == name
    ensures UploadUrl(host, server, FolderPath(host, store), name)
            == if host == Firefox then server + "/remote.php/webdav/" + folder + "/" + name
               else server + "/remote.php/webdav//" + folder + "/" + name
    ensures ViewerUrl(server, FolderPath(host, store), name)
            == if host == Firefox then server + "/index.php/apps/files/?dir=/%2F" + folder + "&openfile=" + name
               else server + "/index.php/apps/files/?dir=/%2F" + folder + "%2F&openfile=" + name
  {
    if host == Firefox {
      assert FolderPath(host, store) == "/" + folder;
      FirefoxFolderUrls(server, folder, name);
    } else {
      assert FolderPath(host, store) == "/" + folder + "/";
      ChromeFolderUrls(server, folder, name);
    }
  }

  lemma FirefoxFolderUrls(server: string, folder: string, name: string)
    requires forall i :: 0 <= i < |folder| ==> IsUnreserved(folder[i])
    requires EncodeUriComponent(name) == name
    ensures FirefoxUploadUrl(server, "/" + folder, name) == server + "/remote.php/webdav/" + folder + "/" + name
    ensures ViewerUrl(server, "/" + folder, name)
            == server + "/index.php/apps/files/?dir=/%2F" + folder + "&openfile=" + name
  {
    FirefoxPutUrl(server, folder, name);
    FirefoxViewerUrl(server, folder, name);
  }

  lemma FirefoxPutUrl(server: string, folder: string, name: string)
    ensures FirefoxUploadUrl(server, "/" + folder, name) == server + "/remote.php/webdav/" + folder + "/" + name
  {
    RootLiterals();
    assert FirefoxUploadUrl(server, "/" + folder, name)
           == server + (FolderListing.WEBDAV_ROOT + "/") + folder + "/" + name;
  }

  lemma FirefoxViewerUrl(server: string, folder: string, name: string)
    requires forall i :: 0 <= i < |folder| ==> IsUnreserved(folder[i])
    requires EncodeUriComponent(name) == name
    ensures ViewerUrl(server, "/" + folder, name)
            == server + "/index.php/apps/files/?dir=/%2F" + folder + "&openfile=" + name
  {
    calc {
      ViewerUrl(server, "/" + folder, name);
    == { EncodeSlashedFolder(folder); }
      server + VIEWER_PATH + ("%2F" + folder) + "&openfile=" + name;
    == { RegroupPrefix(server, VIEWER_PATH, "%2F", folder, "&openfile=", name); }
      server + (VIEWER_PATH + "%2F") + folder + "&openfile=" + name;
    == { RootLiterals(); }
      server + "/index.php/apps/files/?dir=/%2F" + folder + "&openfile=" + name;
    }
  }

  lemma ChromeFolderUrls(server: string, folder: string, name: string)
    requires forall i :: 0 <= i < |folder| ==> IsUnreserved(folder[i])
    requires EncodeUriComponent(name) == name
    ensures ChromeUploadUrl(server, "/" + folder + "/", name) == server + "/remote.php/webdav//" + folder + "/" + name
    ensures ViewerUrl(server, "/" + folder + "/", name)
            == server + "/index.php/apps/files/?dir=/%2F" + folder + "%2F&openfile=" + name
  {
    ChromePutUrl(server, folder, name);
    ChromeViewerUrl(server, folder, name);
  }

  lemma ChromePutUrl(server: string, folder: string, name: string)
    ensures ChromeUploadUrl(server, "/" + folder + "/", name) == server + "/remote.php/webdav//" + folder + "/" + name
  {
    RootLiterals();
    assert ChromeUploadUrl(server, "/" + folder + "/", name)
           == server + (FolderListing.WEBDAV_ROOT + "//") + folder + "/" + name;
  }

  lemma ChromeViewerUrl(server: string, folder: string, name: string)
    requires forall i :: 0 <= i < |folder| ==> IsUnreserved(folder[i])
    requires EncodeUriComponent(name) == name
    ensures ViewerUrl(server, "/" + folder + "/", name)
            == server + "/index.php/apps/files/?dir=/%2F" + folder + "%2F&openfile=" + name
  {
    calc {
      ViewerUrl(server, "/" + folder + "/", name);
    == { EncodeSlashedFolder(folder); }
      server + VIEWER_PATH + ("%2F" + folder + "%2F") + "&openfile=" + name;
    == { Regroup(server, VIEWER_PATH, "%2F", folder, "%2F", "&openfile=", name); }
      server + (VIEWER_PATH + "%2F") + folder + ("%2F" + "&openfile=") + name;
    == { RootLiterals(); }
      server + "/index.php/apps/files/?dir=/%2F" + folder + "%2F&openfile=" + name;
    }
  }

  lemma Regroup<T>(s: seq<T>, p: seq<T>, q: seq<T>, f: seq<T>, r: seq<T>, o: seq<T>, n: seq<T>)
    ensures s + p + (q + f + r) + o + n == s + (p + q) + f + (r + o) + n
  {
  }

  lemma RegroupPrefix<T>(s: seq<T>, p: seq<T>, q: seq<T>, f: seq<T>, o: seq<T>, n: seq<T>)
    ensures s + p + (q + f) + o + n == s + (p + q) + f + o + n
  {
  }

  lemma RootLiterals()
    ensures FolderListing.WEBDAV_ROOT + "/" == "/remote.php/webdav/"
    ensures FolderListing.WEBDAV_ROOT + "//" == "/remote.php/webdav//"
    ensures VIEWER_PATH + "%2F" == "/index.php/apps/files/?dir=/%2F"
    ensures "%2F" + "&openfile=" == "%2F&openfile="
  {
  }
}
