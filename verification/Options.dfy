/** The options page: the credentials form with its validation gate, and the
    folder browser whose current path the clicks, the page load and the save
    buttons change. */
module Options {
  import opened Wrappers
  import opened JsString
  import opened Settings
  import opened FolderListing

  /** `currentPath.split('/').pop()`: the name of the folder being browsed. */
  function CurrentFolderName(path: string): (name: string)
    ensures '/' !in name
  {
    Last(Split(path, '/'))
  }

  /** The path a click on folder `folder` opens. */
  function Into(path: string, folder: string): (next: string)
    ensures IsAbsolute(path) || path == "" ==> IsAbsolute(next)
    ensures |next| == (if path == "/" then 0 else |path|) + 1 + |folder|
  {
    if path == "/" then "/" + folder else path + "/" + folder
  }

  /** The path a click on "Go back" opens: the last `/`-segment dropped, and
      the empty result read as the root. */
  function Up(path: string): string
  {
    var parent := Join(DropLast(Split(path, '/')), '/');
    if parent == "" then "/" else parent
  }

  /** Going back drops the last segment: the path is what `Up` keeps (or
      nothing, when `Up` gives the root for an empty rest), a slash, and the
      current folder's name; a path without a slash goes back to the root. */
  lemma UpDropsLastSegment(path: string)
    ensures '/' !in path ==> Up(path) == "/"
    ensures '/' in path ==>
              exists parent :: path == parent + "/" + CurrentFolderName(path)
                               && Up(path) == (if parent == "" then "/" else parent)
  {
    SplitAtLast(path, '/');
    if '/' in path {
      var parent := Join(DropLast(Split(path, '/')), '/');
      assert path == parent + "/" + CurrentFolderName(path);
    }
  }

  /** Going back never leaves the tree rooted at "/". */
  lemma UpKeepsAbsolute(path: string)
    requires IsAbsolute(path)
    ensures IsAbsolute(Up(path))
  {
    SplitAtLast(path, '/');
    assert '/' in path by { assert path[0] == '/'; }
    var parent := Join(DropLast(Split(path, '/')), '/');
    if parent != "" {
      assert path == parent + "/" + CurrentFolderName(path);
      assert parent[0] == path[0];
    }
  }

  /** Opening a folder makes it the current folder. */
  lemma IntoNamesFolder(path: string, folder: string)
    requires '/' !in folder
    ensures CurrentFolderName(Into(path, folder)) == folder
  {
    var base := if path == "/" then "" else path;
    assert Into(path, folder) == base + "/" + folder;
    SplitLastPiece(base, folder, '/');
  }

  /** Round trip: opening a folder whose name holds no slash and then going
      back returns to the path the browser started from. */
  lemma UpAfterInto(path: string, folder: string)
    requires path != "" && '/' !in folder
    ensures Up(Into(path, folder)) == path
  {
    var base := if path == "/" then "" else path;
    assert Into(path, folder) == base + "/" + folder;
    SplitLastPiece(base, folder, '/');
  }

  /** The examples of the folder browser: "/A/B" goes back to "/A", "/A" to
      the root, and the root stays where it is. */
  lemma UpExamples()
    ensures Up("/A/B") == "/A"
    ensures Up("/A") == "/"
    ensures Up("/") == "/"
  {
    UpAfterInto("/A", "B");
    assert Into("/A", "B") == "/A/B";
    UpAfterInto("/", "A");
    assert Into("/", "A") == "/A";
    SplitLastPiece("", "", '/');
    assert "" + ['/'] + "" == "/";
  }

  /** The folders listed, minus the ones named `name`, in their order. */
  function Without(folders: seq<string>, name: string): (kept: seq<string>)
    ensures |kept| <= |folders|
    ensures forall f :: f in kept <==> f in folders && f != name
  {
    if folders == [] then []
    else (if folders[0] == name then [] else [folders[0]]) + Without(folders[1..], name)
  }

  /** Filtering distributes over concatenation, so the display keeps the
      order of the listing. */
  lemma {:induction false} WithoutAppend(a: seq<string>, b: seq<string>, name: string)
    ensures Without(a + b, name) == Without(a, name) + Without(b, name)
    decreases |a|
  {
    if a == [] {
      assert a + b == b;
    } else {
      assert (a + b)[1..] == a[1..] + b;
      WithoutAppend(a[1..], b, name);
      var head := if a[0] == name then [] else [a[0]];
      assert (a + b)[0] == a[0];
      assert head + (Without(a[1..], name) + Without(b, name))
          == (head + Without(a[1..], name)) + Without(b, name);
    }
  }

  /** What the folder browser shows. */
  datatype Listing = Listing(header: string, goBack: bool, entries: seq<string>, placeholder: bool)

  /** `updateFolderBrowser`: a header with the current path, a "Go back"
      entry except at the root, the listed folders except the one named like
      the current folder, and the "No subfolders found" placeholder when the
      listing itself is empty. */
  function Render(path: string, folders: seq<string>): (view: Listing)
    ensures view.header == "Current path: " + path
    ensures view.goBack <==> path != "/"
    ensures view.placeholder <==> folders == []
    ensures view.placeholder ==> view.entries == []
    ensures |view.entries| <= |folders|
    ensures forall f :: f in view.entries <==> f in folders && f != CurrentFolderName(path)
    ensures view.entries == Without(folders, CurrentFolderName(path))
  {
    Listing("Current path: " + path, path != "/",
            if folders == [] then [] else Without(folders, CurrentFolderName(path)),
            folders == [])
  }

  /** Why the display filter is there: a server that reports the folder
      being browsed under its href with a trailing slash gets past the
      `href` comparison of `getFolders`, so the folder is listed as its own
      child, and the display filter is what hides it. */
  lemma SelfEntryHidden(path: string, folder: string, decode: Decoder, folders: seq<string>)
    requires folder != "" && '/' !in folder
    requires decode(folder) == Some(folder)
    ensures Examine(Into(path, folder), DavResponse(Some(SelfHref(Into(path, folder)) + "/"), Some(true)), decode)
            == Push(folder)
    ensures folder !in Render(Into(path, folder), folders).entries
  {
    var child := Into(path, folder);
    var base := if path == "/" then "" else path;
    assert child == base + "/" + folder;
    assert SelfHref(child) + "/" == (WEBDAV_ROOT + base) + "/" + folder + "/";
    LastSegmentOfFolderHref(WEBDAV_ROOT + base, folder);
    assert |SelfHref(child) + "/"| != |SelfHref(child)|;
    IntoNamesFolder(path, folder);
  }

  /** Outcomes of the save button. */
  datatype SaveStatus = InvalidUrl | MissingCredentials | ConnectionFailed | Saved

  /** The save button's gate: a valid URL first, then a user name and a
      password, then a successful connection test; only then are the
      credentials saved. */
  function SaveGate(username: string, password: string, urlValid: bool, connection: PropfindReply): (status: SaveStatus)
    ensures status == Saved <==> urlValid && username != "" && password != "" && TestConnection(connection)
    ensures status == InvalidUrl <==> !urlValid
    ensures status == MissingCredentials <==> urlValid && (username == "" || password == "")
  {
    if !urlValid then InvalidUrl
    else if username == "" || password == "" then MissingCredentials
    else if TestConnection(connection) then Saved
    else ConnectionFailed
  }

  /** The options page's state: the module-level `currentPath` and the synced
      storage it reads and writes. */
  class OptionsPage {
    var currentPath: string
    var settings: Store

    ghost predicate Valid()
      reads this
    {
      WellFormed(settings) && IsAbsolute(currentPath)
    }

    /** The script starts browsing at the root. */
    constructor (stored: Store)
      requires WellFormed(stored)
      ensures Valid()
      ensures currentPath == "/" && settings == stored
    {
      currentPath := "/";
      settings := stored;
    }

    /** The page load: browsing resumes at the saved upload folder when one
        is stored, and the folder browser opens when the credentials are
        present. */
    method Load() returns (browse: bool)
      requires Valid()
      modifies this`currentPath
      ensures Valid()
      ensures Truthy(settings, UPLOAD_FOLDER) ==> currentPath == TextOf(settings, UPLOAD_FOLDER)
      ensures !Truthy(settings, UPLOAD_FOLDER) ==> currentPath == old(currentPath)
      ensures browse <==> Configured(settings)
    {
      if Truthy(settings, UPLOAD_FOLDER) {
        currentPath := TextOf(settings, UPLOAD_FOLDER);
      }
      browse := Configured(settings);
    }

    /** A click on a listed folder. */
    method NavigateInto(folder: string)
      requires Valid()
      modifies this`currentPath
      ensures Valid()
      ensures currentPath == Into(old(currentPath), folder)
    {
      currentPath := Into(currentPath, folder);
    }

    /** A click on "Go back". */
    method NavigateUp()
      requires Valid()
      modifies this`currentPath
      ensures Valid()
      ensures currentPath == Up(old(currentPath))
    {
      UpKeepsAbsolute(currentPath);
      currentPath := Up(currentPath);
    }

    /** The save button: the URL and the user name are trimmed; the gate
        decides; on success the credentials and the clipboard flag are
        stored (the upload folder is left as it was) and browsing restarts
        at the root. Otherwise nothing changes. */
    method Save(serverUrlField: string, usernameField: string, password: string, copyUrl: bool,
                isValidUrl: string -> bool, connection: PropfindReply) returns (status: SaveStatus)
      requires Valid()
      modifies this
      ensures Valid()
      ensures status == SaveGate(Trim(usernameField), password, isValidUrl(Trim(serverUrlField)), connection)
      ensures status == Saved ==>
                && settings == SaveCredentials(old(settings), Trim(serverUrlField), Trim(usernameField), password, copyUrl)
                && currentPath == "/"
      ensures status != Saved ==> settings == old(settings) && currentPath == old(currentPath)
    {
      var serverUrl := Trim(serverUrlField);
      var username := Trim(usernameField);
      status := SaveGate(username, password, isValidUrl(serverUrl), connection);
      if status == Saved {
        SaveCredentialsKeepsWellFormed(settings, serverUrl, username, password, copyUrl);
        settings := SaveCredentials(settings, serverUrl, username, password, copyUrl);
        currentPath := "/";
      }
    }

    /** The "save folder" button stores the current path as the upload
        folder and changes nothing else. */
    method SaveFolder()
      requires Valid()
      modifies this`settings
      ensures Valid()
      ensures settings == old(settings)[UPLOAD_FOLDER := Text(currentPath)]
    {
      settings := settings[UPLOAD_FOLDER := Text(currentPath)];
    }

    /** `loadFolders`: list the current folder and show it. */
    method Reload(reply: PropfindReply, decode: Decoder) returns (view: Listing)
      ensures view == Render(currentPath, ListFolders(currentPath, reply, decode))
    {
      var folders := GetFolders(currentPath, reply, decode);
      view := Render(currentPath, folders);
    }
  }
}
