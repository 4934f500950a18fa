/** The options page's WebDAV folder listing (`getFolders`): a PROPFIND
    request with `Depth: 1` (RFC 4918 section 9.1) whose multistatus reply is
    scanned for sub-collections of the queried folder. The request itself
    and the XML parsing are inputs: a reply is either a thrown error or an
    HTTP answer with its `ok` flag and its `DAV:response` elements. */
module FolderListing {
  import opened Wrappers
  import opened JsString

  const WEBDAV_ROOT := "/remote.php/webdav"

  /** One `DAV:response` element as the loop reads it: the text of its first
      `DAV:href` child, and whether its first `DAV:resourcetype` child has a
      `DAV:collection` child. `None` stands for a missing element, which
      makes the `[0]` access throw. */
  datatype DavResponse = DavResponse(href: Option<string>, collection: Option<bool>)

  /** The outcome of a PROPFIND request: `fetch` (or reading the body) threw,
      or the server answered. */
  datatype PropfindReply = Threw | Answered(ok: bool, responses: seq<DavResponse>)

  /** `decodeURIComponent`, which is not part of this model: `None` stands
      for the URIError it throws on a malformed escape. */
  type Decoder = string -> Option<string>

  /** What one loop iteration does: throw, push a folder name, or skip. */
  datatype Step = Throw | Skip | Push(name: string)

  /** `testConnection`: a PROPFIND on the WebDAV root succeeds exactly when
      it was answered with an ok status; a thrown error counts as failure. */
  predicate TestConnection(reply: PropfindReply)
  {
    reply.Answered? && reply.ok
  }

  /** The href under which the server reports the queried folder itself. */
  function SelfHref(path: string): string
  {
    WEBDAV_ROOT + path
  }

  /** `href.split('/').filter(Boolean).pop()` as the string that
      `decodeURIComponent` receives: the last non-empty segment, or
      "undefined" (the string form of `undefined`) when there is none. */
  function LastSegment(href: string): (segment: string)
    ensures segment != "" && '/' !in segment
    ensures NonEmpty(Split(href, '/')) == [] ==> segment == "undefined"
  {
    var segments := NonEmpty(Split(href, '/'));
    if segments == [] then "undefined" else segments[|segments| - 1]
  }

  /** The iteration of the `getFolders` loop for one response. Only a
      collection other than the queried folder can contribute a name, and
      the name is the decoded last segment of its href, never empty. */
  function Examine(path: string, response: DavResponse, decode: Decoder): (step: Step)
    ensures step.Push? ==>
              && response.collection == Some(true)
              && response.href.Some? && response.href.value != SelfHref(path)
              && step.name != ""
              && decode(LastSegment(response.href.value)) == Some(step.name)
    ensures response.href.Some? && response.collection == Some(false) ==> step == Skip
    ensures response.href == Some(SelfHref(path)) && response.collection.Some? ==> step == Skip
    ensures response.href.None? || response.collection.None? ==> step == Throw
    ensures response.collection == Some(true) && response.href.Some? && response.href.value != SelfHref(path) ==>
              && (decode(LastSegment(response.href.value)).None? ==> step == Throw)
              && (decode(LastSegment(response.href.value)) == Some("") ==> step == Skip)
              && (forall n :: n != "" && decode(LastSegment(response.href.value)) == Some(n) ==> step == Push(n))
  {
    match response.href
    case None => Throw
    case Some(href) =>
      match response.collection
      case None => Throw
      case Some(isCollection) =>
        if isCollection && href != SelfHref(path) then
          match decode(LastSegment(href))
          case None => Throw
          case Some(name) => if name != "" then Push(name) else Skip
        else Skip
  }

  /** The folder names collected after the loop has run over `responses`,
      or `None` once an iteration has thrown. */
  function Scan(path: string, responses: seq<DavResponse>, decode: Decoder): Option<seq<string>>
    decreases |responses|
  {
    if responses == [] then Some([])
    else
      match Scan(path, responses[..|responses| - 1], decode)
      case None => None
      case Some(folders) =>
        match Examine(path, responses[|responses| - 1], decode)
        case Throw => None
        case Skip => Some(folders)
        case Push(name) => Some(folders + [name])
  }

  /** What `getFolders` returns: the scanned names, or the empty list when
      the request threw, the status was not ok, or an iteration threw. */
  function ListFolders(path: string, reply: PropfindReply, decode: Decoder): seq<string>
  {
    match reply
    case Threw => []
    case Answered(ok, responses) =>
      if !ok then []
      else
        match Scan(path, responses, decode)
        case None => []
        case Some(folders) => folders
  }

  /** `getFolders`, with its `for` loop pushing onto `folders`. */
  method GetFolders(path: string, reply: PropfindReply, decode: Decoder) returns (folders: seq<string>)
    ensures folders == ListFolders(path, reply, decode)
  {
    if reply.Threw? || !reply.ok {
      return [];
    }
    var responses := reply.responses;
    folders := [];
    var i := 0;
    while i < |responses|
      invariant 0 <= i <= |responses|
      invariant Scan(path, responses[..i], decode) == Some(folders)
    {
      assert responses[..i + 1][..i] == responses[..i];
      var response := responses[i];
      if response.href.None? || response.collection.None? {
        ScanThrowSticks(path, responses, i + 1, decode);
        return [];
      }
      var href := response.href.value;
      if response.collection.value && href != SelfHref(path) {
        var decoded := decode(LastSegment(href));
        if decoded.None? {
          ScanThrowSticks(path, responses, i + 1, decode);
          return [];
        }
        var folderName := decoded.value;
        if folderName != "" {
          folders := folders + [folderName];
        }
      }
      i := i + 1;
    }
    assert responses[..i] == responses;
  }

  /** Once an iteration has thrown, the whole scan has. */
  lemma {:induction false} ScanThrowSticks(path: string, responses: seq<DavResponse>, i: nat, decode: Decoder)
    requires i <= |responses|
    requires Scan(path, responses[..i], decode) == None
    ensures Scan(path, responses, decode) == None
    decreases |responses|
  {
    if i < |responses| {
      var front := responses[..|responses| - 1];
      assert front[..i] == responses[..i];
      ScanThrowSticks(path, front, i, decode);
    } else {
      assert responses[..i] == responses;
    }
  }

  /** The loop keeps the order of the responses: scanning a concatenation
      concatenates the scans, and throws when either part throws. */
  lemma {:induction false} ScanAppend(path: string, a: seq<DavResponse>, b: seq<DavResponse>, decode: Decoder)
    ensures Scan(path, a, decode).Some? && Scan(path, b, decode).Some? ==>
              Scan(path, a + b, decode) == Some(Scan(path, a, decode).value + Scan(path, b, decode).value)
    ensures Scan(path, a, decode).None? || Scan(path, b, decode).None? ==> Scan(path, a + b, decode).None?
    decreases |b|
  {
    if b == [] {
      assert a + b == a;
      if Scan(path, a, decode).Some? {
        assert Scan(path, a, decode).value + [] == Scan(path, a, decode).value;
      }
    } else {
      var n := |b| - 1;
      var b' := b[..n];
      assert (a + b)[..|a + b| - 1] == a + b';
      assert (a + b)[|a + b| - 1] == b[n];
      ScanAppend(path, a, b', decode);
      var step := Examine(path, b[n], decode);
      if Scan(path, a, decode).Some? && Scan(path, b', decode).Some? {
        var x, y := Scan(path, a, decode).value, Scan(path, b', decode).value;
        assert Scan(path, a + b', decode) == Some(x + y);
        if step.Push? {
          assert (x + y) + [step.name] == x + (y + [step.name]);
        }
      }
    }
  }

  /** A scan throws exactly when one of its iterations throws. */
  lemma {:induction false} ScanThrowsIff(path: string, responses: seq<DavResponse>, decode: Decoder)
    ensures Scan(path, responses, decode).None? <==>
              exists j :: 0 <= j < |responses| && Examine(path, responses[j], decode).Throw?
    decreases |responses|
  {
    if responses != [] {
      var front := responses[..|responses| - 1];
      ScanThrowsIff(path, front, decode);
      var n := |responses| - 1;
      if Examine(path, responses[n], decode).Throw? {
        assert exists j :: 0 <= j < |responses| && Examine(path, responses[j], decode).Throw?;
      }
      if exists j :: 0 <= j < |front| && Examine(path, front[j], decode).Throw? {
        var j :| 0 <= j < |front| && Examine(path, front[j], decode).Throw?;
        assert responses[j] == front[j];
      }
      if exists j :: 0 <= j < |responses| && Examine(path, responses[j], decode).Throw? {
        var j :| 0 <= j < |responses| && Examine(path, responses[j], decode).Throw?;
        if j < n {
          assert front[j] == responses[j];
        }
      }
    }
  }

  /** Reference definition, front to back: the names the responses push. */
  function Pushed(path: string, responses: seq<DavResponse>, decode: Decoder): seq<string>
  {
    if responses == [] then []
    else PushedBy(path, responses[0], decode) + Pushed(path, responses[1..], decode)
  }

  /** The names one response pushes: its name, or nothing. */
  function PushedBy(path: string, response: DavResponse, decode: Decoder): seq<string>
  {
    match Examine(path, response, decode)
    case Push(name) => [name]
    case _ => []
  }

  lemma ScanOne(path: string, response: DavResponse, decode: Decoder)
    requires !Examine(path, response, decode).Throw?
    ensures Scan(path, [response], decode) == Some(PushedBy(path, response, decode))
  {
    var single := [response];
    assert single[..|single| - 1] == [];
    assert single[|single| - 1] == response;
    assert Scan(path, single[..|single| - 1], decode) == Some([]);
    match Examine(path, response, decode)
    case Push(name) => assert [] + [name] == [name];
    case Skip =>
  }

  /** When no iteration throws, the scan yields exactly the pushed names, in
      response order. */
  lemma {:induction false} ScanIsPushed(path: string, responses: seq<DavResponse>, decode: Decoder)
    requires forall j :: 0 <= j < |responses| ==> !Examine(path, responses[j], decode).Throw?
    ensures Scan(path, responses, decode) == Some(Pushed(path, responses, decode))
    decreases |responses|
  {
    if responses != [] {
      var head, tail := [responses[0]], responses[1..];
      assert responses == head + tail;
      forall j | 0 <= j < |tail| ensures !Examine(path, tail[j], decode).Throw? {
        assert tail[j] == responses[j + 1];
      }
      ScanIsPushed(path, tail, decode);
      ScanOne(path, responses[0], decode);
      ScanAppend(path, head, tail, decode);
      assert Pushed(path, responses, decode) == PushedBy(path, responses[0], decode) + Pushed(path, tail, decode);
    }
  }

  /** What the listing holds: never more names than responses, each one
      non-empty and pushed by some collection response other than the
      queried folder. */
  lemma {:induction false} ScanShape(path: string, responses: seq<DavResponse>, decode: Decoder, folders: seq<string>)
    requires Scan(path, responses, decode) == Some(folders)
    ensures |folders| <= |responses|
    ensures forall k :: 0 <= k < |folders| ==>
              folders[k] != "" &&
              exists j :: 0 <= j < |responses| && Examine(path, responses[j], decode) == Push(folders[k])
    decreases |responses|
  {
    if responses != [] {
      var n := |responses| - 1;
      var front := responses[..n];
      var previous := Scan(path, front, decode).value;
      ScanShape(path, front, decode, previous);
      forall k | 0 <= k < |folders|
        ensures exists j :: 0 <= j < |responses| && Examine(path, responses[j], decode) == Push(folders[k])
      {
        if k < |previous| {
          var j :| 0 <= j < |front| && Examine(path, front[j], decode) == Push(previous[k]);
          assert responses[j] == front[j];
        } else {
          assert Examine(path, responses[n], decode) == Push(folders[k]);
        }
      }
    }
  }

  /** The properties of `getFolders` together: a thrown request, a status
      that is not ok, or any iteration that throws give the empty list;
      otherwise the result is the pushed names in response order, no more
      of them than responses, each one the decoded last segment of a
      collection other than the queried folder. */
  lemma ListFoldersSpec(path: string, reply: PropfindReply, decode: Decoder)
    ensures !TestConnection(reply) ==> ListFolders(path, reply, decode) == []
    ensures reply.Answered? && (exists j :: 0 <= j < |reply.responses| && Examine(path, reply.responses[j], decode).Throw?) ==>
              ListFolders(path, reply, decode) == []
    ensures reply.Answered? && reply.ok && (forall j :: 0 <= j < |reply.responses| ==> !Examine(path, reply.responses[j], decode).Throw?) ==>
              ListFolders(path, reply, decode) == Pushed(path, reply.responses, decode)
    ensures reply.Answered? ==> |ListFolders(path, reply, decode)| <= |reply.responses|
    ensures reply.Answered? ==> forall k :: 0 <= k < |ListFolders(path, reply, decode)| ==>
              exists j :: 0 <= j < |reply.responses| && Examine(path, reply.responses[j], decode) == Push(ListFolders(path, reply, decode)[k])
  {
    if reply.Answered? {
      ScanThrowsIff(path, reply.responses, decode);
      if (forall j :: 0 <= j < |reply.responses| ==> !Examine(path, reply.responses[j], decode).Throw?) {
        ScanIsPushed(path, reply.responses, decode);
      }
      if reply.ok && Scan(path, reply.responses, decode).Some? {
        ScanShape(path, reply.responses, decode, Scan(path, reply.responses, decode).value);
      }
    }
  }

  /** The usual href of a folder, with or without its trailing slash, names
      that folder by its last path segment. */
  lemma LastSegmentOfFolderHref(parent: string, name: string)
    requires name != "" && '/' !in name
    ensures LastSegment(parent + "/" + name) == name
    ensures LastSegment(parent + "/" + name + "/") == name
  {
    SplitLastPiece(parent, name, '/');
    NonEmptyAppend(Split(parent, '/'), [name]);
    assert parent + "/" + name + "/" == (parent + "/" + name) + ['/'] + "";
    SplitLastPiece(parent + "/" + name, "", '/');
    NonEmptyAppend(Split(parent, '/') + [name], [""]);
  }
}
