/** The extension's synced key-value storage: the keys both the options page
    and the background scripts read, and JavaScript truthiness of what they
    hold. A key that was never written is absent from the map. */
module Settings {

  datatype Setting = Text(text: string) | Flag(on: bool)

  type Store = map<string, Setting>

  const SERVER_URL := "serverURL"
  const USERNAME := "username"
  const PASSWORD := "password"
  const UPLOAD_FOLDER := "uploadFolder"
  const COPY_URL := "copyUrlToClipboard"

  /** A folder path as the folder browser builds it: it starts at the root. */
  predicate IsAbsolute(path: string)
  {
    |path| > 0 && path[0] == '/'
  }

  /** JavaScript truthiness of `items[key]`: absent (`undefined`), the empty
      string and `false` are falsy. */
  predicate Truthy(store: Store, key: string)
  {
    key in store &&
    match store[key]
    case Text(s) => s != ""
    case Flag(b) => b
  }

  /** The text stored under `key`; read only after `Truthy(store, key)`. */
  function TextOf(store: Store, key: string): string
  {
    if key in store && store[key].Text? then store[key].text else ""
  }

  /** The gate of both the upload handler and the folder browser: server URL,
      user name and password are all truthy. */
  predicate Configured(store: Store)
  {
    Truthy(store, SERVER_URL) && Truthy(store, USERNAME) && Truthy(store, PASSWORD)
  }

  predicate HoldsText(store: Store, key: string)
  {
    key in store ==> store[key].Text?
  }

  /** What the options page ever writes: text under the four text keys, a
      boolean under the clipboard key, and an absolute upload folder. */
  predicate WellFormed(store: Store)
  {
    && HoldsText(store, SERVER_URL)
    && HoldsText(store, USERNAME)
    && HoldsText(store, PASSWORD)
    && HoldsText(store, UPLOAD_FOLDER)
    && (COPY_URL in store ==> store[COPY_URL].Flag?)
    && (UPLOAD_FOLDER in store ==> IsAbsolute(store[UPLOAD_FOLDER].text))
  }

  /** The store after the options page saves the server URL, the user name,
      the password and the clipboard flag. */
  function SaveCredentials(store: Store, serverUrl: string, username: string, password: string, copyUrl: bool): Store
  {
    store[SERVER_URL := Text(serverUrl)][USERNAME := Text(username)]
         [PASSWORD := Text(password)][COPY_URL := Flag(copyUrl)]
  }

  /** Saving the credentials and the clipboard flag keeps the store well
      formed: the upload folder, the one key they leave alone, keeps its
      absolute path. */
  lemma SaveCredentialsKeepsWellFormed(store: Store, serverUrl: string, username: string, password: string, copyUrl: bool)
    requires WellFormed(store)
    ensures var saved := SaveCredentials(store, serverUrl, username, password, copyUrl);
            && WellFormed(saved)
            && (UPLOAD_FOLDER in saved <==> UPLOAD_FOLDER in store)
            && (UPLOAD_FOLDER in store ==> saved[UPLOAD_FOLDER] == store[UPLOAD_FOLDER])
  {
    assert UPLOAD_FOLDER != SERVER_URL && UPLOAD_FOLDER != USERNAME;
    assert UPLOAD_FOLDER != PASSWORD && UPLOAD_FOLDER != COPY_URL;
    assert COPY_URL != SERVER_URL && COPY_URL != USERNAME && COPY_URL != PASSWORD;
  }
}
