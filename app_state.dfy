/** The page state of the single-page client in client/src/App.js: the
    browser's local storage, the `authFetch` helper that attaches the saved
    token to a request, and the `App` component's current page, selected
    post, theme and login flag. The network is a parameter: it maps the
    headers a request carries to the response status. */
module ClientApp {
  import opened Common
  import BlogModel
  import Guard

  /** `localStorage`: string keys to string values. */
  class LocalStorage {
    var items: map<string, string>

    constructor (items: map<string, string>)
      ensures this.items == items
    {
      this.items := items;
    }

    /** `getItem`. */
    function Get(key: string): Option<string>
      reads this
    {
      Lookup(items, key)
    }
  }

  /** The stored value under a key, or nothing (`null`). */
  function Lookup(items: map<string, string>, key: string): (v: Option<string>)
    ensures v.Some? <==> key in items
    ensures v.Some? ==> v.value == items[key]
  {
    if key in items then Some(items[key]) else None
  }

  const TokenKey: string := "authToken"
  const ThemeKey: string := "theme"
  const Dark: string := "dark"
  const Light: string := "light"

  type Headers = map<string, string>

  /** JavaScript truthiness of a stored value. */
  predicate Truthy(v: Option<string>) {
    v.Some? && v.value != []
  }

  /** Lines 67-75: the JSON content type, overridden by the caller's
      headers, and then the bearer header when a token is stored. */
  function RequestHeaders(token: Option<string>, options: Headers): (h: Headers)
    ensures Truthy(token) ==> "Authorization" in h && h["Authorization"] == "Bearer " + token.value
    ensures !Truthy(token) ==> ("Authorization" in h <==> "Authorization" in options)
    ensures forall k :: k in options && (k != "Authorization" || !Truthy(token)) ==> k in h && h[k] == options[k]
    ensures "Content-Type" in h
    ensures "Content-Type" !in options ==> h["Content-Type"] == "application/json"
    ensures h.Keys <= options.Keys + {"Content-Type", "Authorization"}
  {
    var base := map["Content-Type" := "application/json"] + options;
    if Truthy(token) then base["Authorization" := "Bearer " + token.value] else base
  }

  /** A stored token that is a single word reaches the guard as a
      well-formed bearer header, so the request is admitted exactly when
      the verifier accepts the token. */
  lemma AttachedTokenDecided(token: string, options: Headers, verify: string -> Option<Id>)
    requires token != [] && ' ' !in token
    ensures var h := RequestHeaders(Some(token), options);
      && (verify(token).Some? ==> Guard.Responses(Some(h["Authorization"]), verify) == [Guard.Next(verify(token).value)])
      && (verify(token).None? ==> Guard.Responses(Some(h["Authorization"]), verify) == [Guard.Unauthorized(Guard.TokenFailedMessage)])
  {
    Guard.BearerTokenDecided(token, verify);
    assert Guard.Scheme + " " + token == "Bearer " + token;
  }

  /** Whether a status makes the client forget its token (line 80). */
  predicate Rejected(status: nat) {
    status == 401 || status == 403
  }

  /** Lines 66-85: send the request with the headers above and return the
      response status; a 401 or 403 removes the stored token. */
  method AuthFetch(storage: LocalStorage, options: Headers, respond: Headers -> nat)
    returns (sent: Headers, status: nat)
    modifies storage
    ensures sent == RequestHeaders(old(storage.Get(TokenKey)), options)
    ensures status == respond(sent)
    ensures storage.items == if Rejected(status) then old(storage.items) - {TokenKey} else old(storage.items)
  {
    var token := storage.Get(TokenKey);
    var headers := map["Content-Type" := "application/json"] + options;
    if token.Some? && token.value != [] {
      headers := headers["Authorization" := "Bearer " + token.value];
    }
    sent := headers;
    status := respond(sent);
    if status == 401 || status == 403 {
      storage.items := storage.items - {TokenKey};
    }
  }

  /** After a rejected request no token is stored, so the next request
      carries no bearer header of its own. */
  lemma RejectedForgetsToken(items: map<string, string>, options: Headers)
    requires "Authorization" !in options
    ensures "Authorization" !in RequestHeaders(Lookup(items - {TokenKey}, TokenKey), options)
  {
  }

  /** Lines 1295-1301: dark unless a saved theme says something else. */
  function InitialDark(saved: Option<string>): (dark: bool)
    ensures !Truthy(saved) ==> dark
    ensures Truthy(saved) ==> (dark <==> saved.value == Dark)
  {
    if Truthy(saved) then saved.value == Dark else true
  }

  /** Lines 1305-1313: the theme the effect saves. */
  function ThemeName(dark: bool): string {
    if dark then Dark else Light
  }

  /** Reloading the page restores the theme that was saved. */
  lemma ThemeSurvivesReload(dark: bool)
    ensures InitialDark(Some(ThemeName(dark))) == dark
  {
    assert Light[0] != Dark[0];
  }

  /** What the main area shows. */
  datatype View =
    | Home | About | Projects | Blogs | Contact
    | Admin(authenticated: bool)
    | BlogDetail(blog: BlogModel.Blog)

  /** Lines 1344-1366: the post only on the detail page with a post
      selected; the known pages by name; Home for anything else. */
  function Render(page: string, selected: Option<BlogModel.Blog>, authenticated: bool): (v: View)
    ensures v.BlogDetail? <==> page == "blogDetail" && selected.Some?
    ensures v.BlogDetail? ==> v.blog == selected.value
    ensures v.Admin? <==> page == "admin"
    ensures v.Admin? ==> v.authenticated == authenticated
  {
    if page == "blogDetail" && selected.Some? then BlogDetail(selected.value)
    else if page == "home" then Home
    else if page == "about" then About
    else if page == "projects" then Projects
    else if page == "blogs" then Blogs
    else if page == "contact" then Contact
    else if page == "admin" then Admin(authenticated)
    else Home
  }

  /** The page names `renderContent` knows. */
  const Pages: set<string> := {"home", "about", "projects", "blogs", "contact", "admin", "blogDetail"}

  /** Any route the switch does not know shows Home, and so does the
      detail page without a selected post. */
  lemma UnknownRouteHome(page: string, selected: Option<BlogModel.Blog>, authenticated: bool)
    requires page !in Pages || (page == "blogDetail" && selected.None?)
    ensures Render(page, selected, authenticated) == Home
  {
  }

  /** The `App` component's state. */
  class App {
    var currentPage: string
    var selectedBlog: Option<BlogModel.Blog>
    var isDarkMode: bool
    var isAuthenticated: bool
    const storage: LocalStorage

    /** What the main area shows now. */
    function Shown(): View
      reads this
    {
      Render(currentPage, selectedBlog, isAuthenticated)
    }

    /** The saved theme matches the mode. */
    predicate ThemeSaved()
      reads this, storage
    {
      ThemeKey in storage.items && storage.items[ThemeKey] == ThemeName(isDarkMode)
    }

    /** Mounting: the home page, no post, the theme read back from storage
      (and then saved by the effect), logged in exactly when a token is
      stored. */
    constructor (storage: LocalStorage)
      modifies storage
      ensures this.storage == storage
      ensures currentPage == "home" && selectedBlog.None?
      ensures isDarkMode == InitialDark(old(storage.Get(ThemeKey)))
      ensures isAuthenticated <==> Truthy(old(storage.Get(TokenKey)))
      ensures storage.items == old(storage.items)[ThemeKey := ThemeName(isDarkMode)]
      ensures ThemeSaved()
    {
      var saved := storage.Get(ThemeKey);
      var dark := if saved.Some? && saved.value != [] then saved.value == Dark else true;
      var token := storage.Get(TokenKey);
      this.storage := storage;
      currentPage := "home";
      selectedBlog := None;
      isDarkMode := dark;
      isAuthenticated := token.Some? && token.value != [];
      new;
      SaveTheme();
    }

    /** The theme effect (lines 1305-1313). */
    method SaveTheme()
      modifies storage
      ensures storage.items == old(storage.items)[ThemeKey := ThemeName(isDarkMode)]
      ensures ThemeSaved()
    {
      storage.items := storage.items[ThemeKey := if isDarkMode then Dark else Light];
    }

    /** Lines 1316-1320: go to a page and drop the selected post. */
    method Navigate(route: string)
      modifies this
      ensures currentPage == route && selectedBlog.None?
      ensures isDarkMode == old(isDarkMode) && isAuthenticated == old(isAuthenticated)
      ensures route != "blogDetail" ==> Shown() == Render(route, None, isAuthenticated)
      ensures route == "blogDetail" ==> Shown() == Home
    {
      currentPage := route;
      selectedBlog := None;
    }

    /** Lines 1325-1329: open a post. */
    method SelectBlog(blog: BlogModel.Blog)
      modifies this
      ensures currentPage == "blogDetail" && selectedBlog == Some(blog)
      ensures isDarkMode == old(isDarkMode) && isAuthenticated == old(isAuthenticated)
      ensures Shown() == BlogDetail(blog)
    {
      selectedBlog := Some(blog);
      currentPage := "blogDetail";
    }

    /** Line 1323 and the theme effect: flip the mode and save it. */
    method ToggleTheme()
      modifies this, storage
      ensures isDarkMode == !old(isDarkMode)
      ensures currentPage == old(currentPage) && selectedBlog == old(selectedBlog)
      ensures isAuthenticated == old(isAuthenticated)
      ensures storage.items == old(storage.items)[ThemeKey := ThemeName(isDarkMode)]
      ensures ThemeSaved()
    {
      isDarkMode := !isDarkMode;
      SaveTheme();
    }

    /** Lines 1337-1341: forget the token, mark logged out, go home. */
    method Logout()
      modifies this, storage
      ensures storage.items == old(storage.items) - {TokenKey}
      ensures !isAuthenticated
      ensures currentPage == "home" && selectedBlog.None? && Shown() == Home
      ensures isDarkMode == old(isDarkMode)
      ensures !Truthy(storage.Get(TokenKey))
    {
      storage.items := storage.items - {TokenKey};
      isAuthenticated := false;
      Navigate("home");
    }
  }
}
