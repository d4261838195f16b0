# Portfolio site: a Dafny model of its server rules and client state

This project models the logic of a personal portfolio site. The site has an
Express/Mongoose back end and a single-page React client. The model covers
these parts:

- **Blog model** (`server/models/Blog.js`): the schema with its required,
  trimmed, defaulted and unique paths, and the pre-save hook. The hook turns
  the title into a URL slug: lower-case it, replace every run of characters
  other than `a-z0-9` by one hyphen, and strip leading and trailing hyphens.
  If that leaves nothing, the slug is `blog-post-<clock>`. A post is a class
  (`BlogModel.BlogDocument`) whose setters track modified paths. Saving runs
  validation, the hook and the timestamps in the document library's order.
- **Bearer guard** (`server/middleware/auth.js`): the `protect` middleware.
  It is a method that returns everything the guard emits for one request,
  in order: a hand-on to the next handler with the user id, or a 401 with
  one of two messages.
- **Project schema and routes** (`server/models/Project.js`,
  `server/routes/projects.js`):
  - the schema as a caster, validator and default-filler over JSON bodies;
  - the four routes over a table class. GET lists newest first. POST,
    merge-PUT and DELETE sit behind the guard.
- **Admin auth** (`server/routes/auth.js`): token issue with a one-hour
  lifetime, login, and register over a user store class.
- **Contact form** (`server/routes/contact.js`): the presence check, the two
  composed messages, and the two sends in a row over a transport that keeps
  a log of what it delivered.
- **Client** (`client/src/App.js`):
  - the tag field parse and join;
  - the category filter;
  - the fall-back to sample data when a list request fails;
  - `authFetch` and its token handling;
  - the `App` component's page, post, theme and login state over local
    storage.

Everything the code reaches outside itself is a parameter:

- the clock;
- the token verifier;
- the password check and hash;
- the mail transport's accept decision;
- the HTTP responder;
- a `Fault` value that says whether a store read or write throws.

The modules, one per file:

- `Common` (`common.dfy`): `Option`, `Result`, `Fault`.
- `Text` (`text.dfy`): JavaScript `trim`, `split` and `join`, and the
  decimal rendering of a number.
- `Slug` and `SlugExamples` (`slug.dfy`, `slug_examples.dfy`).
- `BlogModel` (`blog.dfy`).
- `Guard` (`guard.dfy`).
- `ProjectSchema` and `ProjectRoutes` (`project_schema.dfy`,
  `project_routes.dfy`).
- `AuthRoutes` (`auth_routes.dfy`).
- `Contact` (`contact.dfy`).
- `ClientHelpers` (`client.dfy`).
- `ClientApp` (`app_state.dfy`).

Where the code and the project's written description differ, the model
follows the code:

- PUT merges the body into the stored project (`Object.assign`); it does not
  replace it.
- `tags`, though marked required, never rejects a project that leaves it
  out. An array path defaults to the empty array, and the document library's
  required check accepts an empty array.
- Any failure of a create answers 400, a store fault included.
- Deleting an id twice answers 404 the second time.

## Model

| member | source | states |
|---|---|---|
| Text.Trim | server/models/Project.js:7 | the result is a slice of the input with only whitespace before and after it, and has no leading or trailing whitespace itself, so exactly the outer whitespace is removed; it equals the input exactly when the input was already trimmed |
| Text.Split | client/src/App.js:206 | at least one piece, and no piece contains the separator |
| Text.Join | client/src/App.js:175 | `parts.join(sep)`: nothing for no pieces, otherwise the pieces' lengths plus one separator between each two neighbours; its partners JoinSplit and SplitJoin make it the inverse of Split |
| Text.JoinSplit | client/src/App.js:206 | joining the pieces of a split with the separator gives back the original string |
| Text.SplitJoin | client/src/App.js:206 | splitting a join of separator-free pieces gives back the pieces |
| Text.SplitPieces | server/middleware/auth.js:10 | the first piece is the text before the first separator; there is a second piece exactly when the separator occurs, and it runs up to the next separator |
| Text.Decimal | server/models/Blog.js:53 | the rendering of a number is a non-empty string of digits |
| Text.DecimalRoundTrip | server/models/Blog.js:53 | reading a rendered number back gives the number |
| Slug.ToLowerAscii | server/models/Blog.js:43 | the same length; a character becomes `[a-z0-9]` exactly when it is an ASCII letter or digit, and everything but upper-case ASCII is left as it is |
| Slug.Collapse | server/models/Blog.js:44 | the replace never lengthens the text and empties only the empty string; CollapseShape gives the shape of its output and CollapseHyphenated shows it changes nothing already hyphenated |
| Slug.TrimHyphens | server/models/Blog.js:45 | the result is a slice of the input with only hyphens before and after it, and neither starts nor ends with a hyphen itself, so exactly the outer hyphens are removed; a string without doubled hyphens becomes a clean slug |
| Slug.Normalize | server/models/Blog.js:42-45 | the slug made from any title is a clean slug: only `a-z`, `0-9` and single inner hyphens |
| Slug.NormalizeKeepsAlnum | server/models/Blog.js:42-45 | the letters and digits of the slug are exactly those of the lower-cased title, in order |
| Slug.NormalizeNonEmpty | server/models/Blog.js:42-45 | a title with an ASCII letter or digit gives a non-empty slug |
| Slug.NormalizeEmpty | server/models/Blog.js:42-45 | a title without ASCII letters or digits gives the empty slug |
| Slug.NormalizeEmptyIff | server/models/Blog.js:42-51 | the slug is empty exactly when the title has no ASCII letter or digit, which is when the fallback applies |
| Slug.NormalizeLeadingRun | server/models/Blog.js:42-45 | separators in front of a title leave no trace in its slug |
| Slug.NormalizeWordRun | server/models/Blog.js:42-45 | a word of letters and digits followed by a run of separators slugs to the lower-cased word, then exactly one hyphen and the slug of the rest when something follows, and nothing more when the title ends there |
| Slug.NormalizeWord | server/models/Blog.js:42-45 | a lone word of letters and digits slugs to itself lower-cased |
| Slug.SlugWordRun | server/models/Blog.js:43-45 | on lower-case text, the replace and the hyphen strip turn a word, a separator run and a rest into the word, one hyphen and the rest's slug |
| Slug.NormalizeFixedPoint | server/models/Blog.js:42-45 | a string is left unchanged by slugging exactly when it is already a clean slug |
| Slug.NormalizeIdempotent | server/models/Blog.js:42-45 | slugging a slug changes nothing |
| Slug.Derive | server/models/Blog.js:42-54 | the slug the hook assigns is never empty and always clean |
| Slug.FallbackClean | server/models/Blog.js:53 | `blog-post-` followed by digits is a clean slug |
| Slug.DeriveIdempotent | server/models/Blog.js:42-54 | deriving a slug from a derived slug, at any clock, gives it back |
| Slug.DeriveClockIndependent | server/models/Blog.js:42-54 | for a title with a letter or digit the slug does not depend on the clock |
| Slug.DeriveFallback | server/models/Blog.js:50-54 | for a title without letters or digits the slug is `blog-post-` followed by the clock in decimal, which reads back as the clock |
| SlugExamples.HelloWorldExample | server/models/Blog.js:42-45 | "Hello, World! 2024" slugs to "hello-world-2024" |
| SlugExamples.HelloWorldSlug | server/models/Blog.js:42-54 | the hook assigns "hello-world-2024" to that title at any clock |
| SlugExamples.SymbolsOnlyExample | server/models/Blog.js:50-54 | "!!!" slugs to nothing, so the hook assigns `blog-post-<clock>` |
| BlogModel.Construct | server/models/Blog.js:3-31 | a new post holds the title trimmed, the other strings as given, the date defaulting to the clock and the tags to the empty list |
| BlogModel.MissingIff | server/models/Blog.js:4-23 | validation finds nothing missing exactly when title, slug, summary and content are all non-empty |
| BlogModel.SlugHook | server/models/Blog.js:37-61 | the hook changes only the slug, and changes nothing when the post is neither new nor retitled |
| BlogModel.HookSlugClean | server/models/Blog.js:39-54 | after the hook runs, the slug is non-empty and clean, and equals the title's slug whenever that is non-empty |
| BlogModel.HookStable | server/models/Blog.js:39-54 | running the hook again on a post whose title has a letter or digit changes nothing |
| BlogModel.Stamp | server/models/Blog.js:32-34 | only the timestamps change: `createdAt` is set on insert, and `updatedAt` on insert or when a path changed |
| BlogModel.SaveAsWritten | server/models/Blog.js:3-61 | as written (validation before the hook), a save fails exactly when a required path is empty before the hook runs, and reports those paths |
| BlogModel.SaveIntended | server/models/Blog.js:36-61 | with the hook first, a save fails exactly when a required path is empty after the hook, and reports those paths |
| BlogModel.NewPostRejectedAsWritten | server/models/Blog.js:10-15 | as written, a new post without a slug is rejected with `slug` among the missing paths |
| BlogModel.NewPostSavedIntended | server/models/Blog.js:36-61 | with the hook first, a new post saves exactly when title, summary and content are present, and is stored with its derived slug and both timestamps at the clock |
| BlogModel.HelloWorldPostExample | server/models/Blog.js:36-61 | a new post titled "Hello, World! 2024" without a slug is rejected as written and saved as "hello-world-2024" with the hook first |
| BlogModel.ConstructKeepsTrimmedTitle | server/models/Blog.js:8 | an already trimmed title is stored as given |
| BlogModel.UntitledUpdateKeepsSlug | server/models/Blog.js:39 | saving a stored post whose title was not modified succeeds exactly when nothing required is empty and keeps its slug, title and creation time, in the order the library runs and in the hook-first order alike |
| BlogModel.BlogDocument.constructor | server/models/Blog.js:3-34 | a new document holds the constructed fields, is new, and has nothing marked modified |
| BlogModel.BlogDocument.SetTitle | server/models/Blog.js:8 | the title becomes the trimmed value, and the title is marked modified only if its value changed |
| BlogModel.BlogDocument.SetSummary | server/models/Blog.js:16-19 | the summary is replaced, and marked modified only if its value changed |
| BlogModel.BlogDocument.PreSave | server/models/Blog.js:37-61 | the document's fields become the hook's result, recomputed when new or retitled, and the slug is marked modified when it changed |
| BlogModel.BlogDocument.Save | server/models/Blog.js:3-61 | the result is the as-written save; a failure leaves the document untouched, and a success stores the result, clears the new flag and the modified set |
| BlogModel.BlogDocument.SaveHookFirst | server/models/Blog.js:36-61 | the result is the hook-first save; unlike `Save`, a rejected save keeps the hook's slug on the document, still new, with the slug marked modified when it changed |
| BlogModel.Clash | server/models/Blog.js:7 | a conflict is reported exactly when another post has the same title or slug |
| BlogModel.WriteKeepsUnique | server/models/Blog.js:12 | writing a post that collides with no other keeps titles and slugs unique across the collection |
| BlogModel.BlogTable.Insert | server/models/Blog.js:7 | an insert is refused exactly on a title or slug collision and then changes nothing; otherwise the post is stored under a fresh id and uniqueness holds |
| BlogModel.BlogTable.Replace | server/models/Blog.js:12 | a replace succeeds exactly when the id exists and nothing else collides; an unknown id is NotFound; a refusal changes nothing |
| Guard.SecondPiece | server/middleware/auth.js:10 | `split(' ')[1]` is present exactly when the header has a space, holds no space, and is the text between the first space and the next |
| Guard.SecondPieceOf | server/middleware/auth.js:10 | in "word token rest" with a space-free word and token, the token is the piece taken |
| Guard.Decode | server/middleware/auth.js:13 | an id comes back only for a present, non-empty token that the verifier accepts |
| Guard.Responses | server/middleware/auth.js:3-28 | the guard emits one or two things per request |
| Guard.Protect | server/middleware/auth.js:3-28 | the method emits exactly the sequence given by the case analysis of the header, token and verifier |
| Guard.NextOnlyWhenVerified | server/middleware/auth.js:13-18 | the next handler runs only for a "Bearer" header whose token the verifier maps to that id, and then nothing else is emitted |
| Guard.Presented | server/middleware/auth.js:7 | the header is present and its first six characters are "Bearer", character for character; AbsentHeaderRejected and BearerTokenDecided give the guard's answer on each side |
| Guard.AbsentHeaderRejected | server/middleware/auth.js:25-27 | with no header, or one not starting with "Bearer", the only answer is the "no token provided" 401 |
| Guard.BearerTokenDecided | server/middleware/auth.js:7-22 | "Bearer <token>" is admitted with the verifier's id exactly when the verifier accepts; otherwise one "token failed" 401 |
| Guard.TwoAnswersIff | server/middleware/auth.js:19-27 | two answers go out exactly when a "Bearer" header yields an absent or empty token |
| Guard.BareSchemeAnsweredTwice | server/middleware/auth.js:7-27 | "Bearer" and "Bearer " each draw a 401 and then an attempted second 401 after the response was sent |
| Guard.ResponsesOnce | server/middleware/auth.js:3-28 | the corrected guard answers once per request, with the first answer the written guard gives |
| Guard.ProtectOnce | server/middleware/auth.js:3-28 | the corrected method emits exactly that single answer |
| Guard.OnceAgrees | server/middleware/auth.js:3-28 | wherever the written guard answers once, the corrected one answers the same |
| ProjectSchema.Cast | server/models/Project.js:4-32 | a `tags` value always casts to a list; a string path casts exactly when given a string |
| ProjectSchema.CastFailures | server/models/Project.js:4-32 | a path fails to cast exactly when the body names it with a value that does not cast |
| ProjectSchema.Assign | server/routes/projects.js:46 | the assignment succeeds exactly when every named value casts, and leaves the timestamps alone |
| ProjectSchema.AssignPaths | server/routes/projects.js:46 | after the assignment every path named by the body holds its cast value, and every other path is kept |
| ProjectSchema.AssignIgnoresOtherKeys | server/routes/projects.js:46 | keys outside the schema do not affect the assignment |
| ProjectSchema.AssignIdempotent | server/routes/projects.js:46 | assigning the same body twice is assigning it once |
| ProjectSchema.Fresh | server/models/Project.js:21-34 | a blank project has the placeholder image, `#` links, no tags and both timestamps at the clock |
| ProjectSchema.Missing | server/models/Project.js:4-20 | nothing is missing exactly when name, description and category are non-empty |
| ProjectSchema.Pick | server/routes/projects.js:25-30 | the picked body keeps exactly the schema keys of the request, with their values |
| ProjectSchema.PickKeepsPaths | server/routes/projects.js:25-30 | picking does not change which paths are named or their values |
| ProjectSchema.Create | server/routes/projects.js:28-30 | a failed create reports at least one path |
| ProjectSchema.CreateOkIff | server/models/Project.js:4-20 | a create succeeds exactly when every value casts and the trimmed name, the description and the category are non-empty |
| ProjectSchema.CreateFills | server/models/Project.js:21-34 | a created project holds every supplied value as cast, the defaults for absent paths, and the clock in both timestamps |
| ProjectSchema.BlankNameRejected | server/models/Project.js:4-8 | a name of nothing but whitespace is rejected |
| ProjectSchema.CreateIgnoresOtherKeys | server/routes/projects.js:25-30 | keys outside the schema make no difference to a create |
| ProjectSchema.Update | server/routes/projects.js:46-48 | a failed update reports at least one path, and `createdAt` never moves |
| ProjectSchema.UpdateOkIff | server/routes/projects.js:46-52 | an update succeeds exactly when every schema value in the body casts and name (trimmed), description and category each keep a non-empty value, from the body or from the stored project |
| ProjectSchema.UpdateBadNameRejected | server/routes/projects.js:46-52 | a PUT whose name is blank after trimming, or a list, is rejected whatever is stored |
| ProjectSchema.UpdateMerges | server/routes/projects.js:46-48 | an update takes the body's values for exactly the paths it names, and `updatedAt` moves to the clock exactly when some path changed |
| ProjectSchema.UpdateTwice | server/routes/projects.js:46-48 | repeating an update, at any later clock, changes nothing more |
| ProjectRoutes.NewerPrefix | server/routes/projects.js:12 | the insertion point is after exactly the newer documents |
| ProjectRoutes.InsertNewest | server/routes/projects.js:12 | the insert adds exactly the new document |
| ProjectRoutes.InsertKeepsOrder | server/routes/projects.js:12 | the insert keeps a newest-first list newest first |
| ProjectRoutes.InsertIds | server/routes/projects.js:12 | the insert adds the new id once and loses none |
| ProjectRoutes.ProjectTable.List | server/routes/projects.js:10-17 | a read fault answers 500; otherwise 200 with every stored project exactly once, as stored, newest first |
| ProjectRoutes.ProjectTable.Create | server/routes/projects.js:22-35 | an invalid body or a write fault answers 400 and stores nothing; otherwise 201 with the created project, stored under a fresh id |
| ProjectRoutes.ProjectTable.Update | server/routes/projects.js:40-56 | a read fault answers 500, an unknown id 404, and a failed save 500, each changing nothing; otherwise 200 with the merged project, which replaces only that row |
| ProjectRoutes.ProjectTable.Delete | server/routes/projects.js:61-72 | a write fault answers 500; an unknown id 404; otherwise 200 and the row is gone; either way the id is absent afterwards |
| ProjectRoutes.ProjectTable.Handle | server/routes/projects.js:10-72 | GET is public and answers the whole table newest first (or 500); an admitted POST, PUT or DELETE answers and changes the table exactly as its route does; otherwise the guard's 401 goes out and the table is untouched; only the guard answers 401 |
| ProjectRoutes.AdmittedOnce | server/middleware/auth.js:13-18 | an admitted request draws exactly one emission from the guard |
| AuthRoutes.GenerateToken | server/routes/auth.js:8-12 | the token carries the id, is issued in the current second, and expires 3600 seconds after issue |
| AuthRoutes.Live | server/middleware/auth.js:13 | the verifier's expiry test, refusing once the clock in seconds reaches `exp`, accepts exactly before the expiry; TokenLifetimeBounds turns it into the token's lifetime |
| AuthRoutes.TokenLifetimeBounds | server/routes/auth.js:8-12 | on the millisecond clock, a token is accepted for at least 3599 s after issue and refused from 3600 s on |
| AuthRoutes.TokenCarriesId | server/routes/auth.js:8-12 | a token carries its id, is live when issued, and is dead one lifetime later |
| AuthRoutes.UserStore.Login | server/routes/auth.js:17-35 | a read fault answers 500; otherwise login succeeds exactly when the user exists and the password matches, with that user's id and name and a token for that id; any other case gets the same 401 |
| AuthRoutes.UserStore.Register | server/routes/auth.js:40-62 | a taken name answers 400 and changes nothing; a fault answers 500 with its message and changes nothing; otherwise 201 and exactly one new user under a fresh id, with the hashed password |
| AuthRoutes.RegisterKeepsFiling | server/routes/auth.js:50-57 | registering a new name adds one user and keeps names and ids unique |
| Contact.OwnerMail | server/routes/contact.js:30-41 | the owner's message goes from the account to the account, and its subject is the fixed prefix followed by the sender's name |
| Contact.SenderMail | server/routes/contact.js:44-54 | the confirmation goes from the account to the submitted address, with the fixed subject |
| Contact.Transport.SendMail | server/routes/contact.js:58-61 | a message is logged exactly when the transport accepts it, and the caller learns which happened |
| Contact.Submit | server/routes/contact.js:9-69 | the answer is the form's outcome, and the transport log grows by exactly the messages delivered |
| Contact.IncompleteSendsNothing | server/routes/contact.js:12-14 | a form missing a field is answered 400 and sends nothing |
| Contact.SuccessIffBothDelivered | server/routes/contact.js:56-63 | 200 is answered exactly when both messages were delivered, the owner's and then the confirmation |
| Contact.OwnerFirst | server/routes/contact.js:58-61 | the owner's message is always the first delivered, and at most two go out |
| Contact.FailureAfterPartialDelivery | server/routes/contact.js:56-68 | when the confirmation fails after the owner's message went out, the visitor gets 500 though one message was delivered |
| ClientHelpers.Clean | client/src/App.js:206 | every kept piece is trimmed and non-empty |
| ClientHelpers.CleanAppend | client/src/App.js:206 | cleaning works piece by piece, so input order is kept |
| ClientHelpers.ParseTags | client/src/App.js:206 | every parsed tag is non-empty, trimmed and comma-free |
| ClientHelpers.ParseOne | client/src/App.js:418 | a field without commas is one tag, or none when blank |
| ClientHelpers.ParseEmpty | client/src/App.js:206 | an empty field gives no tags |
| ClientHelpers.ParseCons | client/src/App.js:418 | the tags of "head,rest" are those of head followed by those of rest |
| ClientHelpers.JoinTags | client/src/App.js:175 | a tag list shown for editing: empty for no tags, otherwise the tags' lengths plus ", " between each two neighbours; ParseJoin makes parsing its inverse on clean tags |
| ClientHelpers.ParseJoin | client/src/App.js:175 | parsing the joined tags gives the tags back when each is non-empty, trimmed and comma-free |
| ClientHelpers.ParseStable | client/src/App.js:387 | editing a parsed list and saving it unchanged gives the same list |
| ClientHelpers.Filtered | client/src/App.js:745-747 | "All" keeps everything; otherwise an item is kept exactly when its category is the filter |
| ClientHelpers.FilterAppend | client/src/App.js:745-747 | the filter keeps the list's order |
| ClientHelpers.FilterIdempotent | client/src/App.js:745-747 | filtering twice by the same category is filtering once |
| ClientHelpers.Fallback | client/src/App.js:722-733 | the list shown is either the sample list or the loaded list |
| ClientHelpers.FallbackShape | client/src/App.js:812-823 | the banner is up exactly when the request did not load; a non-empty load is shown as loaded; anything else shows the sample list; with samples the section is never empty |
| ClientHelpers.Section.constructor | client/src/App.js:712-715 | a section starts on the sample list, loading, without the banner |
| ClientHelpers.Section.Fetch | client/src/App.js:718-738 | after a request the section shows the fallback display and is no longer loading |
| ClientApp.RequestHeaders | client/src/App.js:67-75 | a stored token adds "Bearer <token>"; without one the caller's Authorization, if any, passes through with its value unchanged, as do all the caller's other headers; the JSON content type applies unless the caller overrides it |
| ClientApp.AttachedTokenDecided | client/src/App.js:73-74 | a single-word stored token reaches the guard as a well-formed bearer header, admitted exactly when the verifier accepts it |
| ClientApp.AuthFetch | client/src/App.js:66-85 | the request carries those headers, and a 401 or 403 removes the stored token while any other status leaves storage alone |
| ClientApp.RejectedForgetsToken | client/src/App.js:80-82 | after the token is removed, the next request carries no bearer header of its own |
| ClientApp.InitialDark | client/src/App.js:1295-1301 | the page is dark unless a non-empty saved theme says otherwise |
| ClientApp.ThemeSurvivesReload | client/src/App.js:1295-1313 | the saved theme restores the same mode on the next load |
| ClientApp.Render | client/src/App.js:1344-1367 | the post view appears exactly on the detail page with a post selected; the admin view appears exactly on the admin page, with the login flag |
| ClientApp.UnknownRouteHome | client/src/App.js:1364-1366 | an unknown route, or the detail page without a post, shows Home |
| ClientApp.App.constructor | client/src/App.js:1292-1313 | the app starts on home with no post; the theme comes from storage and is saved back; the app is logged in exactly when a token is stored |
| ClientApp.App.SaveTheme | client/src/App.js:1305-1313 | the current mode's theme name is saved |
| ClientApp.App.Navigate | client/src/App.js:1316-1320 | the page becomes the route and the selected post is cleared, so navigating to the detail page shows Home |
| ClientApp.App.SelectBlog | client/src/App.js:1325-1329 | selecting a post opens its detail view |
| ClientApp.App.ToggleTheme | client/src/App.js:1323 | the mode flips and the new theme is saved; nothing else changes |
| ClientApp.App.Logout | client/src/App.js:1337-1341 | the token is removed, the app is logged out, and home is shown |

## Left out

- Input and output are not modelled: HTTP transport, JSON encoding, MongoDB queries, SMTP, the browser's `fetch`, `window.scrollTo` and `console` logging. The store, the clock, the verifier, the password check and hash, the transport and the responder are parameters.
- JWT signing and signature checks are not modelled (jsonwebtoken and the server secret). A token stands for its claims.
- The bcrypt comparison and hashing are not modelled; `models/User.js` is not part of this model.
- The HTML bodies of the two contact messages are not modelled; only sender, recipient and subject are.
- Identifier casting in the document library is not modelled: a malformed `:id` throws a cast error there. Identifiers here are numbers, so the cast-error 500 on PUT and DELETE is not modelled.
- The order of projects with equal `createdAt` is not modelled; the database leaves it open.
- JSON values other than strings and arrays of strings are not modelled: `null`, numbers and nested objects. The `_id` and timestamp keys in a PUT body are not modelled either.
- Lower-casing is modelled for ASCII only; JavaScript's full Unicode `toLowerCase` is not. A non-ASCII letter is treated as a separator.
- Dates are whole numbers, counted in milliseconds for `Date.now()` and in seconds for token claims. Time zones and date parsing are not modelled.
- `server/routes/blogs.js` is not part of this model. The blog table (`BlogModel.BlogTable`) stands for the unique indexes on title and slug, not for the blog routes.
- A login with `username` missing is not modelled separately: the lookup by a missing name finds no user here.
- `server/index.js` (CORS, route mounting, listening), `server/config/db.js` (the connection) and the Tailwind configuration are not modelled.
- JSX rendering, CSS classes and timers in the client are not modelled: the typing effect, the notification timeout, and `document.documentElement` class toggling.
- AuthRoutes.UserStore.Register: a validation error from creating the user (for instance an empty name or password in `models/User.js`) is covered only as a write fault with its message.

## Findings

| source | as written | input that shows it | evidently intended | confidence | as-written member | corrected member |
|---|---|---|---|---|---|---|
| server/middleware/auth.js:19-27 | when the header starts with "Bearer" but yields no token, `jwt.verify` throws and the catch answers 401; then `if (!token)` attempts a second 401 after the response was sent, which the web framework refuses with an error, so the client sees one 401 and the server raises an error | header "Bearer" or "Bearer " | one 401 per request; the second answer is only for a missing header | high, not executed | Guard.BareSchemeAnsweredTwice | Guard.ResponsesOnce |
| server/models/Blog.js:10-15 | `slug` is required but only filled by a `pre('save')` hook; the document library validates before user hooks, so a new post without a slug fails "Path `slug` is required" | a new post titled "Hello, World! 2024" with summary and content and no slug | the hook fills the slug before validation, as its own comment on lines 57-58 says | medium, not executed | BlogModel.NewPostRejectedAsWritten | BlogModel.NewPostSavedIntended |
