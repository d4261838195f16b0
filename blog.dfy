/** The blog post document of server/models/Blog.js: its schema (required
    paths, the `trim` setter on the title, defaults, timestamps), the
    pre-save hook that re-derives the slug, and the unique indexes on
    title and slug. */
module BlogModel {
  import opened Common
  import opened Text
  import opened Slug
  import opened SlugExamples

  /** The stored fields of a post. A required string path that was never
      given is held as the empty string: the schema rejects both alike. */
  datatype Blog = Blog(
    title: string,
    slug: string,
    summary: string,
    content: string,
    date: nat,
    tags: seq<string>,
    createdAt: nat,
    updatedAt: nat)

  /** What a caller hands to the model's constructor; every path may be
      absent. */
  datatype BlogInput = BlogInput(
    title: Option<string>,
    slug: Option<string>,
    summary: Option<string>,
    content: Option<string>,
    date: Option<nat>,
    tags: Option<seq<string>>)

  /** A string path as the document holds it: absent becomes empty. */
  function OrEmpty(v: Option<string>): string {
    if v.Some? then v.value else []
  }

  /** The document built from `input` at time `now`: the title through the
      `trim` setter, `date` defaulting to the clock, `tags` to the empty
      list; the timestamps are not set before the first save. */
  function Construct(input: BlogInput, now: nat): (b: Blog)
    ensures b.title == Trim(OrEmpty(input.title)) && IsTrimmed(b.title)
    ensures b.date == (if input.date.Some? then input.date.value else now)
    ensures b.tags == (if input.tags.Some? then input.tags.value else [])
    ensures b.slug == OrEmpty(input.slug)
    ensures b.summary == OrEmpty(input.summary) && b.content == OrEmpty(input.content)
  {
    Blog(Trim(OrEmpty(input.title)), OrEmpty(input.slug), OrEmpty(input.summary),
         OrEmpty(input.content),
         if input.date.Some? then input.date.value else now,
         if input.tags.Some? then input.tags.value else [],
         0, 0)
  }

  /** The required paths (title, slug, summary, content) that are empty. */
  function Missing(b: Blog): (paths: set<string>)
    ensures paths <= {"title", "slug", "summary", "content"}
  {
    (if b.title == [] then {"title"} else {})
    + (if b.slug == [] then {"slug"} else {})
    + (if b.summary == [] then {"summary"} else {})
    + (if b.content == [] then {"content"} else {})
  }

  /** A post passes validation exactly when its four required strings are
      all non-empty. */
  lemma MissingIff(b: Blog)
    ensures Missing(b) == {} <==> b.title != [] && b.slug != [] && b.summary != [] && b.content != []
  {
    if b.title == [] { assert "title" in Missing(b); }
    if b.slug == [] { assert "slug" in Missing(b); }
    if b.summary == [] { assert "summary" in Missing(b); }
    if b.content == [] { assert "content" in Missing(b); }
  }

  /** The pre-save hook (lines 39-55): when asked to recompute, the slug
      becomes the one derived from the title; nothing else changes. */
  function SlugHook(b: Blog, recompute: bool, now: nat): (r: Blog)
    ensures r.(slug := b.slug) == b
    ensures !recompute ==> r == b
  {
    if recompute then b.(slug := Derive(b.title, now)) else b
  }

  /** After a recomputing hook the slug is non-empty and of the clean
      shape, and a titled post gets the slug its title normalises to. */
  lemma HookSlugClean(b: Blog, now: nat)
    ensures var r := SlugHook(b, true, now);
      r.slug != [] && IsCleanSlug(r.slug)
      && (Normalize(b.title) != [] ==> r.slug == Normalize(b.title))
  {
  }

  /** Running the hook again on a title with a letter or digit changes
      nothing, whatever the clock; only the fallback depends on it. */
  lemma HookStable(b: Blog, now: nat, later: nat)
    requires exists i :: 0 <= i < |b.title| && IsAsciiAlnum(b.title[i])
    ensures SlugHook(SlugHook(b, true, now), true, later) == SlugHook(b, true, now)
  {
    DeriveClockIndependent(b.title, now, later);
  }

  /** The timestamps plugin: `createdAt` on the first save, `updatedAt`
      whenever the save is of a new or modified document. */
  function Stamp(b: Blog, isNew: bool, changed: bool, now: nat): (r: Blog)
    ensures r.(createdAt := b.createdAt, updatedAt := b.updatedAt) == b
    ensures r.createdAt == (if isNew then now else b.createdAt)
    ensures r.updatedAt == (if isNew || changed then now else b.updatedAt)
  {
    b.(createdAt := if isNew then now else b.createdAt,
       updatedAt := if isNew || changed then now else b.updatedAt)
  }

  /** A save as the document library runs it: validation first, then the
      pre-save hooks (the timestamps hook is registered ahead of the slug
      hook; the two touch different fields, so their order does not show).
      A post that fails validation is not stored and the hook does not run. */
  function SaveAsWritten(b: Blog, isNew: bool, titleModified: bool, changed: bool, now: nat): (r: Result<Blog, set<string>>)
    ensures r.Err? <==> Missing(b) != {}
    ensures r.Err? ==> r.error == Missing(b)
  {
    if Missing(b) != {} then Err(Missing(b))
    else Ok(Stamp(SlugHook(b, isNew || titleModified, now), isNew, changed, now))
  }

  /** A save with the slug hook ahead of validation, the order the hook's
      own comment (lines 57-58) relies on. */
  function SaveIntended(b: Blog, isNew: bool, titleModified: bool, changed: bool, now: nat): (r: Result<Blog, set<string>>)
    ensures var h := SlugHook(b, isNew || titleModified, now);
      (r.Err? <==> Missing(h) != {}) && (r.Err? ==> r.error == Missing(h))
  {
    var h := SlugHook(b, isNew || titleModified, now);
    if Missing(h) != {} then Err(Missing(h))
    else Ok(Stamp(h, isNew, changed, now))
  }

  /** As written, a new post whose slug was not supplied never saves: the
      required-path check on `slug` runs before the hook that fills it. */
  lemma NewPostRejectedAsWritten(b: Blog, now: nat)
    requires b.slug == []
    ensures var r := SaveAsWritten(b, true, true, true, now);
      r.Err? && "slug" in r.error
  {
  }

  /** With the hook first, a new post saves exactly when its title, summary
      and content are present, and is stored with its derived slug and
      both timestamps set to the clock. */
  lemma NewPostSavedIntended(b: Blog, now: nat)
    ensures var r := SaveIntended(b, true, true, true, now);
      && (r.Ok? <==> b.title != [] && b.summary != [] && b.content != [])
      && (r.Ok? ==> r.value == b.(slug := Derive(b.title, now), createdAt := now, updatedAt := now))
  {
    var h := SlugHook(b, true, now);
    HookSlugClean(b, now);
    MissingIff(h);
  }

  /** The concrete case: a new post titled "Hello, World! 2024", with a
      summary and content but no slug, is rejected as written and stored
      under "hello-world-2024" with the hook first. */
  lemma HelloWorldPostExample(b: Blog, now: nat)
    requires b.title == "Hello, World! 2024" && b.slug == []
    requires b.summary != [] && b.content != []
    ensures SaveAsWritten(b, true, true, true, now) == Err({"slug"})
    ensures SaveIntended(b, true, true, true, now).Ok?
    ensures SaveIntended(b, true, true, true, now).value.slug == "hello-world-2024"
  {
    assert Missing(b) == {"slug"};
    HelloWorldSlug(now);
    NewPostSavedIntended(b, now);
  }

  /** The constructor keeps a title that is already trimmed, so such a
      title reaches the hook as given. */
  lemma ConstructKeepsTrimmedTitle(input: BlogInput, now: nat)
    requires input.title.Some? && IsTrimmed(input.title.value)
    ensures Construct(input, now).title == input.title.value
  {
  }

  /** An intended save of an existing post whose title is unchanged keeps
      the slug, and it fails only when a required path is empty. */
  lemma UntitledUpdateKeepsSlug(b: Blog, changed: bool, now: nat)
    ensures var r := SaveAsWritten(b, false, false, changed, now);
      && (r.Ok? <==> Missing(b) == {})
      && (r.Ok? ==> r.value.slug == b.slug && r.value.title == b.title && r.value.createdAt == b.createdAt)
    ensures var r := SaveIntended(b, false, false, changed, now);
      && (r.Ok? <==> Missing(b) == {})
      && (r.Ok? ==> r.value.slug == b.slug && r.value.title == b.title && r.value.createdAt == b.createdAt)
  {
  }

  /** A Mongoose document of the Blog model, updated in place by its
      setters and by `save`. `modified` holds the paths changed since the
      last save. */
  class BlogDocument {
    var title: string
    var slug: string
    var summary: string
    var content: string
    var date: nat
    var tags: seq<string>
    var createdAt: nat
    var updatedAt: nat
    var isNew: bool
    var modified: set<string>

    /** The document's stored fields. */
    function Fields(): Blog
      reads this
    {
      Blog(title, slug, summary, content, date, tags, createdAt, updatedAt)
    }

    /** `new Blog(input)`, with the clock for the `date` default. */
    constructor (input: BlogInput, now: nat)
      ensures Fields() == Construct(input, now)
      ensures isNew && modified == {}
    {
      var b := Construct(input, now);
      title, slug, summary, content := b.title, b.slug, b.summary, b.content;
      date, tags, createdAt, updatedAt := b.date, b.tags, b.createdAt, b.updatedAt;
      isNew, modified := true, {};
    }

    /** `doc.title = t`: the `trim` setter runs, and the path counts as
        modified only when its value changes. */
    method SetTitle(t: string)
      modifies this
      ensures Fields() == old(Fields()).(title := Trim(t))
      ensures isNew == old(isNew)
      ensures modified == if Trim(t) == old(title) then old(modified) else old(modified) + {"title"}
    {
      var v := Trim(t);
      if v != title {
        modified := modified + {"title"};
      }
      title := v;
    }

    /** `doc.summary = s`, which never touches the slug. */
    method SetSummary(s: string)
      modifies this
      ensures Fields() == old(Fields()).(summary := s)
      ensures isNew == old(isNew)
      ensures modified == if s == old(summary) then old(modified) else old(modified) + {"summary"}
    {
      if s != summary {
        modified := modified + {"summary"};
      }
      summary := s;
    }

    /** The hook of lines 37-61: recompute the slug when the document is
        new or its title was modified, leave every field alone otherwise. */
    method PreSave(now: nat)
      modifies this
      ensures Fields() == SlugHook(old(Fields()), old(isNew) || "title" in old(modified), now)
      ensures isNew == old(isNew)
      ensures modified == if slug == old(slug) then old(modified) else old(modified) + {"slug"}
    {
      if isNew || "title" in modified {
        var s := Derive(title, now);
        if s != slug {
          modified := modified + {"slug"};
        }
        slug := s;
      }
    }

    /** `doc.save()` as it runs for this model: validation, then the
        timestamps and the slug hook. A rejected save leaves the document as it was;
        an accepted one makes it no longer new and clears `modified`. */
    method Save(now: nat) returns (r: Result<Blog, set<string>>)
      modifies this
      ensures r == SaveAsWritten(old(Fields()), old(isNew), "title" in old(modified), old(modified) != {}, now)
      ensures r.Err? ==> Fields() == old(Fields()) && isNew == old(isNew) && modified == old(modified)
      ensures r.Ok? ==> Fields() == r.value && !isNew && modified == {}
    {
      var missing := Missing(Fields());
      if missing != {} {
        return Err(missing);
      }
      var wasNew, changed := isNew, modified != {};
      PreSave(now);
      if wasNew {
        createdAt := now;
      }
      if wasNew || changed {
        updatedAt := now;
      }
      isNew, modified := false, {};
      r := Ok(Fields());
    }

    /** `doc.save()` with the hook ahead of validation. Unlike `Save`, a
        rejected save keeps the hook's slug on the document, still new, with
        the slug marked modified when it changed. */
    method SaveHookFirst(now: nat) returns (r: Result<Blog, set<string>>)
      modifies this
      ensures r == SaveIntended(old(Fields()), old(isNew), "title" in old(modified), old(modified) != {}, now)
      ensures r.Err? ==> Fields() == SlugHook(old(Fields()), old(isNew) || "title" in old(modified), now)
      ensures r.Err? ==> isNew == old(isNew)
      ensures r.Err? ==> modified == if slug == old(slug) then old(modified) else old(modified) + {"slug"}
      ensures r.Ok? ==> Fields() == r.value && !isNew && modified == {}
    {
      var wasNew, changed := isNew, modified != {};
      PreSave(now);
      var missing := Missing(Fields());
      if missing != {} {
        return Err(missing);
      }
      if wasNew {
        createdAt := now;
      }
      if wasNew || changed {
        updatedAt := now;
      }
      isNew, modified := false, {};
      r := Ok(Fields());
    }
  }

  // ---------------------------------------------------------------------
  // The unique indexes on title (line 7) and slug (line 12).

  /** Which unique index a write would break. */
  datatype Conflict = DuplicateTitle | DuplicateSlug | NotFound

  /** No two posts share a title or a slug. */
  predicate UniqueKeys(posts: map<Id, Blog>) {
    forall a, b :: a in posts && b in posts && a != b ==>
      posts[a].title != posts[b].title && posts[a].slug != posts[b].slug
  }

  /** Some post other than `self` has the title or the slug of `b`. */
  predicate Collides(posts: map<Id, Blog>, self: Option<Id>, b: Blog) {
    exists k :: k in posts && Some(k) != self && (posts[k].title == b.title || posts[k].slug == b.slug)
  }

  /** The first unique index a write of `b` would break, if any. */
  function Clash(posts: map<Id, Blog>, self: Option<Id>, b: Blog): (c: Option<Conflict>)
    ensures c.None? <==> !Collides(posts, self, b)
    ensures c.Some? ==> c.value != NotFound
  {
    if exists k :: k in posts && Some(k) != self && posts[k].title == b.title then Some(DuplicateTitle)
    else if exists k :: k in posts && Some(k) != self && posts[k].slug == b.slug then Some(DuplicateSlug)
    else None
  }

  /** Writing a post that collides with nobody keeps the keys unique. */
  lemma WriteKeepsUnique(posts: map<Id, Blog>, id: Id, b: Blog)
    requires UniqueKeys(posts)
    requires !Collides(posts, Some(id), b)
    ensures UniqueKeys(posts[id := b])
  {
    var p := posts[id := b];
    forall x, y | x in p && y in p && x != y
      ensures p[x].title != p[y].title && p[x].slug != p[y].slug
    {
      if x == id {
        assert y in posts && Some(y) != Some(id);
      } else if y == id {
        assert x in posts && Some(x) != Some(id);
      }
    }
  }

  /** The stored posts, keyed by the identifiers the store hands out. */
  class BlogTable {
    var posts: map<Id, Blog>
    var nextId: Id

    /** Every key was handed out already, and the unique indexes hold. */
    predicate Valid()
      reads this
    {
      (forall k :: k in posts ==> k < nextId) && UniqueKeys(posts)
    }

    constructor ()
      ensures Valid() && posts == map[]
    {
      posts, nextId := map[], 0;
    }

    /** Insert a saved post under a fresh key, unless it shares a title or
        a slug with a stored one. */
    method Insert(b: Blog) returns (r: Result<Id, Conflict>)
      requires Valid()
      modifies this
      ensures Valid()
      ensures r.Err? <==> Collides(old(posts), None, b)
      ensures r.Err? ==> posts == old(posts) && r.error == Clash(old(posts), None, b).value
      ensures r.Ok? ==> r.value !in old(posts) && posts == old(posts)[r.value := b]
    {
      var c := Clash(posts, None, b);
      if c.Some? {
        return Err(c.value);
      }
      var id := nextId;
      assert !Collides(posts, Some(id), b);
      WriteKeepsUnique(posts, id, b);
      posts := posts[id := b];
      nextId := nextId + 1;
      r := Ok(id);
    }

    /** Store a re-saved post under its key, unless the key is unknown or
        another post has its title or slug. */
    method Replace(id: Id, b: Blog) returns (r: Result<Id, Conflict>)
      requires Valid()
      modifies this
      ensures Valid()
      ensures r.Ok? <==> id in old(posts) && !Collides(old(posts), Some(id), b)
      ensures id !in old(posts) ==> r == Err(NotFound)
      ensures r.Err? ==> posts == old(posts)
      ensures r.Ok? ==> r.value == id && posts == old(posts)[id := b]
    {
      if id !in posts {
        return Err(NotFound);
      }
      var c := Clash(posts, Some(id), b);
      if c.Some? {
        return Err(c.value);
      }
      WriteKeepsUnique(posts, id, b);
      posts := posts[id := b];
      r := Ok(id);
    }
  }
}
