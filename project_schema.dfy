/** The Project schema of server/models/Project.js as a validator and
    default-filler. A request body is a map from keys to JSON strings or
    arrays of strings; the document library casts each schema path (an
    array for a string path is a cast error; a lone string for `tags` is
    wrapped in an array), runs the `trim` setter on `name`, fills the
    defaults of absent paths, and checks the required ones. */
module ProjectSchema {
  import opened Common
  import opened Text

  /** A JSON value a body may hold under a key. */
  datatype Value = Str(s: string) | List(items: seq<string>)

  /** A request body. */
  type Body = map<string, Value>

  /** The seven schema paths (lines 4-32). */
  datatype Path = Name | Description | Tags | Category | ImageUrl | LiveLink | GithubLink

  const AllPaths: set<Path> := {Name, Description, Tags, Category, ImageUrl, LiveLink, GithubLink}

  /** The body key of a path. */
  function Key(f: Path): string {
    match f
    case Name => "name"
    case Description => "description"
    case Tags => "tags"
    case Category => "category"
    case ImageUrl => "imageUrl"
    case LiveLink => "liveLink"
    case GithubLink => "githubLink"
  }

  /** The body keys the schema knows. */
  const Keys: set<string> := {"name", "description", "tags", "category", "imageUrl", "liveLink", "githubLink"}

  const PlaceholderImage: string := "https://placehold.co/400x250/2563EB/ffffff?text=Image+Placeholder"
  const NoLink: string := "#"

  /** A stored project: the seven paths and the two timestamps. */
  datatype Project = Project(
    name: string,
    description: string,
    tags: seq<string>,
    category: string,
    imageUrl: string,
    liveLink: string,
    githubLink: string,
    createdAt: nat,
    updatedAt: nat)

  /** The value of a schema path as JSON. */
  function Get(p: Project, f: Path): Value {
    match f
    case Name => Str(p.name)
    case Description => Str(p.description)
    case Tags => List(p.tags)
    case Category => Str(p.category)
    case ImageUrl => Str(p.imageUrl)
    case LiveLink => Str(p.liveLink)
    case GithubLink => Str(p.githubLink)
  }

  /** Casting `v` for the path `f`, with the `trim` setter of `name`:
      nothing when the value cannot be cast. */
  function Cast(f: Path, v: Value): (c: Option<Value>)
    ensures f == Tags ==> c.Some? && c.value.List?
    ensures f != Tags ==> (c.Some? <==> v.Str?) && (c.Some? ==> c.value.Str?)
  {
    if f == Tags then
      if v.Str? then Some(List([v.s])) else Some(v)
    else if v.List? then None
    else if f == Name then Some(Str(Trim(v.s)))
    else Some(v)
  }

  /** The path is named in the body. */
  predicate Named(body: Body, f: Path) {
    Key(f) in body
  }

  /** The value a path takes: the cast body value when the body names it,
      the current one otherwise. */
  function Take(body: Body, f: Path, current: Value): Value {
    if Named(body, f) && Cast(f, body[Key(f)]).Some? then Cast(f, body[Key(f)]).value else current
  }

  /** The paths named in `body` whose values do not cast. */
  function CastFailures(body: Body): (bad: set<Path>)
    ensures forall f :: f in bad <==> Named(body, f) && Cast(f, body[Key(f)]).None?
  {
    set f | f in AllPaths && Named(body, f) && Cast(f, body[Key(f)]).None?
  }

  /** Setting every schema path named in `body` onto `p`, as
      `Object.assign` on a document does: keys outside the schema are
      dropped, and the timestamps are not touched. */
  function Assign(p: Project, body: Body): (r: Option<Project>)
    ensures r.Some? <==> CastFailures(body) == {}
    ensures r.Some? ==> r.value.createdAt == p.createdAt && r.value.updatedAt == p.updatedAt
  {
    if CastFailures(body) != {} then None
    else
      Some(Project(
        Take(body, Name, Str(p.name)).s,
        Take(body, Description, Str(p.description)).s,
        Take(body, Tags, List(p.tags)).items,
        Take(body, Category, Str(p.category)).s,
        Take(body, ImageUrl, Str(p.imageUrl)).s,
        Take(body, LiveLink, Str(p.liveLink)).s,
        Take(body, GithubLink, Str(p.githubLink)).s,
        p.createdAt, p.updatedAt))
  }

  /** An assignment gives every path named in the body its cast value and
      leaves every other path as it was. */
  lemma AssignPaths(p: Project, body: Body)
    requires Assign(p, body).Some?
    ensures var r := Assign(p, body).value;
      forall f :: Get(r, f) == if Named(body, f) then Cast(f, body[Key(f)]).value else Get(p, f)
  {
    var r := Assign(p, body).value;
    forall f
      ensures Get(r, f) == if Named(body, f) then Cast(f, body[Key(f)]).value else Get(p, f)
    {
      assert f !in CastFailures(body);
    }
  }

  /** A body key outside the schema names no path. */
  lemma OtherKeyNamesNothing(key: string, f: Path)
    requires key !in Keys
    ensures Key(f) != key
  {
  }

  /** Keys outside the schema make no difference to an assignment. */
  lemma AssignIgnoresOtherKeys(p: Project, body: Body, key: string, v: Value)
    requires key !in Keys
    ensures Assign(p, body[key := v]) == Assign(p, body)
  {
    var b2 := body[key := v];
    forall f ensures Named(b2, f) == Named(body, f) && (Named(body, f) ==> b2[Key(f)] == body[Key(f)]) {
      OtherKeyNamesNothing(key, f);
    }
    assert CastFailures(b2) == CastFailures(body);
  }

  /** Assigning the same body twice is the same as assigning it once. */
  lemma AssignIdempotent(p: Project, body: Body)
    requires Assign(p, body).Some?
    ensures Assign(Assign(p, body).value, body) == Assign(p, body)
  {
    if Named(body, Name) && body["name"].Str? {
      var t := Trim(body["name"].s);
      assert Trim(t) == t;
    }
  }

  /** The fields of a new document before anything is assigned: the
      defaults of lines 21-32, the implicit empty array of `tags`, empty
      required strings, and both timestamps at the clock. */
  function Fresh(now: nat): (p: Project)
    ensures p.imageUrl == PlaceholderImage && p.liveLink == NoLink && p.githubLink == NoLink
    ensures p.tags == [] && p.createdAt == now && p.updatedAt == now
  {
    Project([], [], [], [], PlaceholderImage, NoLink, NoLink, now, now)
  }

  /** The required string paths (name, description, category) that are
      empty. `tags` is never among them: an absent array defaults to the
      empty one, which the `required` check accepts. */
  function Missing(p: Project): (paths: set<Path>)
    ensures paths <= {Name, Description, Category}
    ensures paths == {} <==> p.name != [] && p.description != [] && p.category != []
  {
    var a := if p.name == [] then {Name} else {};
    var b := if p.description == [] then {Description} else {};
    var c := if p.category == [] then {Category} else {};
    assert p.name == [] ==> Name in a + b + c;
    assert p.description == [] ==> Description in a + b + c;
    assert p.category == [] ==> Category in a + b + c;
    a + b + c
  }

  /** The body the create handler of server/routes/projects.js hands on
      (its lines 25-30) keeps only the seven schema keys. */
  function Pick(body: Body): (picked: Body)
    ensures picked.Keys == body.Keys * Keys
    ensures forall k :: k in picked ==> picked[k] == body[k]
  {
    map k | k in body.Keys * Keys :: body[k]
  }

  /** Picking loses nothing the schema reads. */
  lemma PickKeepsPaths(body: Body, f: Path)
    ensures Named(Pick(body), f) == Named(body, f)
    ensures Named(body, f) ==> Pick(body)[Key(f)] == body[Key(f)]
  {
    assert Key(f) in Keys;
  }

  /** `Project.create` on the picked body: the cast, default-filled and
      validated document, or the offending paths. */
  function Create(body: Body, now: nat): (r: Result<Project, set<Path>>)
    ensures r.Err? ==> r.error != {}
  {
    var a := Assign(Fresh(now), Pick(body));
    if a.None? then Err(CastFailures(Pick(body)))
    else if Missing(a.value) != {} then Err(Missing(a.value))
    else Ok(a.value)
  }

  /** A string path named in the body whose cast value is non-empty. */
  predicate Supplied(body: Body, f: Path) {
    f != Tags && Named(body, f) && body[Key(f)].Str? && Cast(f, body[Key(f)]).value.s != []
  }

  /** A create succeeds exactly when every schema value casts and name
      (after trimming), description and category are supplied. */
  lemma CreateOkIff(body: Body, now: nat)
    ensures Create(body, now).Ok? <==>
      CastFailures(body) == {} && Supplied(body, Name) && Supplied(body, Description) && Supplied(body, Category)
  {
    var picked := Pick(body);
    forall f ensures Named(picked, f) == Named(body, f) && (Named(body, f) ==> picked[Key(f)] == body[Key(f)]) {
      PickKeepsPaths(body, f);
    }
    assert CastFailures(picked) == CastFailures(body);
    var a := Assign(Fresh(now), picked);
    if a.Some? {
      AssignPaths(Fresh(now), picked);
      assert Get(a.value, Name) == if Named(body, Name) then Cast(Name, body["name"]).value else Str([]);
      assert Get(a.value, Description) == if Named(body, Description) then Cast(Description, body["description"]).value else Str([]);
      assert Get(a.value, Category) == if Named(body, Category) then Cast(Category, body["category"]).value else Str([]);
    }
  }

  /** A created project holds every supplied value as cast, the defaults
      for every absent path, and the clock in both timestamps. */
  lemma CreateFills(body: Body, now: nat)
    requires Create(body, now).Ok?
    ensures var p := Create(body, now).value;
      && (forall f :: Named(body, f) ==> Get(p, f) == Cast(f, body[Key(f)]).value)
      && (!Named(body, ImageUrl) ==> p.imageUrl == PlaceholderImage)
      && (!Named(body, LiveLink) ==> p.liveLink == NoLink)
      && (!Named(body, GithubLink) ==> p.githubLink == NoLink)
      && (!Named(body, Tags) ==> p.tags == [])
      && p.createdAt == now && p.updatedAt == now
  {
    var picked := Pick(body);
    forall f ensures Named(picked, f) == Named(body, f) && (Named(body, f) ==> picked[Key(f)] == body[Key(f)]) {
      PickKeepsPaths(body, f);
    }
    AssignPaths(Fresh(now), picked);
    var p := Create(body, now).value;
    assert Get(p, ImageUrl) == if Named(body, ImageUrl) then Cast(ImageUrl, body["imageUrl"]).value else Str(PlaceholderImage);
    assert Get(p, LiveLink) == if Named(body, LiveLink) then Cast(LiveLink, body["liveLink"]).value else Str(NoLink);
    assert Get(p, GithubLink) == if Named(body, GithubLink) then Cast(GithubLink, body["githubLink"]).value else Str(NoLink);
    assert Get(p, Tags) == if Named(body, Tags) then Cast(Tags, body["tags"]).value else List([]);
  }

  /** A name of nothing but whitespace counts as missing. */
  lemma BlankNameRejected(body: Body, now: nat)
    requires "name" in body && body["name"].Str? && Trim(body["name"].s) == []
    ensures Create(body, now).Err?
  {
    CreateOkIff(body, now);
  }

  /** Keys outside the schema make no difference to a create. */
  lemma CreateIgnoresOtherKeys(body: Body, key: string, v: Value, now: nat)
    requires key !in Keys
    ensures Create(body[key := v], now) == Create(body, now)
  {
    assert Pick(body[key := v]) == Pick(body);
  }

  /** Save after `Object.assign`: the merged and re-validated document,
      with `updatedAt` moved to the clock only when some path changed;
      `createdAt` never moves. */
  function Update(p: Project, body: Body, now: nat): (r: Result<Project, set<Path>>)
    ensures r.Err? ==> r.error != {}
    ensures r.Ok? ==> r.value.createdAt == p.createdAt
  {
    var a := Assign(p, body);
    if a.None? then Err(CastFailures(body))
    else if Missing(a.value) != {} then Err(Missing(a.value))
    else if a.value == p then Ok(p)
    else Ok(a.value.(updatedAt := now))
  }

  /** A required string path still holds a value after a merge: the body
      supplies one, or the body leaves the path alone and it was filled. */
  predicate StillFilled(p: Project, body: Body, f: Path) {
    if Named(body, f) then Supplied(body, f) else Get(p, f) != Str([])
  }

  /** An update succeeds exactly when every schema value in the body casts
      and name (after trimming), description and category each keep a
      non-empty value, from the body or from the stored project. */
  lemma UpdateOkIff(p: Project, body: Body, now: nat)
    ensures Update(p, body, now).Ok? <==>
      CastFailures(body) == {} && StillFilled(p, body, Name) && StillFilled(p, body, Description) && StillFilled(p, body, Category)
  {
    var a := Assign(p, body);
    if a.Some? {
      AssignPaths(p, body);
      assert Get(a.value, Name) == if Named(body, Name) then Cast(Name, body["name"]).value else Get(p, Name);
      assert Get(a.value, Description) == if Named(body, Description) then Cast(Description, body["description"]).value else Get(p, Description);
      assert Get(a.value, Category) == if Named(body, Category) then Cast(Category, body["category"]).value else Get(p, Category);
    }
  }

  /** A PUT that blanks the name, or sends a list for it, is rejected
      whatever the stored project holds. */
  lemma UpdateBadNameRejected(p: Project, body: Body, now: nat)
    requires "name" in body && (body["name"].List? || Trim(body["name"].s) == [])
    ensures Update(p, body, now).Err?
  {
    UpdateOkIff(p, body, now);
    if body["name"].List? {
      assert Name in CastFailures(body);
    }
  }

  /** An update takes the body's values for exactly the paths it names,
      and `updatedAt` moves to the clock exactly when some path changed. */
  lemma UpdateMerges(p: Project, body: Body, now: nat)
    requires Update(p, body, now).Ok?
    ensures var q := Update(p, body, now).value;
      && (forall f :: Get(q, f) == if Named(body, f) then Cast(f, body[Key(f)]).value else Get(p, f))
      && (q.updatedAt == if (forall f :: Get(q, f) == Get(p, f)) then p.updatedAt else now)
  {
    AssignPaths(p, body);
    var a := Assign(p, body).value;
    var q := Update(p, body, now).value;
    if a == p {
      assert q == p;
    } else {
      assert q == a.(updatedAt := now);
      StampKeepsPaths(a, now);
      assert !forall f :: Get(a, f) == Get(p, f) by {
        if forall f :: Get(a, f) == Get(p, f) {
          SameFields(a, p);
        }
      }
    }
  }

  /** Moving `updatedAt` changes no path. */
  lemma StampKeepsPaths(a: Project, t: nat)
    ensures forall f :: Get(a.(updatedAt := t), f) == Get(a, f)
  {
  }

  /** Two projects that agree on every path and on both timestamps are
      equal. */
  lemma SameFields(a: Project, b: Project)
    requires forall f :: Get(a, f) == Get(b, f)
    requires a.createdAt == b.createdAt && a.updatedAt == b.updatedAt
    ensures a == b
  {
    assert Get(a, Name) == Get(b, Name);
    assert Get(a, Description) == Get(b, Description);
    assert Get(a, Tags) == Get(b, Tags);
    assert Get(a, Category) == Get(b, Category);
    assert Get(a, ImageUrl) == Get(b, ImageUrl);
    assert Get(a, LiveLink) == Get(b, LiveLink);
    assert Get(a, GithubLink) == Get(b, GithubLink);
  }

  /** Sending the same update twice: the second changes nothing, not even
      `updatedAt`. */
  lemma UpdateTwice(p: Project, body: Body, now: nat, later: nat)
    requires Update(p, body, now).Ok?
    ensures Update(Update(p, body, now).value, body, later) == Update(p, body, now)
  {
    var a := Assign(p, body).value;
    AssignIdempotent(p, body);
    var q := Update(p, body, now).value;
    assert Assign(q, body) == Some(q) by {
      if a != p {
        assert q == a.(updatedAt := now);
      }
    }
  }
}
