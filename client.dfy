/** The pure helpers of the single-page client in client/src/App.js: the
    comma-separated tag field of the admin forms, the category filter of the
    projects section, and the fall-back to built-in sample data when the
    list request fails. */
module ClientHelpers {
  import opened Text

  /** The pieces of a split, each trimmed, the empty ones dropped
      (`.map(tag => tag.trim()).filter(tag => tag.length > 0)`). */
  function Clean(parts: seq<string>): (r: seq<string>)
    ensures |r| <= |parts|
    ensures forall t :: t in r ==> t != [] && IsTrimmed(t)
  {
    if parts == [] then []
    else
      var t := Trim(parts[0]);
      (if t == [] then [] else [t]) + Clean(parts[1..])
  }

  /** Cleaning works piece by piece, so it keeps the input order. */
  lemma {:induction false} CleanAppend(a: seq<string>, b: seq<string>)
    ensures Clean(a + b) == Clean(a) + Clean(b)
  {
    if a != [] {
      var head := if Trim(a[0]) == [] then [] else [Trim(a[0])];
      assert (a + b)[0] == a[0] && (a + b)[1..] == a[1..] + b;
      assert Clean(a + b) == head + Clean(a[1..] + b);
      CleanAppend(a[1..], b);
      assert Clean(a) == head + Clean(a[1..]);
    } else {
      assert a + b == b;
    }
  }

  /** Lines 206 and 418: the tag field parsed into a list. */
  function ParseTags(field: string): (tags: seq<string>)
    ensures forall t :: t in tags ==> t != [] && IsTrimmed(t) && ',' !in t
  {
    var parts := Split(field, ',');
    CleanNoComma(parts);
    Clean(parts)
  }

  /** Trimming and dropping never bring a comma in. */
  lemma {:induction false} CleanNoComma(parts: seq<string>)
    requires forall k :: 0 <= k < |parts| ==> ',' !in parts[k]
    ensures forall t :: t in Clean(parts) ==> ',' !in t
  {
    if parts != [] {
      TrimNoComma(parts[0]);
      CleanNoComma(parts[1..]);
    }
  }

  /** Trimming never brings a comma in. */
  lemma TrimNoComma(s: string)
    requires ',' !in s
    ensures ',' !in Trim(s)
  {
    var u := TrimStart(s);
    SliceKeepsOut(s, |s| - |u|, |s|, ',');
    SliceKeepsOut(u, 0, |TrimEnd(u)|, ',');
  }

  /** A character missing from a string is missing from every slice. */
  lemma SliceKeepsOut(s: string, a: nat, b: nat, c: char)
    requires a <= b <= |s| && c !in s
    ensures c !in s[a..b]
  {
    assert forall i :: 0 <= i < b - a ==> s[a..b][i] == s[a + i];
  }

  /** A field without commas is one tag, or none when it is blank. */
  lemma ParseOne(field: string)
    requires ',' !in field
    ensures ParseTags(field) == if Trim(field) == [] then [] else [Trim(field)]
  {
    assert IndexOf(field, ',') == |field|;
    assert Split(field, ',') == [field];
  }

  /** An empty field gives no tags. */
  lemma ParseEmpty()
    ensures ParseTags("") == []
  {
    ParseOne("");
  }

  /** The tags of a field are those of its first comma-free piece followed,
      in order, by those of the rest. */
  lemma ParseCons(head: string, rest: string)
    requires ',' !in head
    ensures ParseTags(head + "," + rest) == ParseTags(head) + ParseTags(rest)
  {
    SplitCons(head, rest);
    CleanAppend([head], Split(rest, ','));
    ParseOne(head);
  }

  /** Splitting at the first comma. */
  lemma SplitCons(head: string, rest: string)
    requires ',' !in head
    ensures Split(head + "," + rest, ',') == [head] + Split(rest, ',')
  {
    var s := head + "," + rest;
    assert s == head + ("," + rest);
    IndexOfFirst(head, "," + rest, ',');
    assert s[..|head|] == head && s[|head| + 1..] == rest;
  }

  /** Lines 175 and 387: a tag list shown for editing. */
  function JoinTags(tags: seq<string>): (field: string)
    ensures tags == [] ==> field == []
    ensures tags != [] ==> |field| == TotalLength(tags) + 2 * (|tags| - 1)
  {
    Join(tags, ", ")
  }

  /** Every tag with a space in front. */
  function Spaced(tags: seq<string>): (r: seq<string>)
    ensures |r| == |tags|
    ensures forall i :: 0 <= i < |r| ==> r[i] == " " + tags[i]
  {
    if tags == [] then [] else [" " + tags[0]] + Spaced(tags[1..])
  }

  /** A prefix on the first piece comes out in front of the join. */
  lemma JoinFrontPrefix(p: string, q: string, more: seq<string>, sep: string)
    ensures Join([p + q] + more, sep) == p + Join([q] + more, sep)
  {
    if more != [] {
      assert ([p + q] + more)[1..] == more;
      assert ([q] + more)[1..] == more;
    }
  }

  /** Joining with ", " is joining with "," after spacing every tag but the
      first. */
  lemma {:induction false} JoinAsCommaSplit(first: string, tags: seq<string>)
    ensures Join([first] + tags, ", ") == Join([first] + Spaced(tags), ",")
    decreases |tags|
  {
    if tags != [] {
      JoinAsCommaSplit(tags[0], tags[1..]);
      assert ([first] + tags)[1..] == [tags[0]] + tags[1..];
      assert ([first] + Spaced(tags))[1..] == [" " + tags[0]] + Spaced(tags[1..]);
      JoinFrontPrefix(" ", tags[0], Spaced(tags[1..]), ",");
      assert Join([tags[0]] + tags[1..], ", ") == Join([tags[0]] + Spaced(tags[1..]), ",");
    }
  }

  /** A non-empty trimmed tag is what trimming its spaced form gives. */
  lemma TrimSpaced(t: string)
    requires t != [] && IsTrimmed(t)
    ensures Trim(" " + t) == t
  {
    assert (" " + t)[1..] == t;
    assert TrimStart(" " + t) == TrimStart(t) == t;
    assert TrimEnd(t) == t;
  }

  /** Cleaning spaced tags that were clean gives them back. */
  lemma {:induction false} CleanSpaced(tags: seq<string>)
    requires forall i :: 0 <= i < |tags| ==> tags[i] != [] && IsTrimmed(tags[i])
    ensures Clean(Spaced(tags)) == tags
  {
    if tags != [] {
      TrimSpaced(tags[0]);
      assert Spaced(tags)[1..] == Spaced(tags[1..]);
      CleanSpaced(tags[1..]);
    }
  }

  /** Editing and saving a tag list unchanged gives the same list back,
      when every tag is non-empty, trimmed and comma-free. */
  lemma ParseJoin(tags: seq<string>)
    requires forall i :: 0 <= i < |tags| ==> tags[i] != [] && IsTrimmed(tags[i]) && ',' !in tags[i]
    ensures ParseTags(JoinTags(tags)) == tags
  {
    if tags == [] {
      ParseEmpty();
    } else {
      JoinTagsSplit(tags);
      CleanAppend([tags[0]], Spaced(tags[1..]));
      assert Trim(tags[0]) == tags[0];
      CleanSpaced(tags[1..]);
    }
  }

  /** The comma pieces of a rendered tag list are the first tag and the
      others with their leading space. */
  lemma JoinTagsSplit(tags: seq<string>)
    requires tags != []
    requires forall i :: 0 <= i < |tags| ==> ',' !in tags[i]
    ensures Split(JoinTags(tags), ',') == [tags[0]] + Spaced(tags[1..])
  {
    var pieces := [tags[0]] + Spaced(tags[1..]);
    assert tags == [tags[0]] + tags[1..];
    JoinAsCommaSplit(tags[0], tags[1..]);
    forall k | 0 <= k < |pieces|
      ensures ',' !in pieces[k]
    {
      if k > 0 {
        assert pieces[k] == " " + tags[k];
      }
    }
    SplitJoin(pieces, ',');
  }

  /** Parsing a parsed list's rendering is stable: a second edit-and-save
      changes nothing. */
  lemma ParseStable(field: string)
    ensures ParseTags(JoinTags(ParseTags(field))) == ParseTags(field)
  {
    var tags := ParseTags(field);
    assert forall i :: 0 <= i < |tags| ==> tags[i] in tags;
    ParseJoin(tags);
  }

  /** Lines 745-747: the items shown under the active filter. */
  function Filtered<T>(items: seq<T>, category: T -> string, active: string): (r: seq<T>)
    ensures |r| <= |items|
    ensures active == "All" ==> r == items
    ensures forall i :: 0 <= i < |r| ==> r[i] in items && (active == "All" || category(r[i]) == active)
    ensures forall i :: 0 <= i < |items| && (active == "All" || category(items[i]) == active) ==> items[i] in r
  {
    if items == [] then []
    else
      var head := if active == "All" || category(items[0]) == active then [items[0]] else [];
      head + Filtered(items[1..], category, active)
  }

  /** The filter keeps the order of the list. */
  lemma {:induction false} FilterAppend<T>(a: seq<T>, b: seq<T>, category: T -> string, active: string)
    ensures Filtered(a + b, category, active) == Filtered(a, category, active) + Filtered(b, category, active)
  {
    if a != [] {
      var head := if active == "All" || category(a[0]) == active then [a[0]] else [];
      assert (a + b)[0] == a[0] && (a + b)[1..] == a[1..] + b;
      assert Filtered(a + b, category, active) == head + Filtered(a[1..] + b, category, active);
      FilterAppend(a[1..], b, category, active);
      assert Filtered(a, category, active) == head + Filtered(a[1..], category, active);
    } else {
      assert a + b == b;
    }
  }

  /** Filtering twice by the same category is filtering once. */
  lemma {:induction false} FilterIdempotent<T>(items: seq<T>, category: T -> string, active: string)
    ensures Filtered(Filtered(items, category, active), category, active) == Filtered(items, category, active)
  {
    if items != [] {
      var head := if active == "All" || category(items[0]) == active then [items[0]] else [];
      FilterAppend(head, Filtered(items[1..], category, active), category, active);
      FilterIdempotent(items[1..], category, active);
    }
  }

  /** How a list request ended: a parsed body, a non-ok status, or an
      exception (network failure, unparsable body). */
  datatype FetchOutcome<T> = Loaded(data: seq<T>) | NotOk | Threw

  /** What the section shows after a request, and whether the "could not
      connect" banner is up. */
  datatype Display<T> = Display(items: seq<T>, error: bool)

  /** Lines 722-733 and 812-823: the fetched list when it is non-empty,
      the sample list otherwise; the banner exactly when the request did
      not load. */
  function Fallback<T>(outcome: FetchOutcome<T>, mock: seq<T>): (d: Display<T>)
    ensures d.items == mock || (outcome.Loaded? && d.items == outcome.data)
  {
    match outcome
    case Loaded(data) => Display(if |data| > 0 then data else mock, false)
    case NotOk => Display(mock, true)
    case Threw => Display(mock, true)
  }

  /** The banner is up exactly when the request failed, the list is the
      server's exactly when it loaded something, and with a non-empty sample
      list the section is never empty. */
  lemma FallbackShape<T>(outcome: FetchOutcome<T>, mock: seq<T>)
    ensures Fallback(outcome, mock).error <==> !outcome.Loaded?
    ensures outcome.Loaded? && outcome.data != [] ==> Fallback(outcome, mock).items == outcome.data
    ensures !(outcome.Loaded? && outcome.data != []) ==> Fallback(outcome, mock).items == mock
    ensures mock != [] ==> Fallback(outcome, mock).items != []
  {
  }

  /** The state of a list section (`loading`, `error`, the items and
      `initialLoad`), which the fetch callback sets step by step. */
  class Section<T> {
    var items: seq<T>
    var error: bool
    var loading: bool
    var initialLoad: bool
    const mock: seq<T>

    /** Lines 712-715 and 802-805: the sample list is shown from the
        start, loading, with no banner. */
    constructor (mock: seq<T>)
      ensures this.mock == mock && items == mock
      ensures !error && loading && initialLoad
    {
      this.mock := mock;
      items, error, loading, initialLoad := mock, false, true, true;
    }

    /** `fetchProjects` / `fetchBlogs`: loading while the request runs, then
        the fallback display, and loading over in every case. */
    method Fetch(outcome: FetchOutcome<T>)
      modifies this
      ensures Display(items, error) == Fallback(outcome, mock)
      ensures !loading && !initialLoad
    {
      loading := true;
      match outcome {
        case Loaded(data) =>
          items := if |data| > 0 then data else mock;
          error := false;
        case NotOk =>
          error := true;
          items := mock;
        case Threw =>
          error := true;
          items := mock;
      }
      loading := false;
      initialLoad := false;
    }
  }
}
