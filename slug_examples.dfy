/** Worked examples of the slug chain of server/models/Blog.js, lines
    42-54. */
module SlugExamples {
  import opened Text
  import opened Slug

  /** The lower-cased example title, taken word by word, collapses to its
      words joined by hyphens. */
  lemma HelloWorldCollapse()
    ensures Collapse("hello" + ", " + ("world" + "! " + "2024")) == "hello" + "-" + ("world" + "-" + "2024")
  {
    CollapseWord("2024");
    CollapseWordRun("world", "! ", "2024");
    CollapseWordRun("hello", ", ", "world" + "! " + "2024");
  }

  /** Lower-casing the example title, seen as words and the runs between
      them. */
  lemma HelloWorldLower()
    ensures ToLowerAscii("Hello, World! 2024") == "hello" + ", " + ("world" + "! " + "2024")
  {
  }

  /** The joined words form a clean slug. */
  lemma HelloWorldJoined()
    ensures "hello" + "-" + ("world" + "-" + "2024") == "hello-world-2024"
    ensures IsCleanSlug("hello-world-2024")
  {
  }

  /** "Hello, World! 2024" becomes "hello-world-2024". */
  lemma HelloWorldExample()
    ensures Normalize("Hello, World! 2024") == "hello-world-2024"
  {
    HelloWorldLower();
    HelloWorldCollapse();
    HelloWorldJoined();
    CollapseHyphenated("hello-world-2024");
  }

  /** Its slug is the same whatever the clock says. */
  lemma HelloWorldSlug(now: nat)
    ensures Derive("Hello, World! 2024", now) == "hello-world-2024"
  {
    HelloWorldExample();
  }

  /** "!!!" leaves nothing, so its slug is the fallback. */
  lemma SymbolsOnlyExample(now: nat)
    ensures Normalize("!!!") == []
    ensures Derive("!!!", now) == "blog-post-" + Decimal(now)
  {
    var t := "!!!";
    assert forall i :: 0 <= i < |t| ==> !IsAsciiAlnum(t[i]);
    NormalizeEmpty(t);
    DeriveFallback(t, now);
  }
}
